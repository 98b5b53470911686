/**
 * Logging in to an instance, refreshing a record's meta and resolving a
 * conflict (snsync/sync.py).
 *
 * The system keyring is a `Keyring` object holding a map from (service,
 * entry name) to a secret.  What the user would type at a prompt and what
 * the server answers are parameters: `typed(x)` is the (username,
 * password) pair entered during attempt `x`, consulted only for the
 * values the keyring lacks, and `transport(x, req)` is the reply to
 * request `req` sent during attempt `x`.
 */
module Sync {
  import opened Wrappers
  import opened Dicts
  import Config
  import Cache
  import Snow

  // ---------------------------------------------------------------------
  // The keyring

  type Entries = map<(string, string), string>

  /** The keyring service under which an instance's credentials live. */
  function Service(instance: string): string {
    "sn-sync-" + instance
  }

  class Keyring {
    var entries: Entries

    constructor (entries: Entries)
      ensures this.entries == entries
    {
      this.entries := entries;
    }

    /** `keyring.get_password(service, name)` */
    function GetPassword(service: string, name: string): (secret: Option<string>)
      reads this
      ensures secret.Some? <==> (service, name) in entries
      ensures secret.Some? ==> secret.value == entries[(service, name)]
    {
      if (service, name) in entries then Some(entries[(service, name)]) else None
    }

    /** `keyring.set_password(service, name, secret)` */
    method SetPassword(service: string, name: string, secret: string)
      modifies this
      ensures entries == old(entries)[(service, name) := secret]
    {
      entries := entries[(service, name) := secret];
    }

    /** `keyring.delete_password(service, name)`: fails when there is no
        such entry. */
    method DeletePassword(service: string, name: string) returns (r: Result<()>)
      modifies this
      ensures r.Ok? <==> (service, name) in old(entries)
      ensures r.Err? ==> r == Err(PasswordDeleteError) && entries == old(entries)
      ensures r.Ok? ==> entries == old(entries) - {(service, name)}
    {
      if (service, name) !in entries {
        return Err(PasswordDeleteError);
      }
      entries := entries - {(service, name)};
      r := Ok(());
    }
  }

  /** The keyring after `prompt_for_auth_details(instance)`: a missing
      username or password is filled in with what the user typed. */
  function AfterPrompt(entries: Entries, instance: string, typed: (string, string)): (after: Entries)
    ensures (Service(instance), "username") in after && (Service(instance), "password") in after
  {
    var user := (Service(instance), "username");
    var pass := (Service(instance), "password");
    var e := if user in entries then entries else entries[user := typed.0];
    if pass in e then e else e[pass := typed.1]
  }

  /** The credentials stored for an instance, once both are there. */
  function Stored(entries: Entries, instance: string): (string, string)
    requires (Service(instance), "username") in entries && (Service(instance), "password") in entries
  {
    (entries[(Service(instance), "username")], entries[(Service(instance), "password")])
  }

  /** The keyring without an instance's two credentials. */
  function Cleared(entries: Entries, instance: string): Entries {
    entries - {(Service(instance), "username"), (Service(instance), "password")}
  }

  /** A stored value is kept, a missing one takes the typed value, and
      nothing else in the keyring changes. */
  lemma AfterPromptMeaning(entries: Entries, instance: string, typed: (string, string))
    ensures var after := AfterPrompt(entries, instance, typed);
      && Stored(after, instance).0 == (if (Service(instance), "username") in entries then entries[(Service(instance), "username")] else typed.0)
      && Stored(after, instance).1 == (if (Service(instance), "password") in entries then entries[(Service(instance), "password")] else typed.1)
      && after.Keys == entries.Keys + {(Service(instance), "username"), (Service(instance), "password")}
      && forall k :: k in entries ==> after[k] == entries[k]
  {
  }

  /** With both credentials stored, nothing is prompted for. */
  lemma AfterPromptStored(entries: Entries, instance: string, typed: (string, string))
    requires (Service(instance), "username") in entries && (Service(instance), "password") in entries
    ensures AfterPrompt(entries, instance, typed) == entries
  {
  }

  /** `prompt_for_auth_details`: take each credential from the keyring, or
      prompt for it and store it. */
  method PromptForAuthDetails(keyring: Keyring, instance: string, typed: (string, string))
    returns (username: string, password: string)
    modifies keyring
    ensures keyring.entries == AfterPrompt(old(keyring.entries), instance, typed)
    ensures (username, password) == Stored(keyring.entries, instance)
  {
    var service := Service(instance);
    var storedUser := keyring.GetPassword(service, "username");
    var storedPass := keyring.GetPassword(service, "password");
    if storedUser.None? {
      username := typed.0;
      keyring.SetPassword(service, "username", username);
    } else {
      username := storedUser.value;
    }
    if storedPass.None? {
      password := typed.1;
      keyring.SetPassword(service, "password", password);
    } else {
      password := storedPass.value;
    }
  }

  /** `clear_keyring`: delete the username, then the password.  A missing
      entry raises PasswordDeleteError; when only the password is missing,
      the username is already gone from the keyring by then. */
  method ClearKeyring(keyring: Keyring, instance: string) returns (r: Result<()>)
    modifies keyring
    ensures r.Ok? <==> (Service(instance), "username") in old(keyring.entries) && (Service(instance), "password") in old(keyring.entries)
    ensures r.Ok? ==> keyring.entries == Cleared(old(keyring.entries), instance)
    ensures r.Err? ==>
      && r == Err(PasswordDeleteError)
      && keyring.entries == if (Service(instance), "username") in old(keyring.entries)
                            then old(keyring.entries) - {(Service(instance), "username")}
                            else old(keyring.entries)
  {
    r := keyring.DeletePassword(Service(instance), "username");
    if r.Err? {
      return;
    }
    r := keyring.DeletePassword(Service(instance), "password");
  }

  // ---------------------------------------------------------------------
  // setup_client

  /** The inputs to a login: the instance, its host, the user's answers and
      the server's replies, attempt by attempt. */
  datatype Login = Login(
    instance: string,
    host: string,
    typed: nat -> (string, string),
    transport: (nat, Snow.Request) -> Snow.Response)

  /** The probe `setup_client` sends: a plain `get` of a table that does
      not exist, with the given credentials. */
  function ProbeRequest(host: string, credentials: (string, string)): Snow.Request {
    Snow.Request(Snow.GET, Snow.Endpoint(host, "invalid_table"), Snow.GetParams(None, true, None),
      Some(credentials), PutAll(Snow.DefaultHeaders, []), None)
  }

  /** The keyring after `n` attempts that all failed with an HTTP error. */
  function AfterAttempts(login: Login, entries: Entries, n: nat): Entries
    decreases n, 0
  {
    if n == 0 then entries
    else
      var before := AfterAttempts(login, entries, n - 1);
      var prompted := AfterPrompt(before, login.instance, login.typed(n - 1));
      if Outcome(login, entries, n - 1) == Err(HTTPError(401)) then Cleared(prompted, login.instance) else prompted
  }

  /** The credentials used in attempt `x`. */
  function CredentialsAt(login: Login, entries: Entries, x: nat): (string, string)
    decreases x, 1
  {
    Stored(AfterPrompt(AfterAttempts(login, entries, x), login.instance, login.typed(x)), login.instance)
  }

  /** What the probe of attempt `x` raises or returns. */
  function Outcome(login: Login, entries: Entries, x: nat): Result<Snow.Response>
    decreases x, 2
  {
    Snow.RaiseForStatus(login.transport(x, ProbeRequest(login.host, CredentialsAt(login, entries, x))))
  }

  predicate IsHttpError(r: Result<Snow.Response>) {
    r.Err? && r.error.HTTPError?
  }

  /** The first of the three attempts whose probe does not fail with an
      HTTP error, or 3 when all of them do. */
  function Settled(login: Login, entries: Entries, x: nat): (n: nat)
    requires x <= 3
    ensures x <= n <= 3
    decreases 3 - x
  {
    if x == 3 then 3
    else if IsHttpError(Outcome(login, entries, x)) then Settled(login, entries, x + 1)
    else x
  }

  /** Every attempt before the settled one failed with an HTTP error, and
      the settled one (if any) did not. */
  lemma {:induction false} SettledIsFirst(login: Login, entries: Entries, x: nat)
    requires x <= 3
    ensures forall y :: x <= y < Settled(login, entries, x) ==> IsHttpError(Outcome(login, entries, y))
    ensures Settled(login, entries, x) < 3 ==> !IsHttpError(Outcome(login, entries, Settled(login, entries, x)))
    decreases 3 - x
  {
    if x < 3 && IsHttpError(Outcome(login, entries, x)) {
      SettledIsFirst(login, entries, x + 1);
    }
  }

  /** Login fails exactly when all three probes fail with an HTTP error. */
  lemma LoginFailsIffAllRejected(login: Login, entries: Entries)
    ensures Settled(login, entries, 0) == 3 <==> forall y :: 0 <= y < 3 ==> IsHttpError(Outcome(login, entries, y))
  {
    SettledIsFirst(login, entries, 0);
  }

  /** Credentials of other services are never touched. */
  lemma {:induction false} AttemptsKeepOthers(login: Login, entries: Entries, n: nat, k: (string, string))
    requires k.0 != Service(login.instance)
    ensures k in AfterAttempts(login, entries, n) <==> k in entries
    ensures k in entries ==> AfterAttempts(login, entries, n)[k] == entries[k]
    decreases n
  {
    if n > 0 {
      AttemptsKeepOthers(login, entries, n - 1, k);
    }
  }

  /** Without a 401 the keyring is only ever prompted into once: every
      later attempt reuses the credentials of the first. */
  lemma {:induction false} NoClearWithout401(login: Login, entries: Entries, n: nat)
    requires n >= 1
    requires forall y :: 0 <= y < n ==> Outcome(login, entries, y) != Err(HTTPError(401))
    ensures AfterAttempts(login, entries, n) == AfterPrompt(entries, login.instance, login.typed(0))
    ensures forall y :: 0 <= y < n ==> CredentialsAt(login, entries, y) == CredentialsAt(login, entries, 0)
    decreases n
  {
    if n > 1 {
      NoClearWithout401(login, entries, n - 1);
      var before := AfterAttempts(login, entries, n - 1);
      AfterPromptStored(before, login.instance, login.typed(n - 1));
      assert CredentialsAt(login, entries, n - 1) == Stored(before, login.instance);
    }
  }

  /** After a 401 both credentials are gone, so the next attempt uses
      exactly what the user types then. */
  lemma After401(login: Login, entries: Entries, x: nat)
    requires Outcome(login, entries, x) == Err(HTTPError(401))
    ensures (Service(login.instance), "username") !in AfterAttempts(login, entries, x + 1)
    ensures (Service(login.instance), "password") !in AfterAttempts(login, entries, x + 1)
    ensures CredentialsAt(login, entries, x + 1) == login.typed(x + 1)
  {
  }

  /** The instance settings `setup_client` reads: a string host and the
      `verify_ssl` and `read_only` values. */
  predicate Usable(settings: Config.Section) {
    && Get(settings, "host").Some? && Get(settings, "host").value.VStr?
    && Get(settings, "verify_ssl").Some? && Get(settings, "read_only").Some?
  }

  function HostOf(settings: Config.Section): string {
    if Usable(settings) then Get(settings, "host").value.s else ""
  }

  /** `setup_client(config, instance)`: up to three attempts, each with the
      credentials from the keyring or the prompt; a 401 clears them.  The
      first probe that does not fail with an HTTP error ends the loop: with
      the client when it succeeds, with its exception otherwise. */
  method SetupClient(instances: Dict<string, Config.Section>, instance: string,
                     typed: nat -> (string, string), transport: (nat, Snow.Request) -> Snow.Response,
                     keyring: Keyring)
    returns (r: Result<Snow.SNClient>)
    modifies keyring
    ensures Get(instances, instance).None? ==> r == Err(KeyError) && keyring.entries == old(keyring.entries)
    ensures Get(instances, instance).Some? && !Usable(Get(instances, instance).value) ==>
      r.Err? && keyring.entries == AfterPrompt(old(keyring.entries), instance, typed(0))
    ensures Get(instances, instance).Some? && Usable(Get(instances, instance).value) ==>
      var login := Login(instance, HostOf(Get(instances, instance).value), typed, transport);
      var n := Settled(login, old(keyring.entries), 0);
      && (n == 3 ==> r == Err(LoginFailed(instance)) && keyring.entries == AfterAttempts(login, old(keyring.entries), 3))
      && (n < 3 ==> keyring.entries == AfterPrompt(AfterAttempts(login, old(keyring.entries), n), instance, typed(n)))
      && (n < 3 && Outcome(login, old(keyring.entries), n).Ok? ==>
            && r.Ok? && r.value.host == login.host
            && r.value.auth == Some(CredentialsAt(login, old(keyring.entries), n)))
      && (n < 3 && Outcome(login, old(keyring.entries), n).Err? ==> r == Err(Outcome(login, old(keyring.entries), n).error))
  {
    var settings := Get(instances, instance);
    if settings.None? {
      return Err(KeyError);
    }
    if !Usable(settings.value) {
      // the settings are read after the first prompt, and fail there
      var _, _ := PromptForAuthDetails(keyring, instance, typed(0));
      var host := Get(settings.value, "host");
      var verify := Get(settings.value, "verify_ssl");
      var readOnly := Get(settings.value, "read_only");
      if host.None? || verify.None? || readOnly.None? {
        return Err(KeyError);
      }
      return Err(TypeError);
    }
    var login := Login(instance, HostOf(settings.value), typed, transport);
    r := Attempts(settings.value, login, keyring);
  }

  /** The three attempts of `setup_client`. */
  method Attempts(settings: Config.Section, login: Login, keyring: Keyring) returns (r: Result<Snow.SNClient>)
    requires Usable(settings) && login.host == HostOf(settings)
    modifies keyring
    ensures var n := Settled(login, old(keyring.entries), 0);
      && (n == 3 ==> r == Err(LoginFailed(login.instance)) && keyring.entries == AfterAttempts(login, old(keyring.entries), 3))
      && (n < 3 ==> keyring.entries == AfterPrompt(AfterAttempts(login, old(keyring.entries), n), login.instance, login.typed(n)))
      && (n < 3 && Outcome(login, old(keyring.entries), n).Ok? ==>
            && r.Ok? && r.value.host == login.host
            && r.value.auth == Some(CredentialsAt(login, old(keyring.entries), n)))
      && (n < 3 && Outcome(login, old(keyring.entries), n).Err? ==> r == Err(Outcome(login, old(keyring.entries), n).error))
  {
    ghost var e0 := keyring.entries;
    for x := 0 to 3
      invariant keyring.entries == AfterAttempts(login, e0, x)
      invariant Settled(login, e0, 0) == Settled(login, e0, x)
    {
      AttemptStep(login, e0, x);
      var attempt := Attempt(settings, login, x, keyring);
      if attempt.Some? {
        return attempt.value;
      }
    }
    return Err(LoginFailed(login.instance));
  }

  /** Attempt `x` in terms of the keyring before it. */
  lemma AttemptStep(login: Login, entries: Entries, x: nat)
    ensures var prompted := AfterPrompt(AfterAttempts(login, entries, x), login.instance, login.typed(x));
      && Outcome(login, entries, x) == Snow.RaiseForStatus(login.transport(x, ProbeRequest(login.host, Stored(prompted, login.instance))))
      && AfterAttempts(login, entries, x + 1) ==
           if Outcome(login, entries, x) == Err(HTTPError(401)) then Cleared(prompted, login.instance) else prompted
  {
  }

  /** One pass of the loop of `setup_client`: prompt, build the client,
      probe.  None when the probe failed with an HTTP error, after
      clearing the credentials on a 401. */
  method Attempt(settings: Config.Section, login: Login, x: nat, keyring: Keyring)
    returns (r: Option<Result<Snow.SNClient>>)
    requires Usable(settings) && login.host == HostOf(settings)
    modifies keyring
    ensures var prompted := AfterPrompt(old(keyring.entries), login.instance, login.typed(x));
      var outcome := Snow.RaiseForStatus(login.transport(x, ProbeRequest(login.host, Stored(prompted, login.instance))));
      && (r.None? <==> IsHttpError(outcome))
      && (r.None? ==> keyring.entries == if outcome == Err(HTTPError(401)) then Cleared(prompted, login.instance) else prompted)
      && (r.Some? ==> keyring.entries == prompted)
      && (r.Some? && outcome.Ok? ==>
            r.value.Ok? && r.value.value.host == login.host && r.value.value.auth == Some(Stored(prompted, login.instance)))
      && (r.Some? && outcome.Err? ==> r.value == Err(outcome.error))
  {
    var username, password := PromptForAuthDetails(keyring, login.instance, login.typed(x));
    var host := Get(settings, "host").value.s;
    var verify := Get(settings, "verify_ssl").value;
    var readOnly := Get(settings, "read_only").value;
    var client := new Snow.SNClient(host, Some(username), Some(password), [], verify, readOnly);
    var probe := client.Get("invalid_table", None, true, None, (req: Snow.Request) => login.transport(x, req));
    assert client.GetRequest("invalid_table", None, true, None) == ProbeRequest(login.host, (username, password));
    if probe.Ok? {
      return Some(Ok(client));
    }
    if !probe.error.HTTPError? {
      return Some(Err(probe.error));
    }
    if probe.error.status == 401 {
      var cleared := ClearKeyring(keyring, login.instance);
    }
    r := None;
  }

  // ---------------------------------------------------------------------
  // update_meta

  /** The request `update_meta` sends: the record's key fields as the
      query, at most one result. */
  function MetaRequest(client: Snow.SNClient, record: Cache.SNRecord): Snow.Request {
    client.GetRequest(record.config.table, Some(record.GetSnKeys()), true, Some(1))
  }

  /** `update_meta`: fetch the record by its key and fold the first result
      into its meta for `instance`.  A failed request or a reply without
      records leaves the meta as it was; a record lacking a configured
      field raises KeyError from inside `update`. */
  method UpdateMeta(client: Snow.SNClient, record: Cache.SNRecord, instance: string,
                    transport: Snow.Request -> Snow.Response, hash: string -> Cache.Digest)
    returns (r: Result<()>)
    modifies record`meta
    ensures var resp := Snow.RaiseForStatus(transport(MetaRequest(client, record)));
      && (resp.Err? ==> r == Err(resp.error) && record.meta == old(record.meta))
      && (resp.Ok? && resp.value.records.None? ==> r == Err(KeyError) && record.meta == old(record.meta))
      && (resp.Ok? && resp.value.records == Some([]) ==> r == Err(IndexError) && record.meta == old(record.meta))
      && (resp.Ok? && resp.value.records.Some? && resp.value.records.value != [] ==>
            var remote := resp.value.records.value[0];
            && (r.Ok? <==> Cache.Complete(record.config, remote))
            && (r.Err? ==> r == Err(KeyError))
            && record.meta == Cache.UpdatedMeta(old(record.meta), instance,
                 record.config.fields[..Cache.MissingAt(record.config.fields, remote.values)], remote, hash))
  {
    var resp := client.Get(record.config.table, Some(record.GetSnKeys()), true, Some(1), transport);
    if resp.Err? {
      return Err(resp.error);
    }
    var records := resp.value.records;
    if records.None? {
      return Err(KeyError);
    }
    if records.value == [] {
      return Err(IndexError);
    }
    r := record.Update(instance, records.value[0], hash);
  }

  // ---------------------------------------------------------------------
  // resolve_conflict

  /** The answers the conflict prompt accepts. */
  const Choices: seq<string> := ["o", "overwrite", "m", "merge", "s", "skip"]

  /** `resolve_conflict`, with the prompt's answer and the three-way merge
      as parameters.  Only an overwrite with a known preferred side yields
      contents; a merge is computed and dropped, as written. */
  function ResolveConflict(base: string, local: string, remote: string, confirm: bool, prefer: string,
                           answer: string, merge: (string, string, string) -> (bool, seq<string>))
    : (results: Option<string>)
    requires !confirm ==> answer in Choices
    ensures results.Some? <==> !confirm && answer[0] == 'o' && (prefer == "local" || prefer == "remote")
    ensures results.Some? ==> results.value == if prefer == "local" then local else remote
  {
    var action := if confirm then 's' else answer[0];
    if action == 'o' then
      if prefer == "local" then Some(local)
      else if prefer == "remote" then Some(remote)
      else None
    else if action == 'm' then
      // The merge runs, but its conflict flag and contents are never
      // assigned to `results`, which stays None.
      var _ := merge(local, base, remote);
      None
    else
      None
  }

  /** With `confirm` set the answer is never consulted: any two answers
      give the same (empty) result. */
  lemma ConfirmIgnoresAnswer(base: string, local: string, remote: string, prefer: string,
                             a1: string, a2: string, merge: (string, string, string) -> (bool, seq<string>))
    ensures ResolveConflict(base, local, remote, true, prefer, a1, merge) == None
    ensures ResolveConflict(base, local, remote, true, prefer, a1, merge) ==
            ResolveConflict(base, local, remote, true, prefer, a2, merge)
  {
  }

  /** A merge answer yields nothing, whatever the merge reports. */
  lemma MergeYieldsNothing(base: string, local: string, remote: string, prefer: string,
                           answer: string, merge: (string, string, string) -> (bool, seq<string>))
    requires answer in Choices && answer[0] == 'm'
    ensures ResolveConflict(base, local, remote, false, prefer, answer, merge) == None
  {
  }
}
