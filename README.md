# sn-sync core in Dafny

sn-sync keeps the records of a Service Now instance (scripts, templates and
the like) as local files and tracks how they change on both sides. This
project models the parts of it that make decisions, and proves what they
promise:

- **The record cache and change classifier** (`snsync/cache.py`).
  - An `SNRecord` keeps, per instance and per field, the last fetched
    value and its hash, plus a baseline recorded when a divergence was
    first seen.
  - `update` folds a fetched record into that metadata.
  - `update_field_meta` closes a divergence.
  - `compare` classifies every examined field as no change, local, remote
    or both, from the local hash, the remote hash and the baseline.
  - `SNCache` scans the repository, binds each file to a field of its
    record, loads records memory-first from their cached JSON document,
    and lists them.
- **Configuration** (`snsync/config.py`).
  - `find_config_file` searches for the configuration file from the
    working directory up to the root.
  - `merge_defaults` fills in default keys.
  - The constructor checks the instances and records, and chooses the
    default instance.
- **The Service Now client** (`snsync/snow.py`).
  - The encoded query string.
  - The parameter dictionaries of `get` and `update`.
  - The request URL.
  - When basic authentication is set up.
- **Logging in and fetching** (`snsync/sync.py`).
  - `prompt_for_auth_details` and `clear_keyring`, over a keyring.
  - The three-attempt login loop of `setup_client`.
  - `update_meta`.
  - The `resolve_conflict` decision table.

Modules: `Wrappers` (Option, Result, the error kinds), `Dicts` (Python's
insertion-ordered dictionaries as association lists), `Text` (the string
and path functions the core uses), `Cache`, `Config`, `Snow` and `Sync`.

Where the source mutates, the model does too:
- `SNRecord` and `SNClient` are classes.
- `SNCache` is a class.
- The keyring is a class.
- The disk holding the cached JSON documents is a class.

Each loop of the source is a method with invariants, proved equal to a
function. The source's promises are proved as lemmas about those
functions.

Things the core gets from the environment become parameters:
- the MD5 digest, the current contents of a local file and `samefile`;
- directory listings and the parsed YAML document;
- the user's answers at the prompts;
- the server's reply to each request.

The digest is not assumed to be injective.

## Model

| member | source | states |
|---|---|---|
| Cache.Classify | snsync/cache.py:253-272 | The four branches are exhaustive, so a field always gets a status. No change exactly when the local hash equals the stored remote hash, whatever the baseline. Otherwise: remote when there is no baseline or the local hash equals it; local when the baseline equals the remote hash; both when it equals neither. |
| Cache.FoldField | snsync/cache.py:176-191 | One field of `update`. Afterwards the field holds the fetched hash and text. A recorded baseline is never overwritten. With no baseline and a changed hash, the old hash and text become the baseline. With no baseline and the same hash, nothing is snapshotted. A field seen for the first time gets an empty baseline. |
| Cache.FoldFieldIdempotent | snsync/cache.py:180-191 | Fetching the same value twice leaves what fetching it once does. |
| Cache.BaselineSurvivesFetches | snsync/cache.py:182-188 | Once a baseline is recorded, no number of later fetches changes it. |
| Cache.CloseField | snsync/cache.py:193-198 | `update_field_meta` on one field: the baseline becomes the current hash and text, which stay as they were. |
| Cache.CloseFieldIdempotent | snsync/cache.py:193-198 | Closing a divergence twice equals closing it once. |
| Cache.CloseFieldSettles | snsync/cache.py:193-198 | After closing, `compare` yields only no change (local hash = hash) or local, never remote or both. |
| Cache.RemoteChangeAfterClose | snsync/cache.py:180-191 | After a close and then a remote change, the baseline is still the closed value. So an untouched local file is remote, a local edit is both, and a local edit equal to the remote one is no change. |
| Cache.MetaFile | snsync/cache.py:83-84 | The cache file of a record lies under the cache path and its last segment is the key's last segment plus ".json". For a plain name (the type one non-empty segment, no empty key segment) it is the cache path, the type and then the key's segments. |
| Cache.MetaFileInjective | snsync/cache.py:83-84 | Two different (type, key) pairs with plain names never share a cache path (as a segment list). |
| Cache.EmptySegmentCollides | snsync/cache.py:83-84 | `os.path.join` drops an empty key segment, so the keys "a//b" and "a/b" share a cache file. |
| Cache.SlashInTypeCollides | snsync/cache.py:83-84 | A '/' in the record type adds a folder, so type "x/y" with key "z" and type "x" with key "y/z" share a cache file. |
| Cache.SnKeys | snsync/cache.py:89-93 | `get_sn_keys`: only key field names become keys. With distinct field names, the i-th key field is paired with the i-th key segment, as many pairs as the shorter list has. |
| Cache.FieldForExt | snsync/cache.py:111-116 | None exactly when no configured field has the extension. Otherwise, the first field in configuration order whose extension matches. |
| Cache.FileFieldOf | snsync/cache.py:124-132 | A found field is bound to a file that is the same file as the path. When no bound file is that file, nothing is found. |
| Cache.FileFieldOfFirst | snsync/cache.py:129-132 | When some bound file is the same file as the path, the result is the field of the first such binding. |
| Cache.CollectFields | snsync/cache.py:221-225 | Every field `compare` collects for a list of files is one of the record's bindings. |
| Cache.CollectFieldsKeys | snsync/cache.py:221-225 | With a list of files, a field is examined exactly when it is truthy and one of the files is bound to it. |
| Cache.CollectFieldsDistinct | snsync/cache.py:221-225 | The fields collected for a list of files hold no field twice, and with distinct bindings neither do the examined fields, so `compare` reports each field once. |
| Cache.ComparisonsShape | snsync/cache.py:230-274 | `compare` fails exactly when some examined field has no metadata on the instance. Otherwise it yields exactly one entry per examined field, in order, each carrying that field's classification. |
| Cache.SNRecord.CollectCheckedFields | snsync/cache.py:220-225 | The collecting loop of `compare` computes the examined fields (`CollectFields`). |
| Cache.ClassifyFields | snsync/cache.py:230-274 | The classifying loop of `compare` computes `Comparisons`, whose shape `ComparisonsShape` states. |
| Cache.SNRecord.Compare | snsync/cache.py:213-274 | `compare` examines every binding when `files` is empty, else the fields the files are bound to, and classifies them (`ComparisonsShape`). |
| Cache.ScanVerdict | snsync/cache.py:324-341 | A file is accepted exactly when its key has as many segments as the type's key and its extension is a configured one. A key-length mismatch is reported as such. An accepted file's key and extension are the stem and extension `os.path.splitext` gives for its relative path, and some field has that extension. |
| Cache.NewFlagAsWrittenInverted | snsync/cache.py:72-74 | As written, a record with no cached document reports not new, and one loaded from its document reports new. This is the opposite of what the comment and `is_new` say. |
| Cache.NewFlagMeansUnsaved | snsync/cache.py:120-122 | Once corrected, the flag is true exactly when there is no document at the record's path. |
| Cache.FoldedFieldsMeaning | snsync/cache.py:175-191 | The folded fields: each done field is the fold of its prior meta with its fetched value, and every other field is unchanged. |
| Cache.UpdatedMetaMeaning | snsync/cache.py:165-191 | After `update` gets through some fields, the instance has the fetched sys_id, updated_on and updated_by. Each of those fields is folded with its fetched value. Other fields and other instances keep their meta. |
| Cache.MissingAt | snsync/cache.py:176-183 | The position where the field loop of `update` raises KeyError: every earlier configured field has a fetched value, and the field at that position (if any) does not. |
| Cache.FoldConfigured | snsync/cache.py:176-191 | The field loop folds the configured fields in order and stops at the first one the fetched record lacks (`MissingAt`). |
| Cache.SNRecord.Update | snsync/cache.py:159-191 | Ok exactly when the fetched record holds every configured field, KeyError otherwise. In both cases the meta becomes `UpdatedMeta` over the fields before the missing one (all of them on success). |
| Cache.SNRecord.constructor | snsync/cache.py:60-74 | A new record has no bindings. Its meta is the loaded document, or empty when there is none. Its new flag is the corrected one. |
| Cache.SNRecord.GetSnField | snsync/cache.py:95-103 | The meta of a field, or None exactly when the instance or the field has none. |
| Cache.SNRecord.AddLFile | snsync/cache.py:105-118 | Binds the file to the first field with the extension, or to None when no field has it, replacing an earlier binding of that field. |
| Cache.SNRecord.GetFileField | snsync/cache.py:124-132 | Returns the field of the first binding whose file is the same file (`FileFieldOf`). |
| Cache.SNRecord.ContainsFile | snsync/cache.py:152-157 | True exactly when some field is found for the file (`FileFieldOf`, `FileFieldOfFirst`). |
| Cache.SNRecord.UpdateFieldMeta | snsync/cache.py:193-198 | Closes exactly that field (`CloseField`) and changes nothing else. A missing instance or field raises KeyError and changes nothing. |
| Cache.SNRecord.Save | snsync/cache.py:200-211 | Writes the meta at the record's path on disk and marks it saved. |
| Cache.Loaded | snsync/cache.py:354-366 | A record built by `load_record` has no bindings. Its meta is the document at its cache file, or empty. With the corrected flag, it is new exactly when there is no such file. |
| Cache.SaveThenLoad | snsync/cache.py:357-360 | `save` writes where `load_record` reads: a saved record reloads with the saved meta, and with the corrected flag it is not new. |
| Cache.SaveThenLoadAsWritten | snsync/cache.py:72-74 | With the flag as written, that reloaded record reports new. |
| Cache.FileScannedAccept | snsync/cache.py:333-337 | An accepted file binds the field of its extension on its record, after loading the record when it is not in memory. |
| Cache.FileScannedSkipped | snsync/cache.py:327-341 | A file with the wrong key length or an unknown extension changes nothing. |
| Cache.FileScannedAt | snsync/cache.py:317-341 | One scanned file adds at most its own record, and binds one field on it. Every other record is untouched. |
| Cache.ScannedAt | snsync/cache.py:297-315 | A scan registers exactly the records some accepted file belongs to. It binds each record's fields, in file order, on top of what the record held. |
| Cache.RescanChangesNothing | snsync/cache.py:350-352 | Scanning the same files again adds no record and moves no binding. |
| Cache.SelectFrom | snsync/cache.py:379-381 | The inner loop of `get_records` keeps the wanted records of one type, in order. |
| Cache.AnyContains | snsync/cache.py:380 | True exactly when the record is bound to one of the files. |
| Cache.SelectedMembers | snsync/cache.py:376-382 | `get_records` returns exactly the records that are bound to one of the files. |
| Cache.SelectedAll | snsync/cache.py:380 | Without a filter, `get_records` returns every record in order. |
| Cache.SNCache.constructor | snsync/cache.py:279-283 | A new cache holds no records. |
| Cache.SNCache.LoadRecord | snsync/cache.py:343-368 | A record already in memory is returned as is and nothing changes. Otherwise the record is built from its cache file (as `Loaded`, with the corrected flag) and registered under its type. When the type was never scanned, registering raises KeyError and nothing changes. |
| Cache.SNCache.Store | snsync/cache.py:367 | Registers the record under its type and key, leaving every other lookup unchanged. |
| Cache.SNCache.ScanFile | snsync/cache.py:317-341 | A type with no configuration raises TypeError. Otherwise the records change exactly as `FileScanned` says. |
| Cache.SNCache.BindFile | snsync/cache.py:336-337 | Loads the file's record and binds the file to the field of its extension. |
| Cache.SNCache.ScanType | snsync/cache.py:312-315 | Scans the files of one type in order. It fails with TypeError exactly when the type has no configuration and has files, and then at its first file, with nothing changed. |
| Cache.SNCache.ScanRecordType | snsync/cache.py:306-315 | Registers the type when it is new, then scans its files. A TypeError leaves the records as they were. |
| Cache.SNCache.ScanNext | snsync/cache.py:305-315 | One pass of the type loop extends the scan by that type's files. On a TypeError the type is registered and the records are those of the earlier types. |
| Cache.SNCache.Scan | snsync/cache.py:297-315 | Types default to every configured type. TypeError exactly when some scanned type is unconfigured and has files. It is raised at the first such type: the types before it are scanned and registered, and so is that type, with none of its files. Otherwise every type is registered and the records are those of scanning every listed file in order (`ScannedAt`, `RescanChangesNothing`). |
| Cache.SNCache.GetRecords | snsync/cache.py:370-382 | Type by type, key by key, the records bound to one of the files, or all records when there are no files (`SelectedMembers`, `SelectedAll`). |
| Config.MergeDefaults | snsync/config.py:46-52 | The in-place loop computes `WithDefaults`. |
| Config.WithDefaultsKeys | snsync/config.py:49-52 | The keys afterwards are the configuration's plus the defaults'. |
| Config.WithDefaultsKeeps | snsync/config.py:49-51 | A key already present keeps its value, and a key that is no default stays absent. |
| Config.WithDefaultsAdds | snsync/config.py:52 | An absent default key gets its default value. |
| Config.WithDefaultsPresent | snsync/config.py:49-51 | With every default key present, nothing changes. |
| Config.WithDefaultsIdempotent | snsync/config.py:46-52 | Merging the same defaults twice equals merging them once. |
| Config.InstanceDefaultsApplied | snsync/config.py:93 | After validation every instance has `read_only` (default False) and `verify_ssl` (default True), with existing values kept and every other key unchanged. |
| Config.NearestIsNearest | snsync/config.py:30-43 | A found directory is cwd or one of its ancestors and lists the file, and no directory between it and cwd does. Nothing is found exactly when no directory from cwd up to the root lists the file. |
| Config.FindConfigFile | snsync/config.py:24-43 | Returns the file's path in the nearest directory that lists it. Otherwise raises ConfigurationFileNotFound. The loop terminates because `dirname` shortens the path until the root. |
| Config.LastMarkedIsLast | snsync/config.py:85-90 | A chosen default instance is marked `default`, and no later instance is. |
| Config.LastMarkedNone | snsync/config.py:85-90 | No instance is chosen exactly when none is marked `default`. |
| Config.WithInstanceDefaults | snsync/config.py:79-93 | Each instance, in order, with the instance defaults merged in. |
| Config.CheckSections | snsync/config.py:103-107 | The first record lacking table, key or fields raises InvalidConfiguration with its name. Ok exactly when none lacks them. |
| Config.MergeInstances | snsync/config.py:79-93 | The first instance lacking `host` raises InvalidConfiguration with its name. Ok exactly when none lacks it, and then every instance has its defaults merged and the default is the last marked instance, else the preset one. |
| Config.CheckDocument | snsync/config.py:78-107 | Validation in the source's order. An invalid instance; then no instance and no preset default raises IndexError; then an invalid record. On success, the default instance is the last marked one, else the preset, else the first. |
| Config.SNConfig.constructor | snsync/config.py:73-74 | The repository root is the directory holding the configuration file. |
| Config.SNConfig.GetRecordConfig | snsync/config.py:113-114 | The record type's configuration, or None exactly when it is not configured. |
| Config.Load | snsync/config.py:57-107 | The file name defaults to "snconfig.yaml". ConfigurationFileNotFound when no directory holds the file. Otherwise Ok exactly when the document passes validation, with the root, the merged instances, the chosen default and the records. |
| Snow.RaiseForStatus | snsync/snow.py:62 | A 4xx or 5xx reply raises HTTPError with its status, no reply raises a request error, and any other reply passes through. |
| Snow.Endpoint | snsync/snow.py:57-58 | The URL is the host, "/", the table, then ".do?JSONv2". |
| Snow.EndpointInjective | snsync/snow.py:82-83 | Different tables of one host have different URLs. |
| Snow.Terms | snsync/snow.py:37-38 | One `key=value` term per entry, in dictionary order. |
| Snow.FormatQuery | snsync/snow.py:33-42 | The loop and join compute `QueryString`: the terms joined by `^`. |
| Snow.QueryStringEmpty | snsync/snow.py:35-42 | The query is empty exactly when the dictionary is. |
| Snow.QueryStringTerms | snsync/snow.py:37-40 | With no `^` in keys or values, splitting the query at `^` gives back the terms in order. With no `=` in a key, the key is the text before the first `=`. |
| Snow.GetParams | snsync/snow.py:47-55 | `displayvalue` is always present. `sysparm_query` is present exactly when the query is non-empty, holding its encoding. `sysparm_limit` is present exactly when the limit is truthy (0 and None are left out). There are no other keys, and no key appears twice. |
| Snow.BuildGetParams | snsync/snow.py:47-55 | The conditional insertions compute `GetParams`. |
| Snow.UpdateParams | snsync/snow.py:76-80 | `sysparm_query` is `sys_id=` and the sys_id, `sysparm_action` is `update`, and `displayvalue` is true. These three are the only parameters. |
| Snow.Auth | snsync/snow.py:20-22 | Basic authentication is set up exactly when both username and password are given, and then it uses them. |
| Snow.SNClient.constructor | snsync/snow.py:13-31 | The session has the host, the SSL setting and the authentication. Its headers are the JSON defaults with any extra headers merged over them. |
| Snow.SNClient.GetRequest | snsync/snow.py:47-58 | A GET to the table's URL with `GetParams`, the session's authentication and headers, and no body. |
| Snow.SNClient.UpdateRequest | snsync/snow.py:76-86 | A POST to the table's URL with `UpdateParams`, the session's authentication and headers, and the values as its JSON body. |
| Snow.SNClient.Get | snsync/snow.py:44-64 | Sends `GetRequest` and raises on an error status. |
| Snow.SNClient.Update | snsync/snow.py:69-91 | Sends `UpdateRequest` and raises on an error status. |
| Sync.Keyring.GetPassword | snsync/sync.py:22-23 | The stored secret, or None exactly when there is none. |
| Sync.Keyring.SetPassword | snsync/sync.py:29 | Stores the secret and changes no other entry. |
| Sync.Keyring.DeletePassword | snsync/sync.py:45-46 | Removes the entry. A missing entry raises PasswordDeleteError and changes nothing. |
| Sync.AfterPrompt | snsync/sync.py:22-35 | Afterwards both credentials of the instance are stored. |
| Sync.AfterPromptMeaning | snsync/sync.py:22-37 | A credential already stored is kept and a missing one takes the typed value. Only those two entries can be added, and nothing stored changes. |
| Sync.AfterPromptStored | snsync/sync.py:25-35 | With both credentials stored, nothing is prompted for or stored. |
| Sync.PromptForAuthDetails | snsync/sync.py:14-37 | The keyring becomes `AfterPrompt`, and the returned pair equals the two stored credentials. |
| Sync.ClearKeyring | snsync/sync.py:40-46 | Succeeds exactly when both credentials were stored, and then both are removed. Otherwise PasswordDeleteError is raised. By then a stored username has already been deleted; the rest of the keyring is unchanged. |
| Sync.Settled | snsync/sync.py:59-69 | The attempt that ends the loop is between the given one and 3. |
| Sync.SettledIsFirst | snsync/sync.py:59-73 | Every attempt before the one that ends the loop failed with an HTTP error, and that one did not. |
| Sync.LoginFailsIffAllRejected | snsync/sync.py:59-75 | LoginFailed is raised exactly when all three probes fail with an HTTP error. |
| Sync.AttemptsKeepOthers | snsync/sync.py:59-73 | The attempts touch no keyring entry of another service. |
| Sync.NoClearWithout401 | snsync/sync.py:70-73 | Without a 401 the keyring is prompted into only once. Every later attempt reuses the credentials of the first. |
| Sync.After401 | snsync/sync.py:70-73 | A 401 removes both credentials, so the next attempt uses what the user types then. |
| Sync.Attempt | snsync/sync.py:60-73 | One attempt: prompt, build the client, probe. A success returns the client with the stored credentials. A non-HTTP error propagates. An HTTP error yields None, clearing the credentials on a 401. Other keyring entries stay as prompted. |
| Sync.Attempts | snsync/sync.py:58-75 | At most three attempts, stopping at the first that does not fail with an HTTP error. Gives the client of a successful probe, the error of a failed one, or LoginFailed after three HTTP errors, with the keyring as the attempts leave it. |
| Sync.SetupClient | snsync/sync.py:49-75 | An unknown instance raises KeyError without prompting. Unusable settings fail after the first prompt. Otherwise as `Attempts`. |
| Sync.UpdateMeta | snsync/sync.py:78-87 | Fetches by `get_sn_keys` with limit 1. A failed request, a reply without `records` (KeyError) or with no records (IndexError) leaves the meta unchanged. Otherwise the first record is folded in by `update`. |
| Sync.ResolveConflict | snsync/sync.py:90-128 | Contents are returned exactly when `confirm` is false, the answer starts with 'o' and `prefer` is 'local' or 'remote'. Then they are the preferred side. |
| Sync.ConfirmIgnoresAnswer | snsync/sync.py:99-102 | With `confirm`, the result is None whatever the answer would be. |
| Sync.MergeYieldsNothing | snsync/sync.py:117-128 | A merge answer yields None, whatever the merge reports, because `results` is never assigned. |
| Text.Dirname | snsync/config.py:34 | `dirname` drops the last segment, and the root is its own parent. |
| Text.Split | snsync/cache.py:91-92 | `str.split`: at least one part, with no separator in any part, and joining the parts gives back the string. |
| Text.SplitExt | snsync/cache.py:325 | `os.path.splitext`: stem and extension together are the path. The extension is empty or starts with its only dot. A non-empty extension is preceded, in the last component, by a character other than a dot. Conversely, when the last dot lies in the last component after some character other than a dot, the extension starts at that dot. |
| Text.NonEmpty | snsync/cache.py:84 | The result holds exactly the parts that are not empty. Parts that are all non-empty are kept as they are. |
| Text.NonEmptyAppend | snsync/cache.py:84 | Dropping empty parts commutes with concatenation, so the order of the kept parts is the original order. |
| Text.Pieces | snsync/cache.py:84 | The segments one component adds under `os.path.join`: exactly the non-empty '/'-separated pieces, none holding '/'; a plain segment adds itself. |
| Text.SplitCount | snsync/cache.py:328 | Splitting yields one more part than the separators in the string. |

## Findings

| source | as written | input that shows it | evidently intended | confidence | as-written member | corrected member |
|---|---|---|---|---|---|---|
| snsync/cache.py:74 | `_new = (meta is not None)`: a record is flagged new when a cached document was found | `load_record` of a key with no cache file gives `meta = None`, so `is_new()` is False for a record never saved; reloading a saved record gives True | `_new = (meta is None)`, as the comment at line 73 and the docstring at line 121 say | not executed | Cache.NewFlagAsWritten, Cache.NewFlagAsWrittenInverted | Cache.NewFlag, Cache.NewFlagMeansUnsaved |

The records the model builds use the corrected flag (`Cache.SNRecord.constructor`, `Cache.Loaded`).

## Left out

- `snsync/merge.py` is not part of this model: it does not parse, and `merge3_has_conflict` does not exist. `resolve_conflict` takes the merge as a parameter.
- `do_pull`, `get_status`, `do_diff` and `do_push` are left out. They call methods that do not exist, unpack the wrong tuple sizes, and otherwise only print.
- `SNRecord.get_files` is left out. It shadows its parameter, calls an unqualified `contains_file`, and is unused.
- `SNRecord.get_sys_id`, `is_new` and the `table` property are plain field reads. They are kept as fields, with no separate operation.
- `SNClient.create` is left out: its body is `pass`.
- `LocalFile` is left out: reading files, `mtime` (which is missing its `return`), `stats` (which calls a method that does not exist) and `relative_path` (which depends on the working directory). File contents, the MD5 digest and `samefile` are parameters. The digest is over text, not over the encoded bytes.
- JSON is not modelled. The cache directory is a map from path to metadata. A server reply keeps only its status and its `records` entry.
- `resp.json()` failures are not modelled.
- YAML parsing is a `parse` parameter, including its broken error branch (config.py:70 uses undefined names).
- Config.Load: the parsed document is taken as typed. It always has `instances` and `records`, and each entry is a mapping. A document without them, which the source rejects with Python errors, is not represented.
- `SNConfig.__getattr__` is not modelled. `SNConfig` holds the entries the core reads.
- The HTTP session and `requests` are not modelled. A request is a value and the server is a `transport` parameter. All `requests` exceptions other than HTTPError are one `RequestFailed` error.
- SSL verification is not modelled.
- The keyring backend is not modelled: it is a map.
- `click` prompts are not modelled: the answers are parameters.
- Cache.SNRecord.constructor: the new flag is the corrected `meta is None` (`NewFlag`), not `meta is not None` as cache.py:74 writes it (see Findings).
- Cache.Loaded: records carry the corrected new flag, so a record never saved reports new; as written it would report not new.
- Cache.SaveThenLoad: its "not new" holds for the corrected flag only; `Cache.SaveThenLoadAsWritten` shows the flag as written reports new.
- Cache.SNCache.LoadRecord: the records it builds carry the corrected new flag, through `Loaded`.
- Cache.MetaFile: a record type starting with '/' would make `os.path.join` discard the cache path. The model keeps the cache path.
- Cache.MetaFileInjective: "." and ".." segments are not resolved, so keys such as "a/./b" and "a/b" give different cache paths that name one file. Keys found by a scan are relative paths without such segments.
- Cache.SNCache: records are held by value (`RecordView`), not as shared `SNRecord` objects. So aliasing between the cache's records and records handed out is not modelled: changing a record obtained from `load_record` is not seen through the cache.
- Cache.SNCache.Scan: directory traversal is not modelled (`Path.rglob`, skipping directories, `relative_to`). Each type's files are given by a `listing` parameter, as paths relative to the type's directory.
- Cache.SNRecord.Update: fetched records are taken as always holding `sys_id`, `sys_updated_on` and `sys_updated_by`. The KeyError the source raises without one of them is not represented, and neither is the empty instance entry it may already have created.
- Cache.SNRecord.Update: on the KeyError path the source has already placed an empty field entry (`{}`) for the missing field. This is not represented: that field keeps its prior meta.
- Sync.SetupClient: a non-string `host` is reported as TypeError. The source would format it into the URL with `str()`.
- Sync.ResolveConflict: requires that a prompted answer is one of the choices; `click.Choice` enforces this.
- `cli.py`, `logging.py` and `setup.py` are command-line plumbing, colour formatting and packaging, and are not part of this model.
- `exceptions.py` is not part of this model: its classes are the `Error` datatype.
- There is no concurrency: the watch command is a placeholder.
