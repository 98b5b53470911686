/**
 * Locating and checking the repository configuration (snsync/config.py).
 *
 * The configuration file is searched for from the working directory up to
 * the root; its YAML document gives the Service Now instances and the
 * record types.  Parsing YAML is not modelled: `SNConfig` starts from the
 * three entries of the parsed document the core reads (`instances`,
 * `default_instance` when present, `records`), and the directory listing
 * is a parameter.
 */
module Config {
  import opened Wrappers
  import opened Dicts
  import opened Text

  /** A value of the parsed YAML document. */
  datatype Value =
    | VNone
    | VBool(b: bool)
    | VInt(i: int)
    | VStr(s: string)
    | VList(items: seq<Value>)
    | VMap(entries: Dict<string, Value>)

  /** Python's truth value of a parsed value. */
  predicate Truthy(v: Value) {
    match v
    case VNone => false
    case VBool(b) => b
    case VInt(i) => i != 0
    case VStr(s) => s != ""
    case VList(items) => items != []
    case VMap(entries) => entries != []
  }

  type Section = Dict<string, Value>

  /** `INSTANCE_DEFAULT_CONFIG` */
  const InstanceDefaults: Section := [("read_only", VBool(false)), ("verify_ssl", VBool(true))]
  /** `INSTANCE_REQUIRED_FIELDS` */
  const InstanceRequired: seq<string> := ["host"]
  /** `RECORD_REQUIRED_FIELDS` */
  const RecordRequired: seq<string> := ["table", "key", "fields"]
  /** The default name of the configuration file. */
  const DefaultConfigFileName: string := "snconfig.yaml"

  // ---------------------------------------------------------------------
  // merge_defaults

  /** The dictionary `merge_defaults(config, defaults)` leaves behind. */
  function WithDefaults(config: Section, defaults: Section): Section
    decreases |defaults|
  {
    if defaults == [] then config
    else
      var r := WithDefaults(config, defaults[..|defaults| - 1]);
      var (key, value) := defaults[|defaults| - 1];
      if key in KeySet(r) then r else Put(r, key, value)
  }

  /** `merge_defaults` fills in, in place, every default key the
      configuration lacks. */
  method MergeDefaults(config: Section, defaults: Section) returns (merged: Section)
    ensures merged == WithDefaults(config, defaults)
  {
    merged := config;
    for i := 0 to |defaults|
      invariant merged == WithDefaults(config, defaults[..i])
    {
      assert defaults[..i + 1][..i] == defaults[..i];
      var (key, value) := defaults[i];
      if key in KeySet(merged) {
        continue;
      }
      merged := Put(merged, key, value);
    }
    assert defaults[..|defaults|] == defaults;
  }

  /** The keys afterwards are the configuration's and the defaults'. */
  lemma {:induction false} WithDefaultsKeys(config: Section, defaults: Section)
    ensures KeySet(WithDefaults(config, defaults)) == KeySet(config) + KeySet(defaults)
    decreases |defaults|
  {
    if defaults != [] {
      var n := |defaults| - 1;
      WithDefaultsKeys(config, defaults[..n]);
      KeySetPrefix(defaults, n);
      assert defaults[..n + 1] == defaults;
    }
  }

  /** A key already present keeps its value, and every other key that is
      not a default stays absent. */
  lemma {:induction false} WithDefaultsKeeps(config: Section, defaults: Section, k: string)
    requires k in KeySet(config) || k !in KeySet(defaults)
    ensures Get(WithDefaults(config, defaults), k) == Get(config, k)
    decreases |defaults|
  {
    if defaults != [] {
      var n := |defaults| - 1;
      var r := WithDefaults(config, defaults[..n]);
      KeySetPrefix(defaults, n);
      assert defaults[..n + 1] == defaults;
      WithDefaultsKeeps(config, defaults[..n], k);
      var (key, value) := defaults[n];
      if key !in KeySet(r) {
        PutGet(r, key, value, k);
      }
    }
  }

  /** An absent default key gets the value the defaults give it. */
  lemma {:induction false} WithDefaultsAdds(config: Section, defaults: Section, k: string)
    requires k !in KeySet(config) && k in KeySet(defaults)
    ensures Get(WithDefaults(config, defaults), k) == Get(defaults, k)
    decreases |defaults|
  {
    var n := |defaults| - 1;
    var front := defaults[..n];
    var r := WithDefaults(config, front);
    var key, value := defaults[n].0, defaults[n].1;
    assert defaults == front + [(key, value)];
    KeySetAppend(front, [(key, value)]);
    WithDefaultsKeys(config, front);
    GetSnoc(front, key, value, k);
    if k in KeySet(front) {
      WithDefaultsAdds(config, front, k);
      if key !in KeySet(r) {
        PutGet(r, key, value, k);
      }
    } else {
      WithDefaultsKeeps(config, front, k);
      PutGet(r, key, value, k);
    }
  }

  /** Looking up in `d + [(k, v)]` finds `d`'s entry first. */
  lemma GetSnoc<V>(d: Dict<string, V>, k: string, v: V, k': string)
    ensures Get(d + [(k, v)], k') == if k' in KeySet(d) then Get(d, k') else if k' == k then Some(v) else None
  {
    if d != [] {
      assert (d + [(k, v)])[1..] == d[1..] + [(k, v)];
      GetSnoc(d[1..], k, v, k');
      KeySetCons(d);
    }
  }

  /** Nothing to fill in leaves the configuration as it is. */
  lemma {:induction false} WithDefaultsPresent(config: Section, defaults: Section)
    requires KeySet(defaults) <= KeySet(config)
    ensures WithDefaults(config, defaults) == config
    decreases |defaults|
  {
    if defaults != [] {
      var n := |defaults| - 1;
      KeySetPrefix(defaults, n);
      WithDefaultsPresent(config, defaults[..n]);
    }
  }

  /** Merging the same defaults twice is merging them once. */
  lemma WithDefaultsIdempotent(config: Section, defaults: Section)
    ensures WithDefaults(WithDefaults(config, defaults), defaults) == WithDefaults(config, defaults)
  {
    WithDefaultsKeys(config, defaults);
    WithDefaultsPresent(WithDefaults(config, defaults), defaults);
  }

  /** After the instance defaults are merged, `read_only` and `verify_ssl`
      are set, to their previous values where the instance had them. */
  lemma InstanceDefaultsApplied(instance: Section)
    ensures var merged := WithDefaults(instance, InstanceDefaults);
      && Get(merged, "read_only") == (if "read_only" in KeySet(instance) then Get(instance, "read_only") else Some(VBool(false)))
      && Get(merged, "verify_ssl") == (if "verify_ssl" in KeySet(instance) then Get(instance, "verify_ssl") else Some(VBool(true)))
      && forall k :: k != "read_only" && k != "verify_ssl" ==> Get(merged, k) == Get(instance, k)
  {
    assert InstanceDefaults[0].0 == "read_only" && InstanceDefaults[1].0 == "verify_ssl";
    assert KeySet(InstanceDefaults) == {"read_only", "verify_ssl"};
    assert Get(InstanceDefaults, "read_only") == Some(VBool(false));
    assert Get(InstanceDefaults, "verify_ssl") == Some(VBool(true));
    forall k | k in {"read_only", "verify_ssl"} ensures
      Get(WithDefaults(instance, InstanceDefaults), k) == if k in KeySet(instance) then Get(instance, k) else Get(InstanceDefaults, k)
    {
      if k in KeySet(instance) {
        WithDefaultsKeeps(instance, InstanceDefaults, k);
      } else {
        WithDefaultsAdds(instance, InstanceDefaults, k);
      }
    }
    forall k | k != "read_only" && k != "verify_ssl" ensures Get(WithDefaults(instance, InstanceDefaults), k) == Get(instance, k) {
      WithDefaultsKeeps(instance, InstanceDefaults, k);
    }
  }

  // ---------------------------------------------------------------------
  // find_config_file

  /** The nearest directory from `dir` up to the root whose listing holds
      `fileName`. */
  function Nearest(dir: Path, fileName: string, listdir: Path -> set<string>): Option<Path>
    decreases |dir|
  {
    if fileName in listdir(dir) then Some(dir)
    else if dir == Dirname(dir) then None
    else Nearest(Dirname(dir), fileName, listdir)
  }

  /** `Nearest` finds an ancestor of `dir` (or `dir` itself) that holds the
      file, and no directory between it and `dir` does; it finds nothing
      exactly when no ancestor holds the file. */
  lemma {:induction false} NearestIsNearest(dir: Path, fileName: string, listdir: Path -> set<string>)
    ensures Nearest(dir, fileName, listdir).Some? ==>
      var d := Nearest(dir, fileName, listdir).value;
      && |d| <= |dir| && d == dir[..|d|] && fileName in listdir(d)
      && forall j :: |d| < j <= |dir| ==> fileName !in listdir(dir[..j])
    ensures Nearest(dir, fileName, listdir).None? <==> forall j :: 0 <= j <= |dir| ==> fileName !in listdir(dir[..j])
    decreases |dir|
  {
    assert dir[..|dir|] == dir;
    if fileName !in listdir(dir) && dir != [] {
      var parent := Dirname(dir);
      NearestIsNearest(parent, fileName, listdir);
      forall j | 0 <= j <= |parent| ensures parent[..j] == dir[..j] { }
    }
  }

  /** `find_config_file`: the path of the file in the nearest directory
      that holds it, or `ConfigurationFileNotFound`. */
  method FindConfigFile(cwd: Path, fileName: string, listdir: Path -> set<string>) returns (r: Result<Path>)
    ensures Nearest(cwd, fileName, listdir).Some? ==> r == Ok(Nearest(cwd, fileName, listdir).value + [fileName])
    ensures Nearest(cwd, fileName, listdir).None? ==> r == Err(ConfigurationFileNotFound(fileName))
  {
    var cur := cwd;
    while true
      invariant Nearest(cur, fileName, listdir) == Nearest(cwd, fileName, listdir)
      decreases |cur|
    {
      var fileList := listdir(cur);
      var parent := Dirname(cur);
      if fileName in fileList {
        return Ok(cur + [fileName]);
      } else if cur == parent {
        return Err(ConfigurationFileNotFound(fileName));
      } else {
        cur := parent;
      }
    }
  }

  // ---------------------------------------------------------------------
  // SNConfig

  /** Whether every required key is present. */
  predicate HasRequired(section: Section, required: seq<string>) {
    forall i :: 0 <= i < |required| ==> required[i] in KeySet(section)
  }

  /** Whether no entry lacks a required key. */
  predicate AllValid(entries: Dict<string, Section>, required: seq<string>) {
    forall i :: 0 <= i < |entries| ==> HasRequired(entries[i].1, required)
  }

  /** Whether entry `i` is the first to lack a required key. */
  predicate FirstInvalid(entries: Dict<string, Section>, required: seq<string>, i: int) {
    && 0 <= i < |entries| && !HasRequired(entries[i].1, required)
    && AllValid(entries[..i], required)
  }

  /** `instance.get('default', False)` is truthy. */
  predicate Marked(instance: Section) {
    var v := Get(instance, "default");
    v.Some? && Truthy(v.value)
  }

  /** The name of the last instance marked as the default. */
  function LastMarked(instances: Dict<string, Section>): Option<string>
    decreases |instances|
  {
    if instances == [] then None
    else if Marked(instances[|instances| - 1].1) then Some(instances[|instances| - 1].0)
    else LastMarked(instances[..|instances| - 1])
  }

  /** `LastMarked` names a marked instance that no later instance
      overrides. */
  lemma {:induction false} LastMarkedIsLast(instances: Dict<string, Section>)
    requires LastMarked(instances).Some?
    ensures exists i ::
      && 0 <= i < |instances| && instances[i].0 == LastMarked(instances).value && Marked(instances[i].1)
      && forall j :: i < j < |instances| ==> !Marked(instances[j].1)
    decreases |instances|
  {
    var n := |instances| - 1;
    if !Marked(instances[n].1) {
      var front := instances[..n];
      LastMarkedIsLast(front);
      var i :| 0 <= i < |front| && front[i].0 == LastMarked(front).value && Marked(front[i].1)
        && forall j :: i < j < |front| ==> !Marked(front[j].1);
      assert instances[i] == front[i];
      forall j | i < j < |instances| ensures !Marked(instances[j].1) {
        if j < n {
          assert instances[j] == front[j];
        }
      }
    }
  }

  /** `LastMarked` is None exactly when no instance is marked. */
  lemma {:induction false} LastMarkedNone(instances: Dict<string, Section>)
    ensures LastMarked(instances).None? <==> forall i :: 0 <= i < |instances| ==> !Marked(instances[i].1)
    decreases |instances|
  {
    if instances != [] {
      var n := |instances| - 1;
      LastMarkedNone(instances[..n]);
      assert forall i :: 0 <= i < n ==> instances[i] == instances[..n][i];
    }
  }

  /** The instances with the instance defaults merged into each. */
  function WithInstanceDefaults(instances: Dict<string, Section>): (merged: Dict<string, Section>)
    ensures |merged| == |instances|
    ensures forall i :: 0 <= i < |instances| ==>
      merged[i] == (instances[i].0, WithDefaults(instances[i].1, InstanceDefaults))
  {
    seq(|instances|, i requires 0 <= i < |instances| => (instances[i].0, WithDefaults(instances[i].1, InstanceDefaults)))
  }

  /** The first entry lacking a required key is the only such first entry. */
  lemma FirstInvalidAt(entries: Dict<string, Section>, required: seq<string>, i: int)
    requires 0 <= i < |entries| && !HasRequired(entries[i].1, required) && AllValid(entries[..i], required)
    ensures forall j :: FirstInvalid(entries, required, j) <==> j == i
  {
    forall j | FirstInvalid(entries, required, j) ensures j == i {
      if j < i {
        assert false;
      } else if j > i {
        assert false;
      }
    }
  }

  /** The loop over the records: every one needs the required keys. */
  method CheckSections(entries: Dict<string, Section>, required: seq<string>) returns (r: Result<()>)
    ensures forall i :: FirstInvalid(entries, required, i) ==> r == Err(InvalidConfiguration(entries[i].0))
    ensures r.Ok? <==> AllValid(entries, required)
  {
    for i := 0 to |entries|
      invariant AllValid(entries[..i], required)
    {
      assert entries[..i + 1][..i] == entries[..i];
      var (name, section) := entries[i];
      if !HasRequired(section, required) {
        FirstInvalidAt(entries, required, i);
        return Err(InvalidConfiguration(name));
      }
    }
    assert entries[..|entries|] == entries;
    r := Ok(());
  }

  lemma AllValidSnoc(entries: Dict<string, Section>, required: seq<string>, i: nat)
    requires i < |entries|
    ensures AllValid(entries[..i + 1], required) <==> AllValid(entries[..i], required) && HasRequired(entries[i].1, required)
  {
    assert forall j :: 0 <= j < i ==> entries[..i + 1][j] == entries[..i][j];
    assert entries[..i + 1][i] == entries[i];
  }

  lemma LastMarkedSnoc(instances: Dict<string, Section>, i: nat)
    requires i < |instances|
    ensures LastMarked(instances[..i + 1]) == if Marked(instances[i].1) then Some(instances[i].0) else LastMarked(instances[..i])
  {
    assert instances[..i + 1][..i] == instances[..i];
  }

  /** The loop over the instances on the values it updates. */
  method MergeInstances(instances: Dict<string, Section>, preset: Option<Value>)
    returns (r: Result<()>, updated: Dict<string, Section>, chosen: Option<Value>)
    ensures forall i :: FirstInvalid(instances, InstanceRequired, i) ==> r == Err(InvalidConfiguration(instances[i].0))
    ensures r.Ok? <==> AllValid(instances, InstanceRequired)
    ensures r.Ok? ==>
      && updated == WithInstanceDefaults(instances)
      && chosen == if LastMarked(instances).Some? then Some(VStr(LastMarked(instances).value)) else preset
  {
    updated, chosen := instances, preset;
    for i := 0 to |instances|
      invariant |updated| == |instances|
      invariant forall j :: 0 <= j < i ==> updated[j] == (instances[j].0, WithDefaults(instances[j].1, InstanceDefaults))
      invariant forall j :: i <= j < |instances| ==> updated[j] == instances[j]
      invariant AllValid(instances[..i], InstanceRequired)
      invariant chosen == if LastMarked(instances[..i]).Some? then Some(VStr(LastMarked(instances[..i]).value)) else preset
    {
      AllValidSnoc(instances, InstanceRequired, i);
      LastMarkedSnoc(instances, i);
      var (name, instance) := updated[i];
      if !HasRequired(instance, InstanceRequired) {
        FirstInvalidAt(instances, InstanceRequired, i);
        return Err(InvalidConfiguration(name)), updated, chosen;
      }
      if Marked(instance) {
        chosen := Some(VStr(name));
      }
      var merged := MergeDefaults(instance, InstanceDefaults);
      updated := updated[i := (name, merged)];
    }
    assert instances[..|instances|] == instances;
    r := Ok(());
  }

  /** The parts of the parsed YAML document the core reads. */
  datatype Document = Document(
    instances: Dict<string, Section>,
    defaultInstance: Option<Value>,
    records: Dict<string, Section>)

  /** The default instance `SNConfig.__init__` settles on: the last one
      marked as the default, else the document's own `default_instance`,
      else the first instance. */
  function ChosenDefault(doc: Document): Value
    requires doc.instances != [] || doc.defaultInstance.Some?
  {
    if LastMarked(doc.instances).Some? then VStr(LastMarked(doc.instances).value)
    else if doc.defaultInstance.Some? then doc.defaultInstance.value
    else VStr(doc.instances[0].0)
  }

  /** The validation of `SNConfig.__init__`, in its order: each instance needs
      a host, the default instance is chosen, each record needs a table, a
      key and fields.  The result is the document as `__init__` leaves it,
      with the instance defaults merged into every instance. */
  method CheckDocument(doc: Document) returns (r: Result<Document>)
    ensures forall i :: FirstInvalid(doc.instances, InstanceRequired, i) ==>
      r == Err(InvalidConfiguration(doc.instances[i].0))
    ensures AllValid(doc.instances, InstanceRequired) && doc.instances == [] && doc.defaultInstance.None? ==>
      r == Err(IndexError)
    ensures AllValid(doc.instances, InstanceRequired) && (doc.instances != [] || doc.defaultInstance.Some?) ==>
      && (forall i :: FirstInvalid(doc.records, RecordRequired, i) ==> r == Err(InvalidConfiguration(doc.records[i].0)))
      && (AllValid(doc.records, RecordRequired) ==>
            r == Ok(Document(WithInstanceDefaults(doc.instances), Some(ChosenDefault(doc)), doc.records)))
    ensures r.Ok? <==>
      && AllValid(doc.instances, InstanceRequired) && (doc.instances != [] || doc.defaultInstance.Some?)
      && AllValid(doc.records, RecordRequired)
  {
    var checked, updated, chosen := MergeInstances(doc.instances, doc.defaultInstance);
    if checked.Err? {
      return Err(checked.error);
    }
    if chosen.None? {
      if |updated| == 0 {
        return Err(IndexError);
      }
      chosen := Some(VStr(updated[0].0));
    }
    checked := CheckSections(doc.records, RecordRequired);
    if checked.Err? {
      return Err(checked.error);
    }
    r := Ok(Document(updated, chosen, doc.records));
  }

  /** A loaded and checked configuration. */
  class SNConfig {
    const configFile: Path
    const rootDir: Path
    const instances: Dict<string, Section>
    const defaultInstance: Option<Value>
    const records: Dict<string, Section>

    /** The configuration read from `configFile`; the repository root is
        the directory that holds it. */
    constructor (configFile: Path, doc: Document)
      ensures this.configFile == configFile && rootDir == Dirname(configFile)
      ensures instances == doc.instances && defaultInstance == doc.defaultInstance && records == doc.records
    {
      this.configFile := configFile;
      rootDir := Dirname(configFile);
      instances := doc.instances;
      defaultInstance := doc.defaultInstance;
      records := doc.records;
    }

    /** `get_record_config`: the configuration of a record type, if any. */
    function GetRecordConfig(record: string): (c: Option<Section>)
      ensures c.Some? <==> record in KeySet(records)
      ensures c.Some? ==> (record, c.value) in records
    {
      Get(records, record)
    }
  }

  /** `SNConfig(fileName)`, the name defaulting to "snconfig.yaml": find
      the configuration file from `cwd`, take
      the document `parse` gives for it, and check it.  The repository root
      is the directory the file was found in. */
  method Load(cwd: Path, listdir: Path -> set<string>, parse: Path -> Document, fileName: string := DefaultConfigFileName)
    returns (r: Result<SNConfig>)
    ensures Nearest(cwd, fileName, listdir).None? ==> r == Err(ConfigurationFileNotFound(fileName))
    ensures Nearest(cwd, fileName, listdir).Some? ==>
      var doc := parse(Nearest(cwd, fileName, listdir).value + [fileName]);
      r.Ok? <==>
        && AllValid(doc.instances, InstanceRequired) && (doc.instances != [] || doc.defaultInstance.Some?)
        && AllValid(doc.records, RecordRequired)
    ensures r.Ok? ==>
      && Nearest(cwd, fileName, listdir).Some?
      && r.value.rootDir == Nearest(cwd, fileName, listdir).value
      && r.value.configFile == r.value.rootDir + [fileName]
      && (parse(r.value.configFile).instances != [] || parse(r.value.configFile).defaultInstance.Some?)
      && r.value.instances == WithInstanceDefaults(parse(r.value.configFile).instances)
      && r.value.defaultInstance == Some(ChosenDefault(parse(r.value.configFile)))
      && r.value.records == parse(r.value.configFile).records
  {
    var found := FindConfigFile(cwd, fileName, listdir);
    if found.Err? {
      return Err(found.error);
    }
    var checked := CheckDocument(parse(found.value));
    if checked.Err? {
      return Err(checked.error);
    }
    var config := new SNConfig(found.value, checked.value);
    return Ok(config);
  }
}
