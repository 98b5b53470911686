/**
 * The record cache and change classifier of sn-sync (snsync/cache.py).
 *
 * A record is one Service Now entity whose fields live in local files.  For
 * every instance it tracks, the record keeps the field values last fetched
 * from the remote store (`hash`, `contents`) and a baseline (`prevHash`,
 * `prevContents`) recorded when a divergence was first observed.  Comparing
 * the hash of the local file with those two classifies each field.
 *
 * The MD5 digest, the bytes of local files and same-file identity are
 * parameters: `hash` is any function from text to digest (it is not assumed
 * to be injective), `contents` gives the current text of a local file, and
 * `same` is the platform's `samefile` test.
 */
module Cache {
  import opened Wrappers
  import opened Dicts
  import opened Text

  type Digest = string

  datatype ModStatus = NoChange | Local | Remote | Both

  /** The metadata of one field on one instance. */
  datatype FieldMeta = FieldMeta(
    hash: Digest,
    contents: string,
    prevHash: Option<Digest>,
    prevContents: Option<string>)

  datatype InstanceMeta = InstanceMeta(
    sysId: string,
    updatedOn: string,
    updatedBy: string,
    fields: map<string, FieldMeta>)

  /** Metadata of a record, by instance name; also the cached JSON document. */
  type Meta = map<string, InstanceMeta>

  /** Configuration of a record type: its table, its '/'-separated key field
      names, and the file extension of each field (an ordered dictionary). */
  datatype RecordConfig = RecordConfig(table: string, key: string, fields: Dict<string, string>)

  /** A record as fetched from the remote store. */
  datatype RemoteRecord = RemoteRecord(
    sysId: string,
    sysUpdatedOn: string,
    sysUpdatedBy: string,
    values: map<string, string>)

  /** One entry of the list `compare` returns. */
  datatype Comparison = Comparison(name: string, field: FieldMeta, file: Path, status: ModStatus)

  /** Outcome of checking one scanned file against its record type. */
  datatype Verdict = Accept(key: string, ext: string) | KeyMismatch | UnknownSuffix

  // ---------------------------------------------------------------------
  // The change classifier
  // ---------------------------------------------------------------------

  /**
   * The four-way branch of `compare` for one field.  The source's last branch
   * is an `elif`, so a fifth outcome (nothing appended) is syntactically
   * possible; the first ensures says it never happens.  Each status is then
   * characterised on its own, independently of the order of the branches.
   */
  function Classify(local: Digest, remote: Digest, prev: Option<Digest>): (s: Option<ModStatus>)
    ensures s.Some?
    ensures s == Some(NoChange) <==> local == remote
    ensures s == Some(Remote) <==> local != remote && (prev.None? || prev == Some(local))
    ensures s == Some(Local) <==>
      local != remote && prev.Some? && prev != Some(local) && prev == Some(remote)
    ensures s == Some(Both) <==>
      local != remote && prev.Some? && prev != Some(local) && prev != Some(remote)
  {
    if local == remote then Some(NoChange)
    else if local != remote && (prev.None? || prev == Some(local)) then Some(Remote)
    else if local != remote && prev == Some(remote) then Some(Local)
    else if local != remote && prev != Some(remote) then Some(Both)
    else None
  }

  // ---------------------------------------------------------------------
  // Folding a fetched value into a field, and closing a divergence
  // ---------------------------------------------------------------------

  /**
   * One iteration of the field loop of `update`: `current` is the stored
   * meta of the field (None when the field has none yet), `rhash` and
   * `value` the fetched digest and text.
   */
  function FoldField(current: Option<FieldMeta>, rhash: Digest, value: string): (f: FieldMeta)
    ensures f.hash == rhash && f.contents == value
    // a recorded baseline is never overwritten
    ensures current.Some? && current.value.prevHash.Some? ==>
      f.prevHash == current.value.prevHash && f.prevContents == current.value.prevContents
    // no baseline and a changed hash: the previous value becomes the baseline
    ensures current.Some? && current.value.prevHash.None? && current.value.hash != rhash ==>
      f.prevHash == Some(current.value.hash) && f.prevContents == Some(current.value.contents)
    // no baseline and the same hash: nothing is snapshotted
    ensures current.Some? && current.value.prevHash.None? && current.value.hash == rhash ==>
      f.prevHash == None && f.prevContents == current.value.prevContents
    // a field seen for the first time gets an empty baseline
    ensures current.None? ==> f.prevHash == None && f.prevContents == None
  {
    var chash := if current.Some? then Some(current.value.hash) else None;
    var phash := if current.Some? then current.value.prevHash else None;
    var prev :=
      if phash.None? && chash != Some(rhash) then
        (chash, if current.Some? then Some(current.value.contents) else None)
      else
        (phash, if current.Some? then current.value.prevContents else None);
    FieldMeta(rhash, value, prev.0, prev.1)
  }

  /** Fetching the same value twice stores what fetching it once does. */
  lemma FoldFieldIdempotent(current: Option<FieldMeta>, rhash: Digest, value: string)
    ensures FoldField(Some(FoldField(current, rhash, value)), rhash, value) == FoldField(current, rhash, value)
  {
  }

  /** `update_field_meta` on one field: the current value becomes the baseline. */
  function CloseField(f: FieldMeta): (g: FieldMeta)
    ensures g.hash == f.hash && g.contents == f.contents
    ensures g.prevHash == Some(f.hash) && g.prevContents == Some(f.contents)
  {
    f.(prevHash := Some(f.hash), prevContents := Some(f.contents))
  }

  /** Closing a divergence twice is closing it once. */
  lemma CloseFieldIdempotent(f: FieldMeta)
    ensures CloseField(CloseField(f)) == CloseField(f)
  {
  }

  /** After the divergence is closed a field is either unchanged or changed
      locally only; it can no longer be classified remote or both. */
  lemma CloseFieldSettles(f: FieldMeta, local: Digest)
    ensures Classify(local, CloseField(f).hash, CloseField(f).prevHash)
      == if local == f.hash then Some(NoChange) else Some(Local)
  {
  }

  /**
   * A divergence episode: a field was reconciled at `f`, then the remote side
   * moved to `rhash`.  The baseline stays at the reconciled value, so an
   * unchanged local file classifies as remote, a local edit as both, and a
   * local edit identical to the remote one as no change.
   */
  lemma RemoteChangeAfterClose(f: FieldMeta, rhash: Digest, value: string, local: Digest)
    requires rhash != f.hash
    ensures var g := FoldField(Some(CloseField(f)), rhash, value);
      g.prevHash == Some(f.hash) &&
      Classify(local, g.hash, g.prevHash) ==
        if local == rhash then Some(NoChange)
        else if local == f.hash then Some(Remote)
        else Some(Both)
  {
  }

  /** However many values are fetched after a baseline was recorded, the
      baseline stays the one first recorded. */
  lemma {:induction false} BaselineSurvivesFetches(f: FieldMeta, fetched: seq<string>, hash: string -> Digest)
    requires f.prevHash.Some?
    ensures FoldAll(f, fetched, hash).prevHash == f.prevHash
    ensures FoldAll(f, fetched, hash).prevContents == f.prevContents
    decreases |fetched|
  {
    if fetched != [] {
      BaselineSurvivesFetches(FoldField(Some(f), hash(fetched[0]), fetched[0]), fetched[1..], hash);
    }
  }

  /** A field after a sequence of `update` calls fetching `fetched` in turn. */
  function FoldAll(f: FieldMeta, fetched: seq<string>, hash: string -> Digest): FieldMeta
    decreases |fetched|
  {
    if fetched == [] then f
    else FoldAll(FoldField(Some(f), hash(fetched[0]), fetched[0]), fetched[1..], hash)
  }

  // ---------------------------------------------------------------------
  // Pure pieces of SNRecord
  // ---------------------------------------------------------------------

  /** The stored meta of one field before `update` touches it. */
  function PriorFields(m: Meta, instance: string): map<string, FieldMeta> {
    if instance in m then m[instance].fields else map[]
  }

  function PriorField(m: Meta, instance: string, name: string): Option<FieldMeta> {
    if name in PriorFields(m, instance) then Some(PriorFields(m, instance)[name]) else None
  }

  /** The JSON file a record is saved to and loaded from: the
      `os.path.join` of the cache path, the record type, the key's folders
      and its last segment with ".json" appended.  Join drops empty pieces
      and a '/' inside the record type adds segments of its own. */
  function MetaFile(cachePath: Path, recordType: string, key: string): (p: Path)
    ensures |p| > |cachePath| && p[..|cachePath|] == cachePath
    ensures p[|p| - 1] == Split(key, '/')[|Split(key, '/')| - 1] + ".json"
    ensures PlainName(recordType, key) ==>
      && |p| == |cachePath| + 1 + |Split(key, '/')|
      && p[..|cachePath| + 1] == cachePath + [recordType]
      && p[|cachePath| + 1..|p| - 1] == Split(key, '/')[..|Split(key, '/')| - 1]
  {
    var folders := Split(key, '/');
    cachePath + Pieces(recordType) + NonEmpty(folders[..|folders| - 1]) + [folders[|folders| - 1] + ".json"]
  }

  /** A record type that is one non-empty segment, and a key with no empty
      segment: the names for which join keeps every component as given. */
  predicate PlainName(recordType: string, key: string) {
    && recordType != "" && '/' !in recordType
    && forall i :: 0 <= i < |Split(key, '/')| ==> Split(key, '/')[i] != ""
  }

  /** Two records with plain names never share a cache file. */
  lemma MetaFileInjective(cachePath: Path, t1: string, k1: string, t2: string, k2: string)
    requires PlainName(t1, k1) && PlainName(t2, k2)
    requires MetaFile(cachePath, t1, k1) == MetaFile(cachePath, t2, k2)
    ensures t1 == t2 && k1 == k2
  {
    var p := MetaFile(cachePath, t1, k1);
    assert p[|cachePath|] == t1 && p[|cachePath|] == t2;
    var f1, f2 := Split(k1, '/'), Split(k2, '/');
    var n := |f1|;
    assert |f2| == n;
    assert f1[..n - 1] == p[|cachePath| + 1..|p| - 1] == f2[..n - 1];
    var l1, l2 := f1[n - 1], f2[n - 1];
    assert l1 + ".json" == l2 + ".json";
    assert l1 == (l1 + ".json")[..|l1|];
    assert |l1| == |l2|;
    assert l1 == l2 by {
      assert l2 == (l2 + ".json")[..|l2|];
    }
    assert f1 == f1[..n - 1] + [l1];
    assert f2 == f2[..n - 1] + [l2];
  }

  /** An empty key segment disappears from the cache file's path, so the
      keys "a//b" and "a/b" share a file. */
  lemma EmptySegmentCollides(cachePath: Path)
    ensures MetaFile(cachePath, "t", "a//b") == MetaFile(cachePath, "t", "a/b")
  {
    SplitFree("b", '/');
    SplitPrefix("", "b", '/');
    assert "/b" == "" + ['/'] + "b";
    SplitPrefix("a", "/b", '/');
    assert "a//b" == "a" + ['/'] + "/b";
    SplitPrefix("a", "b", '/');
    assert "a/b" == "a" + ['/'] + "b";
    assert Split("a//b", '/') == ["a", "", "b"];
    assert Split("a/b", '/') == ["a", "b"];
    assert NonEmpty(["a", ""]) == ["a"] by {
      assert ["a", ""][1..] == [""];
    }
    assert Pieces("t") == ["t"];
    var long, short := Split("a//b", '/'), Split("a/b", '/');
    assert long[..|long| - 1] == ["a", ""] && long[|long| - 1] == "b";
    assert short[..|short| - 1] == ["a"] && short[|short| - 1] == "b";
    assert NonEmpty(["a"]) == ["a"];
  }

  /** A '/' in the record type adds a folder, so the type "x/y" with the key
      "z" and the type "x" with the key "y/z" share a file. */
  lemma SlashInTypeCollides(cachePath: Path)
    ensures MetaFile(cachePath, "x/y", "z") == MetaFile(cachePath, "x", "y/z")
  {
    SplitFree("y", '/');
    SplitFree("z", '/');
    SplitPrefix("x", "y", '/');
    assert "x/y" == "x" + ['/'] + "y";
    SplitPrefix("y", "z", '/');
    assert "y/z" == "y" + ['/'] + "z";
    assert Pieces("x/y") == ["x", "y"] by {
      assert Split("x/y", '/') == ["x", "y"];
      assert ["x", "y"][1..] == ["y"];
    }
    assert Split("z", '/') == ["z"];
    assert Split("y/z", '/') == ["y", "z"];
  }

  /** `get_sn_keys`: the key field names of the type paired with the
      '/'-separated segments of the record's key. */
  function SnKeys(keyFields: string, name: string): (q: Dict<string, string>)
    ensures KeySet(q) <= set i | 0 <= i < |Split(keyFields, '/')| :: Split(keyFields, '/')[i]
    ensures Distinct(Split(keyFields, '/')) ==>
      var fs, vs := Split(keyFields, '/'), Split(name, '/');
      |q| == (if |fs| < |vs| then |fs| else |vs|) &&
      forall i :: 0 <= i < |q| ==> q[i] == (fs[i], vs[i])
  {
    var fs, vs := Split(keyFields, '/'), Split(name, '/');
    var pairs := Zip(fs, vs);
    assert KeySet(pairs) <= set i | 0 <= i < |fs| :: fs[i] by {
      forall k | k in KeySet(pairs) ensures k in set i | 0 <= i < |fs| :: fs[i] {
        var i :| 0 <= i < |pairs| && pairs[i].0 == k;
        assert fs[i] == k;
      }
    }
    assert Distinct(fs) ==> DictOf(pairs) == pairs by {
      if Distinct(fs) {
        assert KeysDistinct(pairs) by {
          forall i, j | 0 <= i < j < |pairs| ensures pairs[i].0 != pairs[j].0 {
            assert pairs[i].0 == fs[i] && pairs[j].0 == fs[j];
          }
        }
        DictOfDistinct(pairs);
      }
    }
    DictOf(pairs)
  }

  /** The field of the first configured extension equal to `ext` (the `for`
      loop with `break` in `add_lfile`); None when no extension matches. */
  function FieldForExt(fields: Dict<string, string>, ext: string): (r: Option<string>)
    ensures r.None? <==> ext !in ValueSet(fields)
    ensures r.Some? ==> exists i :: (0 <= i < |fields| && fields[i] == (r.value, ext) &&
                                     forall j :: 0 <= j < i ==> fields[j].1 != ext)
  {
    if fields == [] then None
    else
      assert ValueSet(fields) == {fields[0].1} + ValueSet(fields[1..]) by {
        forall v | v in ValueSet(fields) ensures v in {fields[0].1} + ValueSet(fields[1..]) {
          var i :| 0 <= i < |fields| && fields[i].1 == v;
          if i > 0 { assert fields[1..][i - 1].1 == v; }
        }
        forall v | v in ValueSet(fields[1..]) ensures v in ValueSet(fields) {
          var i :| 0 <= i < |fields[1..]| && fields[1..][i].1 == v;
          assert fields[i + 1].1 == v;
        }
      }
      if fields[0].1 == ext then Some(fields[0].0)
      else
        var r := FieldForExt(fields[1..], ext);
        assert r.Some? ==> exists i :: (0 <= i < |fields| && fields[i] == (r.value, ext) &&
                                        forall j :: 0 <= j < i ==> fields[j].1 != ext)
        by {
          if r.Some? {
            var i :| 0 <= i < |fields[1..]| && fields[1..][i] == (r.value, ext) &&
              forall j :: 0 <= j < i ==> fields[1..][j].1 != ext;
            assert fields[i + 1] == (r.value, ext);
            forall j | 0 <= j < i + 1 ensures fields[j].1 != ext {
              if j > 0 { assert fields[1..][j - 1] == fields[j]; }
            }
          }
        }
        r
  }

  /** The field bound to the first local file that is the same file as `p`
      (`get_file_field`).  A binding whose field is None reads as not found. */
  function FileFieldOf(bindings: Dict<Option<string>, Path>, p: Path, same: (Path, Path) -> bool): (r: Option<string>)
    ensures r.Some? ==> exists i :: 0 <= i < |bindings| && bindings[i].0 == r && same(bindings[i].1, p)
    ensures (forall i :: 0 <= i < |bindings| ==> !same(bindings[i].1, p)) ==> r.None?
  {
    if bindings == [] then None
    else if same(bindings[0].1, p) then bindings[0].0
    else
      var r := FileFieldOf(bindings[1..], p, same);
      assert r.Some? ==> exists i :: 0 <= i < |bindings| && bindings[i].0 == r && same(bindings[i].1, p) by {
        if r.Some? {
          var i :| 0 <= i < |bindings[1..]| && bindings[1..][i].0 == r && same(bindings[1..][i].1, p);
          assert bindings[i + 1] == bindings[1..][i];
        }
      }
      r
  }

  /** `get_file_field` returns at the first binding whose file is the same
      file as `p`: the result is that binding's field. */
  lemma {:induction false} FileFieldOfFirst(bindings: Dict<Option<string>, Path>, p: Path,
                                            same: (Path, Path) -> bool, i: nat)
    requires i < |bindings| && same(bindings[i].1, p)
    requires forall j :: 0 <= j < i ==> !same(bindings[j].1, p)
    ensures FileFieldOf(bindings, p, same) == bindings[i].0
  {
    if i > 0 {
      FileFieldOfFirst(bindings[1..], p, same, i - 1);
    }
  }

  /** Python truthiness of a field name: None and "" are false. */
  predicate Truthy(field: Option<string>) {
    field.Some? && field.value != ""
  }

  /** The dictionary `compare` fills from a non-empty `files` list, after
      the first `|files|` iterations. */
  function CollectFields(bindings: Dict<Option<string>, Path>, files: seq<Path>, same: (Path, Path) -> bool)
    : (checked: Dict<Option<string>, Path>)
    ensures forall i :: 0 <= i < |checked| ==> checked[i] in bindings
    decreases |files|
  {
    if files == [] then []
    else
      var n := |files| - 1;
      var acc := CollectFields(bindings, files[..n], same);
      var field := FileFieldOf(bindings, files[n], same);
      if Truthy(field) then
        var lfile := Get(bindings, field).value;
        var r := Put(acc, field, lfile);
        assert (field, lfile) in bindings;
        r
      else acc
  }

  /** The fields collected for a list of files carry no field twice, so
      `compare` examines each field once. */
  lemma {:induction false} CollectFieldsDistinct(bindings: Dict<Option<string>, Path>, files: seq<Path>,
                                                 same: (Path, Path) -> bool)
    ensures KeysDistinct(CollectFields(bindings, files, same))
    ensures KeysDistinct(bindings) ==> KeysDistinct(CheckedFields(bindings, files, same))
    decreases |files|
  {
    if files != [] {
      var n := |files| - 1;
      CollectFieldsDistinct(bindings, files[..n], same);
      var field := FileFieldOf(bindings, files[n], same);
      if Truthy(field) {
        PutKeepsKeysDistinct(CollectFields(bindings, files[..n], same), field, Get(bindings, field).value);
      }
    }
  }

  /** The fields `compare` examines: every binding when `files` is empty,
      otherwise the truthy fields bound to the given files. */
  function CheckedFields(bindings: Dict<Option<string>, Path>, files: seq<Path>, same: (Path, Path) -> bool)
    : Dict<Option<string>, Path>
  {
    if files == [] then bindings else CollectFields(bindings, files, same)
  }

  /** Restricted to `files`, the examined fields are exactly the truthy
      fields bound to one of those files. */
  lemma {:induction false} CollectFieldsKeys(bindings: Dict<Option<string>, Path>, files: seq<Path>,
                                             same: (Path, Path) -> bool, field: Option<string>)
    ensures field in KeySet(CollectFields(bindings, files, same)) <==>
      Truthy(field) && FieldOfSome(bindings, files, same, field)
    decreases |files|
  {
    if files != [] {
      var n := |files| - 1;
      CollectFieldsKeys(bindings, files[..n], same, field);
      var acc := CollectFields(bindings, files[..n], same);
      var last := FileFieldOf(bindings, files[n], same);
      assert KeySet(CollectFields(bindings, files, same)) == KeySet(acc) + (if Truthy(last) then {last} else {});
      FieldOfSomeSnoc(bindings, files, same, field);
    }
  }

  /** Some file of `files` is bound to `field`. */
  ghost predicate FieldOfSome(bindings: Dict<Option<string>, Path>, files: seq<Path>,
                              same: (Path, Path) -> bool, field: Option<string>) {
    exists i :: 0 <= i < |files| && FileFieldOf(bindings, files[i], same) == field
  }

  lemma FieldOfSomeSnoc(bindings: Dict<Option<string>, Path>, files: seq<Path>,
                        same: (Path, Path) -> bool, field: Option<string>)
    requires files != []
    ensures FieldOfSome(bindings, files, same, field) <==>
      FieldOfSome(bindings, files[..|files| - 1], same, field) ||
      FileFieldOf(bindings, files[|files| - 1], same) == field
  {
    var n := |files| - 1;
    if FieldOfSome(bindings, files[..n], same, field) {
      var i :| 0 <= i < n && FileFieldOf(bindings, files[..n][i], same) == field;
      assert files[..n][i] == files[i];
    }
    if FieldOfSome(bindings, files, same, field) {
      var i :| 0 <= i < |files| && FileFieldOf(bindings, files[i], same) == field;
      if i < n {
        assert files[..n][i] == files[i];
      }
    }
  }

  /** The first `|checked|` iterations of the classification loop of
      `compare`: a missing instance or field meta raises KeyError. */
  function Comparisons(meta: Meta, instance: string, checked: Dict<Option<string>, Path>,
                        hash: string -> Digest, contents: Path -> string): Result<seq<Comparison>>
    decreases |checked|
  {
    if checked == [] then Ok([])
    else
      var n := |checked| - 1;
      var prefix := Comparisons(meta, instance, checked[..n], hash, contents);
      var (name, lfile) := checked[n];
      if prefix.Err? then prefix
      else if name.None? || instance !in meta || name.value !in meta[instance].fields then Err(KeyError)
      else
        var field := meta[instance].fields[name.value];
        var status := Classify(hash(contents(lfile)), field.hash, field.prevHash);
        if status.Some? then Ok(prefix.value + [Comparison(name.value, field, lfile, status.value)])
        else prefix
  }

  /** `compare` yields exactly one entry per examined field, in order, each
      the classification of that field; it fails exactly when some examined
      field has no meta on the instance. */
  lemma {:induction false} ComparisonsShape(meta: Meta, instance: string, checked: Dict<Option<string>, Path>,
                                            hash: string -> Digest, contents: Path -> string)
    ensures var r := Comparisons(meta, instance, checked, hash, contents);
      r.Err? <==> exists i :: 0 <= i < |checked| && !HasMeta(meta, instance, checked[i].0)
    ensures var r := Comparisons(meta, instance, checked, hash, contents);
      r.Ok? ==> (|r.value| == |checked| &&
                 forall i :: 0 <= i < |checked| ==>
                   var field := meta[instance].fields[checked[i].0.value];
                   r.value[i] == Comparison(checked[i].0.value, field, checked[i].1,
                                            Classify(hash(contents(checked[i].1)), field.hash, field.prevHash).value))
    decreases |checked|
  {
    if checked != [] {
      var n := |checked| - 1;
      ComparisonsShape(meta, instance, checked[..n], hash, contents);
      assert forall i :: 0 <= i < n ==> checked[..n][i] == checked[i];
      var prefix := Comparisons(meta, instance, checked[..n], hash, contents);
      if prefix.Err? {
        var i :| 0 <= i < n && !HasMeta(meta, instance, checked[..n][i].0);
        assert !HasMeta(meta, instance, checked[i].0);
      } else if !HasMeta(meta, instance, checked[n].0) {
      } else {
        forall i | 0 <= i < |checked| ensures HasMeta(meta, instance, checked[i].0) {
          if i < n {
            assert HasMeta(meta, instance, checked[..n][i].0);
          }
        }
      }
    }
  }

  predicate HasMeta(meta: Meta, instance: string, name: Option<string>) {
    name.Some? && instance in meta && name.value in meta[instance].fields
  }

  /** How the scan judges one file, given its path relative to the record
      type's directory: its key must have as many segments as the type has
      key fields, and its extension must be one of the fields' extensions. */
  function ScanVerdict(rc: RecordConfig, rel: Path): (v: Verdict)
    ensures var (key, ext) := SplitExt(Join(rel, '/'));
      v.Accept? <==> |Split(key, '/')| == |Split(rc.key, '/')| && ext in ValueSet(rc.fields)
    ensures v.Accept? ==> v.key + v.ext == Join(rel, '/') && FieldForExt(rc.fields, v.ext).Some?
    ensures v.Accept? ==> (v.key, v.ext) == SplitExt(Join(rel, '/'))
    ensures v == KeyMismatch <==> |Split(SplitExt(Join(rel, '/')).0, '/')| != |Split(rc.key, '/')|
  {
    var (key, ext) := SplitExt(Join(rel, '/'));
    if |Split(key, '/')| != |Split(rc.key, '/')| then KeyMismatch
    else if ext in ValueSet(rc.fields) then Accept(key, ext)
    else UnknownSuffix
  }

  // ---------------------------------------------------------------------
  // The new-record flag
  // ---------------------------------------------------------------------

  /** The flag as cache.py:74 computes it from the metadata loaded for the
      record: true when a cached document WAS found. */
  function NewFlagAsWritten(loaded: Option<Meta>): bool {
    loaded.Some?
  }

  /** The flag the comment and the docstring describe: new until metadata
      has been saved, i.e. when no cached document was found. */
  function NewFlag(loaded: Option<Meta>): bool {
    loaded.None?
  }

  /** As written, a record never saved to disk reports that it is not new,
      and a record just reloaded from its saved document reports that it is. */
  lemma NewFlagAsWrittenInverted(m: Meta)
    ensures !NewFlagAsWritten(None) && NewFlagAsWritten(Some(m))
    ensures NewFlagAsWritten(None) != NewFlag(None)
  {
  }

  /** Corrected, the flag is true exactly when the cache holds no document at
      the record's path. */
  lemma NewFlagMeansUnsaved(files: map<Path, Meta>, p: Path)
    ensures NewFlag(if p in files then Some(files[p]) else None) <==> p !in files
  {
  }

  /** The fields of an instance after `update` has folded in the fetched
      values of the configured fields `done`. */
  ghost function FoldedFields(prior: map<string, FieldMeta>, done: set<string>,
                              values: map<string, string>, hash: string -> Digest): map<string, FieldMeta>
  {
    map n | n in prior.Keys + (done * values.Keys) ::
      if n in done && n in values then FoldField(if n in prior then Some(prior[n]) else None, hash(values[n]), values[n])
      else prior[n]
  }

  lemma FoldedFieldsMeaning(prior: map<string, FieldMeta>, done: set<string>,
                            values: map<string, string>, hash: string -> Digest)
    requires done <= values.Keys
    ensures forall n :: n in done ==>
      n in FoldedFields(prior, done, values, hash) &&
      FoldedFields(prior, done, values, hash)[n] ==
        FoldField(if n in prior then Some(prior[n]) else None, hash(values[n]), values[n])
    ensures forall n :: n !in done ==>
      (n in FoldedFields(prior, done, values, hash) <==> n in prior) &&
      (n in prior ==> FoldedFields(prior, done, values, hash)[n] == prior[n])
  {
  }

  lemma FoldedFieldsStep(prior: map<string, FieldMeta>, done: set<string>, n: string,
                         values: map<string, string>, hash: string -> Digest)
    requires n in values
    ensures var before := FoldedFields(prior, done, values, hash);
      FoldedFields(prior, done + {n}, values, hash) ==
        before[n := FoldField(if n in before then Some(before[n]) else None, hash(values[n]), values[n])]
  {
    var v := values[n];
    var p := if n in prior then Some(prior[n]) else None;
    if n in done {
      FoldFieldIdempotent(p, hash(v), v);
    }
  }

  /** The meta `update(instance, remote)` leaves: the instance's entry
      replaced by the fetched system fields and every configured field
      folded in. */
  ghost function UpdatedMeta(m: Meta, instance: string, configured: Dict<string, string>,
                             remote: RemoteRecord, hash: string -> Digest): Meta
  {
    m[instance := InstanceMeta(remote.sysId, remote.sysUpdatedOn, remote.sysUpdatedBy,
      FoldedFields(PriorFields(m, instance), KeySet(configured), remote.values, hash))]
  }

  /** What `update` does to the metadata when it gets through the fields
      `configured`: the instance's system fields are the fetched ones,
      each of those fields is folded with its fetched value, and every
      other field and every other instance keeps its meta. */
  lemma UpdatedMetaMeaning(m: Meta, instance: string, configured: Dict<string, string>,
                           remote: RemoteRecord, hash: string -> Digest)
    requires forall j :: 0 <= j < |configured| ==> configured[j].0 in remote.values
    ensures var u := UpdatedMeta(m, instance, configured, remote, hash);
      && u.Keys == m.Keys + {instance}
      && (forall i :: i in m && i != instance ==> u[i] == m[i])
      && u[instance].sysId == remote.sysId
      && u[instance].updatedOn == remote.sysUpdatedOn
      && u[instance].updatedBy == remote.sysUpdatedBy
      && (forall j :: 0 <= j < |configured| ==>
            var n := configured[j].0;
            PriorField(u, instance, n) ==
              Some(FoldField(PriorField(m, instance, n), hash(remote.values[n]), remote.values[n])))
      && (forall n :: n !in KeySet(configured) ==> PriorField(u, instance, n) == PriorField(m, instance, n))
  {
    var done := KeySet(configured);
    assert done <= remote.values.Keys by {
      forall n | n in done ensures n in remote.values {
        var j :| 0 <= j < |configured| && configured[j].0 == n;
      }
    }
    FoldedFieldsMeaning(PriorFields(m, instance), done, remote.values, hash);
    forall j | 0 <= j < |configured| ensures configured[j].0 in done { }
  }

  /** Whether a fetched record holds every configured field. */
  predicate Complete(config: RecordConfig, remote: RemoteRecord) {
    forall j :: 0 <= j < |config.fields| ==> config.fields[j].0 in remote.values
  }

  /** The position of the first configured field the fetched values lack,
      where the field loop of `update` raises KeyError; the number of
      configured fields when none is missing. */
  function MissingAt(configured: Dict<string, string>, values: map<string, string>): (k: nat)
    ensures k <= |configured|
    ensures forall j :: 0 <= j < k ==> configured[j].0 in values
    ensures k < |configured| ==> configured[k].0 !in values
    decreases |configured|
  {
    if configured == [] || configured[0].0 !in values then 0
    else 1 + MissingAt(configured[1..], values)
  }

  /** The field loop of `update`: the configured fields, in order, are
      folded with their fetched values into the prior field meta, up to
      the first one the fetched record lacks. */
  method FoldConfigured(prior: map<string, FieldMeta>, configured: Dict<string, string>,
                        values: map<string, string>, hash: string -> Digest)
    returns (fields: map<string, FieldMeta>, done: nat)
    ensures done == MissingAt(configured, values)
    ensures fields == FoldedFields(prior, KeySet(configured[..done]), values, hash)
  {
    fields := prior;
    var i := 0;
    while i < |configured|
      invariant 0 <= i <= MissingAt(configured, values)
      invariant fields == FoldedFields(prior, KeySet(configured[..i]), values, hash)
    {
      var n := configured[i].0;
      if n !in values {
        return fields, i;
      }
      var value := values[n];
      var current := if n in fields then Some(fields[n]) else None;
      KeySetPrefix(configured, i);
      FoldedFieldsStep(prior, KeySet(configured[..i]), n, values, hash);
      fields := fields[n := FoldField(current, hash(value), value)];
      i := i + 1;
    }
    return fields, i;
  }

  // ---------------------------------------------------------------------
  // The on-disk cache directory
  // ---------------------------------------------------------------------

  /** The JSON documents under the cache directory, by path. */
  class Disk {
    var files: map<Path, Meta>

    constructor (files: map<Path, Meta>)
      ensures this.files == files
    {
      this.files := files;
    }
  }

  /** The document at `p`, or None when there is no such file. */
  function Stored(files: map<Path, Meta>, p: Path): Option<Meta> {
    if p in files then Some(files[p]) else None
  }

  // ---------------------------------------------------------------------
  // SNRecord
  // ---------------------------------------------------------------------

  class SNRecord {
    const disk: Disk
    const cachePath: Path
    const recordType: string
    const name: string
    const config: RecordConfig
    /** `lfile_field_map`: field name (None when no extension matched) to local file. */
    var bindings: Dict<Option<string>, Path>
    var meta: Meta
    var isNew: bool
    var saved: bool

    constructor (disk: Disk, cachePath: Path, recordType: string, name: string,
                 config: RecordConfig, loaded: Option<Meta>)
      ensures this.disk == disk && this.cachePath == cachePath
      ensures this.recordType == recordType && this.name == name && this.config == config
      ensures bindings == []
      ensures meta == (if loaded.Some? then loaded.value else map[])
      ensures isNew == NewFlag(loaded) && !saved
    {
      this.disk := disk;
      this.cachePath := cachePath;
      this.recordType := recordType;
      this.name := name;
      this.config := config;
      bindings := [];
      meta := if loaded.Some? then loaded.value else map[];
      isNew := NewFlag(loaded);
      saved := false;
    }

    function Table(): string {
      config.table
    }

    /** The file this record is saved to (`file`). */
    function File(): Path {
      MetaFile(cachePath, recordType, name)
    }

    /** The lookup predicate sent to the remote store (`get_sn_keys`). */
    function GetSnKeys(): Dict<string, string> {
      SnKeys(config.key, name)
    }

    /** `get_sn_field`: the meta of a field, None when the instance or the
        field has none. */
    function GetSnField(instance: string, field: string): (r: Option<FieldMeta>)
      reads this
      ensures r.Some? <==> instance in meta && field in meta[instance].fields
      ensures r.Some? ==> r.value == meta[instance].fields[field]
    {
      if instance in meta && field in meta[instance].fields then Some(meta[instance].fields[field]) else None
    }

    /** `add_lfile`: bind `file` to the first field whose extension is `ext`. */
    method AddLFile(file: Path, ext: string)
      modifies this`bindings
      ensures bindings == Put(old(bindings), FieldForExt(config.fields, ext), file)
    {
      var field: Option<string> := None;
      var i := 0;
      while i < |config.fields|
        invariant 0 <= i <= |config.fields|
        invariant field.None? ==> FieldForExt(config.fields, ext) == FieldForExt(config.fields[i..], ext)
        invariant field.Some? ==> FieldForExt(config.fields, ext) == field
      {
        var (fname, fext) := config.fields[i];
        if fext == ext {
          field := Some(fname);
          break;
        }
        assert config.fields[i..][1..] == config.fields[i + 1..];
        i := i + 1;
      }
      bindings := Put(bindings, field, file);
    }

    /** `get_file_field` */
    method GetFileField(file: Path, same: (Path, Path) -> bool) returns (field: Option<string>)
      ensures field == FileFieldOf(bindings, file, same)
    {
      var i := 0;
      while i < |bindings|
        invariant 0 <= i <= |bindings|
        invariant FileFieldOf(bindings, file, same) == FileFieldOf(bindings[i..], file, same)
      {
        if same(bindings[i].1, file) {
          return bindings[i].0;
        }
        assert bindings[i..][1..] == bindings[i + 1..];
        i := i + 1;
      }
      return None;
    }

    /** `contains_file` */
    method ContainsFile(file: Path, same: (Path, Path) -> bool) returns (b: bool)
      ensures b <==> FileFieldOf(bindings, file, same).Some?
    {
      var field := GetFileField(file, same);
      b := field.Some?;
    }

    /** `update`: fold a freshly fetched remote record into the meta of
        `instance`.  The system fields are copied first; a configured field
        the fetched record lacks raises KeyError, after the fields before
        it have been folded in. */
    method Update(instance: string, remote: RemoteRecord, hash: string -> Digest) returns (r: Result<()>)
      modifies this`meta
      ensures r.Ok? <==> Complete(config, remote)
      ensures r.Err? ==> r == Err(KeyError)
      ensures meta == UpdatedMeta(old(meta), instance, config.fields[..MissingAt(config.fields, remote.values)], remote, hash)
    {
      var prior := PriorFields(meta, instance);
      var fields, done := FoldConfigured(prior, config.fields, remote.values, hash);
      meta := meta[instance := InstanceMeta(remote.sysId, remote.sysUpdatedOn, remote.sysUpdatedBy, fields)];
      r := if done == |config.fields| then Ok(()) else Err(KeyError);
    }

    /** `update_field_meta`: close the divergence of one field.  A missing
        instance or field raises KeyError (ok is false) and changes nothing. */
    method UpdateFieldMeta(instance: string, field: string) returns (ok: bool)
      modifies this`meta
      ensures ok <==> instance in old(meta) && field in old(meta)[instance].fields
      ensures ok ==> meta == old(meta)[instance := old(meta)[instance].(
        fields := old(meta)[instance].fields[field := CloseField(old(meta)[instance].fields[field])])]
      ensures !ok ==> meta == old(meta)
    {
      if instance !in meta || field !in meta[instance].fields {
        return false;
      }
      var f := meta[instance].fields[field];
      meta := meta[instance := meta[instance].(fields := meta[instance].fields[field := CloseField(f)])];
      return true;
    }

    /** `save`: write the meta as the JSON document at `File()`. */
    method Save()
      modifies disk, this`saved
      ensures disk.files == old(disk.files)[File() := meta]
      ensures saved
    {
      disk.files := disk.files[File() := meta];
      saved := true;
    }

    /** The loop of `compare` that gathers the fields bound to `files`,
        each at most once, in the order the files name them. */
    method CollectCheckedFields(files: seq<Path>, same: (Path, Path) -> bool)
      returns (checked: Dict<Option<string>, Path>)
      ensures checked == CollectFields(bindings, files, same)
    {
      checked := [];
      var i := 0;
      while i < |files|
        invariant 0 <= i <= |files|
        invariant checked == CollectFields(bindings, files[..i], same)
      {
        var field := GetFileField(files[i], same);
        assert files[..i + 1][..i] == files[..i];
        if field.Some? && field.value != "" {
          var lfile := Get(bindings, field).value;
          checked := Put(checked, field, lfile);
        }
        i := i + 1;
      }
      assert files[..i] == files;
    }

    /** `compare`: classify every examined field of `instance`. */
    method Compare(instance: string, files: seq<Path>,
                   hash: string -> Digest, contents: Path -> string, same: (Path, Path) -> bool)
      returns (r: Result<seq<Comparison>>)
      ensures r == Comparisons(meta, instance, CheckedFields(bindings, files, same), hash, contents)
    {
      var checked: Dict<Option<string>, Path>;
      if |files| > 0 {
        checked := CollectCheckedFields(files, same);
      } else {
        checked := bindings;
      }
      r := ClassifyFields(meta, instance, checked, hash, contents);
    }
  }

  /** The loop of `compare` that classifies the examined fields in order,
      failing with `KeyError` on the first one without metadata. */
  method ClassifyFields(meta: Meta, instance: string, checked: Dict<Option<string>, Path>,
                        hash: string -> Digest, contents: Path -> string)
    returns (r: Result<seq<Comparison>>)
    ensures r == Comparisons(meta, instance, checked, hash, contents)
  {
    var comparison: seq<Comparison> := [];
    var j := 0;
    while j < |checked|
      invariant 0 <= j <= |checked|
      invariant Comparisons(meta, instance, checked[..j], hash, contents) == Ok(comparison)
    {
      var (name, lfile) := checked[j];
      assert checked[..j + 1][..j] == checked[..j];
      if name.None? || instance !in meta || name.value !in meta[instance].fields {
        ComparisonsErrExtends(meta, instance, checked, j + 1, hash, contents);
        return Err(KeyError);
      }
      var field := meta[instance].fields[name.value];
      var status := Classify(hash(contents(lfile)), field.hash, field.prevHash);
      if status.Some? {
        comparison := comparison + [Comparison(name.value, field, lfile, status.value)];
      }
      j := j + 1;
    }
    assert checked[..j] == checked;
    return Ok(comparison);
  }

  /** Once a prefix of the examined fields fails, the whole comparison fails. */
  lemma {:induction false} ComparisonsErrExtends(meta: Meta, instance: string, checked: Dict<Option<string>, Path>,
                                                 k: nat, hash: string -> Digest, contents: Path -> string)
    requires k <= |checked|
    requires Comparisons(meta, instance, checked[..k], hash, contents).Err?
    ensures Comparisons(meta, instance, checked, hash, contents) == Err(KeyError)
    decreases |checked| - k
  {
    if k == |checked| {
      assert checked[..k] == checked;
      ComparisonsErrIsKeyError(meta, instance, checked, hash, contents);
    } else {
      assert checked[..k + 1][..k] == checked[..k];
      ComparisonsErrExtends(meta, instance, checked, k + 1, hash, contents);
    }
  }

  lemma {:induction false} ComparisonsErrIsKeyError(meta: Meta, instance: string, checked: Dict<Option<string>, Path>,
                                                    hash: string -> Digest, contents: Path -> string)
    ensures Comparisons(meta, instance, checked, hash, contents).Err? ==>
      Comparisons(meta, instance, checked, hash, contents) == Err(KeyError)
    decreases |checked|
  {
    if checked != [] {
      ComparisonsErrIsKeyError(meta, instance, checked[..|checked| - 1], hash, contents);
    }
  }

  // ---------------------------------------------------------------------
  // The cache as a value
  // ---------------------------------------------------------------------

  /** The state of one record. */
  datatype RecordView = RecordView(bindings: Dict<Option<string>, Path>, meta: Meta, isNew: bool, saved: bool)

  /** The records of a cache by (record type, key). */
  type CacheView = map<(string, string), RecordView>

  /** A record `load_record` has just created: nothing bound yet, and the
      document at its cache file as metadata when there is one. */
  function Loaded(files: map<Path, Meta>, cachePath: Path, rtype: string, key: string): (r: RecordView)
    ensures r.bindings == [] && !r.saved
    ensures r.isNew <==> MetaFile(cachePath, rtype, key) !in files
    ensures MetaFile(cachePath, rtype, key) in files ==> r.meta == files[MetaFile(cachePath, rtype, key)]
    ensures MetaFile(cachePath, rtype, key) !in files ==> r.meta == map[]
  {
    var loaded := Stored(files, MetaFile(cachePath, rtype, key));
    RecordView([], if loaded.Some? then loaded.value else map[], NewFlag(loaded), false)
  }

  /** A saved record reloads with the metadata it was saved with, and no
      longer counts as new. */
  lemma SaveThenLoad(files: map<Path, Meta>, cachePath: Path, rtype: string, key: string, m: Meta)
    ensures var r := Loaded(files[MetaFile(cachePath, rtype, key) := m], cachePath, rtype, key);
      r.meta == m && !r.isNew
  {
  }

  /** With the flag as cache.py:74 computes it, that reloaded record would
      report new. */
  lemma SaveThenLoadAsWritten(files: map<Path, Meta>, cachePath: Path, rtype: string, key: string, m: Meta)
    ensures NewFlagAsWritten(Stored(files[MetaFile(cachePath, rtype, key) := m], MetaFile(cachePath, rtype, key)))
  {
  }

  /** The effect of `scan_file` on the records of the cache, for the file at
      `rel` under the directory of record type `rtype`. */
  function FileScanned(v: CacheView, files: map<Path, Meta>, root: Path,
                       configs: Dict<string, RecordConfig>, rtype: string, rel: Path): CacheView
  {
    match Get(configs, rtype)
    case None => v
    case Some(rc) =>
      match ScanVerdict(rc, rel)
      case Accept(key, ext) =>
        var r := if (rtype, key) in v then v[(rtype, key)] else Loaded(files, root + [".sncache"], rtype, key);
        v[(rtype, key) := r.(bindings := Put(r.bindings, FieldForExt(rc.fields, ext), root + [rtype] + rel))]
      case _ => v
  }

  /** The files a scan visits, in order: for each record type, the files
      listed under its directory. */
  function Listed(types: seq<string>, listing: string -> seq<Path>): (ops: seq<(string, Path)>)
    ensures forall i :: 0 <= i < |ops| ==> ops[i].0 in types
  {
    if types == [] then []
    else
      var n := |types| - 1;
      Listed(types[..n], listing) + Tagged(types[n], listing(types[n]))
  }

  function Tagged(rtype: string, rels: seq<Path>): (ops: seq<(string, Path)>)
    ensures |ops| == |rels|
    ensures forall i :: 0 <= i < |rels| ==> ops[i] == (rtype, rels[i])
  {
    seq(|rels|, i requires 0 <= i < |rels| => (rtype, rels[i]))
  }

  /** The effect of scanning the files `ops`, one after the other. */
  function Scanned(v: CacheView, files: map<Path, Meta>, root: Path,
                   configs: Dict<string, RecordConfig>, ops: seq<(string, Path)>): CacheView
  {
    if ops == [] then v
    else
      var n := |ops| - 1;
      FileScanned(Scanned(v, files, root, configs, ops[..n]), files, root, configs, ops[n].0, ops[n].1)
  }

  lemma Overwrite<K, V>(m: map<K, V>, k: K, x: V, y: V)
    ensures m[k := x][k := y] == m[k := y]
  {
    assert m[k := x][k := y].Keys == m[k := y].Keys;
  }

  lemma ScannedSnoc(v: CacheView, files: map<Path, Meta>, root: Path, configs: Dict<string, RecordConfig>,
                    ops: seq<(string, Path)>, rtype: string, rel: Path)
    ensures Scanned(v, files, root, configs, ops + [(rtype, rel)]) ==
            FileScanned(Scanned(v, files, root, configs, ops), files, root, configs, rtype, rel)
  {
    assert (ops + [(rtype, rel)])[..|ops|] == ops;
  }

  lemma ListedSnoc(types: seq<string>, i: nat, listing: string -> seq<Path>)
    requires i < |types|
    ensures Listed(types[..i + 1], listing) == Listed(types[..i], listing) + Tagged(types[i], listing(types[i]))
  {
    assert types[..i + 1][..i] == types[..i];
  }

  lemma TaggedSnoc(rtype: string, rels: seq<Path>, j: nat)
    requires j < |rels|
    ensures Tagged(rtype, rels[..j + 1]) == Tagged(rtype, rels[..j]) + [(rtype, rels[j])]
  {
  }

  /** An accepted file binds the field of its extension on its record,
      loading the record first when it is not in memory. */
  lemma FileScannedAccept(v: CacheView, files: map<Path, Meta>, root: Path,
                          configs: Dict<string, RecordConfig>, rtype: string, rel: Path, rc: RecordConfig)
    requires Get(configs, rtype) == Some(rc) && ScanVerdict(rc, rel).Accept?
    ensures var p := (rtype, ScanVerdict(rc, rel).key);
      var r := Initial(v, files, root, p);
      FileScanned(v, files, root, configs, rtype, rel) ==
        v[p := r.(bindings := Put(r.bindings, FieldForExt(rc.fields, ScanVerdict(rc, rel).ext), root + [rtype] + rel))]
  {
  }

  /** A file whose key or extension does not fit changes nothing. */
  lemma FileScannedSkipped(v: CacheView, files: map<Path, Meta>, root: Path,
                           configs: Dict<string, RecordConfig>, rtype: string, rel: Path, rc: RecordConfig)
    requires Get(configs, rtype) == Some(rc) && !ScanVerdict(rc, rel).Accept?
    ensures FileScanned(v, files, root, configs, rtype, rel) == v
  {
  }

  /** The (field, file) binding that scanning `rel` under `rtype` makes on
      record `p`: none, or one. */
  function BindsOf(root: Path, configs: Dict<string, RecordConfig>, rtype: string, rel: Path,
                   p: (string, string)): seq<(Option<string>, Path)>
  {
    match Get(configs, rtype)
    case None => []
    case Some(rc) =>
      match ScanVerdict(rc, rel)
      case Accept(key, ext) =>
        if (rtype, key) == p then [(FieldForExt(rc.fields, ext), root + [rtype] + rel)] else []
      case _ => []
  }

  /** The bindings the scanned files `ops` make on record `p`, in order. */
  function BindsFor(root: Path, configs: Dict<string, RecordConfig>, ops: seq<(string, Path)>,
                    p: (string, string)): seq<(Option<string>, Path)>
  {
    if ops == [] then []
    else
      var n := |ops| - 1;
      BindsFor(root, configs, ops[..n], p) + BindsOf(root, configs, ops[n].0, ops[n].1, p)
  }

  /** Record `p` as it stood before the scan, or as `load_record` creates it. */
  function Initial(v: CacheView, files: map<Path, Meta>, root: Path, p: (string, string)): RecordView {
    if p in v then v[p] else Loaded(files, root + [".sncache"], p.0, p.1)
  }

  /** One scanned file registers the record it belongs to, if it is accepted,
      and binds one of that record's fields; every other record is untouched. */
  lemma FileScannedAt(v: CacheView, files: map<Path, Meta>, root: Path,
                      configs: Dict<string, RecordConfig>, rtype: string, rel: Path, p: (string, string))
    ensures var w := FileScanned(v, files, root, configs, rtype, rel);
      p in w <==> p in v || BindsOf(root, configs, rtype, rel, p) != []
    ensures var w := FileScanned(v, files, root, configs, rtype, rel);
      var r := Initial(v, files, root, p);
      p in w ==> w[p] == r.(bindings := PutAll(r.bindings, BindsOf(root, configs, rtype, rel, p)))
  {
    var b := BindsOf(root, configs, rtype, rel, p);
    if b != [] {
      var r := Initial(v, files, root, p);
      assert PutAll(r.bindings, b) == Put(r.bindings, b[0].0, b[0].1) by {
        assert b[..0] == [];
      }
    }
  }

  /** A scan registers exactly the records some accepted file belongs to,
      and binds each one's fields in file order on top of what it held. */
  lemma {:induction false} ScannedAt(v: CacheView, files: map<Path, Meta>, root: Path,
                                     configs: Dict<string, RecordConfig>, ops: seq<(string, Path)>,
                                     p: (string, string))
    ensures var w := Scanned(v, files, root, configs, ops);
      p in w <==> p in v || BindsFor(root, configs, ops, p) != []
    ensures var w := Scanned(v, files, root, configs, ops);
      var r := Initial(v, files, root, p);
      p in w ==> w[p] == r.(bindings := PutAll(r.bindings, BindsFor(root, configs, ops, p)))
  {
    if ops != [] {
      var n := |ops| - 1;
      ScannedAt(v, files, root, configs, ops[..n], p);
      var w := Scanned(v, files, root, configs, ops[..n]);
      FileScannedAt(w, files, root, configs, ops[n].0, ops[n].1, p);
      var r := Initial(v, files, root, p);
      PutAllAppend(r.bindings, BindsFor(root, configs, ops[..n], p), BindsOf(root, configs, ops[n].0, ops[n].1, p));
    }
  }

  /** Scanning the same files a second time changes nothing: no record is
      added and no binding moves. */
  lemma RescanChangesNothing(v: CacheView, files: map<Path, Meta>, root: Path,
                             configs: Dict<string, RecordConfig>, ops: seq<(string, Path)>)
    requires forall p :: p in v ==> KeysDistinct(v[p].bindings)
    ensures Scanned(Scanned(v, files, root, configs, ops), files, root, configs, ops) ==
            Scanned(v, files, root, configs, ops)
  {
    var w := Scanned(v, files, root, configs, ops);
    var w2 := Scanned(w, files, root, configs, ops);
    forall p ensures (p in w2 <==> p in w) && (p in w ==> w2[p] == w[p]) {
      ScannedAt(v, files, root, configs, ops, p);
      ScannedAt(w, files, root, configs, ops, p);
      if p in w {
        var r := Initial(v, files, root, p);
        PutAllIdempotent(r.bindings, BindsFor(root, configs, ops, p));
      }
    }
  }

  // ---------------------------------------------------------------------
  // SNCache
  // ---------------------------------------------------------------------

  /** The record at `records[t][k]`, if any. */
  function LookupIn<V>(records: Dict<string, Dict<string, V>>, t: string, k: string): Option<V> {
    match Get(records, t)
    case None => None
    case Some(inner) => Get(inner, k)
  }

  /** Storing a record under an existing type changes no other lookup. */
  lemma LookupAfterStore<V>(records: Dict<string, Dict<string, V>>, t: string, k: string, r: V)
    requires Get(records, t).Some?
    ensures forall t', k' :: (LookupIn(Put(records, t, Put(Get(records, t).value, k, r)), t', k') ==
      if (t', k') == (t, k) then Some(r) else LookupIn(records, t', k'))
  {
    var inner := Get(records, t).value;
    forall t', k' ensures LookupIn(Put(records, t, Put(inner, k, r)), t', k') ==
      if (t', k') == (t, k) then Some(r) else LookupIn(records, t', k')
    {
      PutGet(records, t, Put(inner, k, r), t');
      PutGet(inner, k, r, k');
    }
  }

  lemma LookupAfterNewType<V>(records: Dict<string, Dict<string, V>>, t: string)
    requires t !in KeySet(records)
    ensures forall t', k' :: LookupIn(Put(records, t, []), t', k') == LookupIn(records, t', k')
  {
    forall t', k' ensures LookupIn(Put(records, t, []), t', k') == LookupIn(records, t', k') {
      PutGet(records, t, [], t');
    }
  }

  /** `records` holds exactly the records of `views`. */
  ghost predicate Indexes<V>(records: Dict<string, Dict<string, V>>, views: map<(string, string), V>) {
    forall t, k :: LookupIn(records, t, k) == if (t, k) in views then Some(views[(t, k)]) else None
  }

  lemma IndexesStore<V>(records: Dict<string, Dict<string, V>>, views: map<(string, string), V>,
                        t: string, k: string, r: V)
    requires Indexes(records, views) && Get(records, t).Some?
    ensures Indexes(Put(records, t, Put(Get(records, t).value, k, r)), views[(t, k) := r])
  {
    LookupAfterStore(records, t, k, r);
  }

  lemma IndexesNewType<V>(records: Dict<string, Dict<string, V>>, views: map<(string, string), V>, t: string)
    requires Indexes(records, views) && t !in KeySet(records)
    ensures Indexes(Put(records, t, []), views)
  {
    LookupAfterNewType(records, t);
  }

  /** The record types `scan` visits: the ones asked for, else every
      configured type in configuration order. */
  function ScanTypes(recordTypes: Option<seq<string>>, configs: Dict<string, RecordConfig>): seq<string> {
    if recordTypes.Some? then recordTypes.value else Keys(configs)
  }

  /** Some record type among `types` has no configuration but has files:
      `scan_file` then subscripts None and raises TypeError. */
  ghost predicate Unconfigured(types: seq<string>, configs: Dict<string, RecordConfig>, listing: string -> seq<Path>) {
    exists i :: 0 <= i < |types| && Get(configs, types[i]).None? && listing(types[i]) != []
  }

  lemma UnconfiguredSnoc(types: seq<string>, i: nat, configs: Dict<string, RecordConfig>,
                         listing: string -> seq<Path>)
    requires i < |types|
    ensures Unconfigured(types[..i + 1], configs, listing) <==>
      Unconfigured(types[..i], configs, listing) || (Get(configs, types[i]).None? && listing(types[i]) != [])
  {
    var done, upto := types[..i], types[..i + 1];
    if Unconfigured(upto, configs, listing) {
      var k :| 0 <= k < |upto| && Get(configs, upto[k]).None? && listing(upto[k]) != [];
      if k < i {
        assert upto[k] == done[k];
      }
    }
    if Unconfigured(done, configs, listing) {
      var k :| 0 <= k < |done| && Get(configs, done[k]).None? && listing(done[k]) != [];
      assert upto[k] == done[k];
    }
    assert upto[i] == types[i];
  }

  lemma UnconfiguredPrefix(types: seq<string>, i: nat, configs: Dict<string, RecordConfig>,
                           listing: string -> seq<Path>)
    requires i <= |types| && Unconfigured(types[..i], configs, listing)
    ensures Unconfigured(types, configs, listing)
  {
    var done := types[..i];
    var k :| 0 <= k < |done| && Get(configs, done[k]).None? && listing(done[k]) != [];
    assert done[k] == types[k];
  }

  /** Scanning `a` and then `b` is scanning `a + b`. */
  lemma {:induction false} ScannedAppend(v: CacheView, files: map<Path, Meta>, root: Path,
                                         configs: Dict<string, RecordConfig>, a: seq<(string, Path)>,
                                         b: seq<(string, Path)>)
    ensures Scanned(Scanned(v, files, root, configs, a), files, root, configs, b) ==
            Scanned(v, files, root, configs, a + b)
    decreases |b|
  {
    if b != [] {
      var n := |b| - 1;
      ScannedAppend(v, files, root, configs, a, b[..n]);
      assert b == b[..n] + [b[n]];
      assert a + b == (a + b[..n]) + [b[n]];
      ScannedSnoc(Scanned(v, files, root, configs, a), files, root, configs, b[..n], b[n].0, b[n].1);
      ScannedSnoc(v, files, root, configs, a + b[..n], b[n].0, b[n].1);
    } else {
      assert a + b == a;
    }
  }

  /** Every record of the cache, type by type, key by key. */
  function Flat(records: Dict<string, Dict<string, RecordView>>): (rs: seq<RecordView>) {
    if records == [] then []
    else
      var n := |records| - 1;
      Flat(records[..n]) + Values(records[n].1)
  }

  lemma FlatSnoc(records: Dict<string, Dict<string, RecordView>>, i: nat)
    requires i < |records|
    ensures Flat(records[..i + 1]) == Flat(records[..i]) + Values(records[i].1)
  {
    assert records[..i + 1][..i] == records[..i];
  }

  /** `not files or any(record.contains_file(file) for file in files)` */
  predicate Wanted(r: RecordView, files: seq<Path>, same: (Path, Path) -> bool) {
    files == [] || exists i :: 0 <= i < |files| && FileFieldOf(r.bindings, files[i], same).Some?
  }

  function Selected(rs: seq<RecordView>, files: seq<Path>, same: (Path, Path) -> bool): (out: seq<RecordView>) {
    if rs == [] then []
    else
      var n := |rs| - 1;
      Selected(rs[..n], files, same) + if Wanted(rs[n], files, same) then [rs[n]] else []
  }

  /** `get_records` keeps exactly the wanted records, in order. */
  lemma {:induction false} SelectedMembers(rs: seq<RecordView>, files: seq<Path>, same: (Path, Path) -> bool,
                                           r: RecordView)
    ensures r in Selected(rs, files, same) <==> r in rs && Wanted(r, files, same)
  {
    if rs != [] {
      var n := |rs| - 1;
      SelectedMembers(rs[..n], files, same, r);
      assert rs == rs[..n] + [rs[n]];
    }
  }

  /** Without a filter, `get_records` returns every record in order. */
  lemma {:induction false} SelectedAll(rs: seq<RecordView>, same: (Path, Path) -> bool)
    ensures Selected(rs, [], same) == rs
  {
    if rs != [] {
      var n := |rs| - 1;
      SelectedAll(rs[..n], same);
      assert rs == rs[..n] + [rs[n]];
    }
  }

  /** The record types of a list. */
  function Members(s: seq<string>): set<string> {
    set t | t in s
  }

  lemma MembersSnoc(s: seq<string>, i: nat)
    requires i < |s|
    ensures Members(s[..i + 1]) == Members(s[..i]) + {s[i]}
  {
    assert s[..i + 1] == s[..i] + [s[i]];
  }

  lemma SelectedSnoc(rs: seq<RecordView>, r: RecordView, files: seq<Path>, same: (Path, Path) -> bool)
    ensures Selected(rs + [r], files, same) ==
            Selected(rs, files, same) + if Wanted(r, files, same) then [r] else []
  {
    assert (rs + [r])[..|rs|] == rs;
  }

  lemma {:induction false} SelectedAppend(a: seq<RecordView>, b: seq<RecordView>, files: seq<Path>,
                                          same: (Path, Path) -> bool)
    ensures Selected(a + b, files, same) == Selected(a, files, same) + Selected(b, files, same)
    decreases |b|
  {
    if b == [] {
      assert a + b == a;
    } else {
      var n := |b| - 1;
      SelectedAppend(a, b[..n], files, same);
      assert b == b[..n] + [b[n]];
      assert a + b == (a + b[..n]) + [b[n]];
      SelectedSnoc(b[..n], b[n], files, same);
      SelectedSnoc(a + b[..n], b[n], files, same);
    }
  }

  /** The inner loop of `get_records`, over the records of one type. */
  method SelectFrom(values: seq<RecordView>, files: seq<Path>, same: (Path, Path) -> bool)
    returns (rs: seq<RecordView>)
    ensures rs == Selected(values, files, same)
  {
    rs := [];
    var j := 0;
    while j < |values|
      invariant 0 <= j <= |values|
      invariant rs == Selected(values[..j], files, same)
    {
      var wanted := files == [];
      if !wanted {
        wanted := AnyContains(values[j], files, same);
      }
      if wanted {
        rs := rs + [values[j]];
      }
      assert values[..j + 1] == values[..j] + [values[j]];
      SelectedSnoc(values[..j], values[j], files, same);
      j := j + 1;
    }
    assert values[..j] == values;
  }

  /** `any(record.contains_file(file) for file in files)` */
  method AnyContains(r: RecordView, files: seq<Path>, same: (Path, Path) -> bool) returns (b: bool)
    ensures b <==> exists i :: 0 <= i < |files| && FileFieldOf(r.bindings, files[i], same).Some?
  {
    var i := 0;
    while i < |files|
      invariant 0 <= i <= |files|
      invariant forall k :: 0 <= k < i ==> FileFieldOf(r.bindings, files[k], same).None?
    {
      if FileFieldOf(r.bindings, files[i], same).Some? {
        return true;
      }
      i := i + 1;
    }
    return false;
  }

  class SNCache {
    const root: Path
    /** The validated `records` section of the configuration. */
    const recordConfigs: Dict<string, RecordConfig>
    const disk: Disk
    /** Records by type, then by key. */
    var records: Dict<string, Dict<string, RecordView>>
    /** The same records by (type, key). */
    ghost var views: CacheView

    constructor (root: Path, recordConfigs: Dict<string, RecordConfig>, disk: Disk)
      ensures this.root == root && this.recordConfigs == recordConfigs && this.disk == disk
      ensures records == [] && views == map[] && Valid()
    {
      this.root := root;
      this.recordConfigs := recordConfigs;
      this.disk := disk;
      records := [];
      views := map[];
    }

    /** The cache directory (`path`). */
    function CachePath(): Path {
      root + [".sncache"]
    }

    ghost predicate Valid()
      reads this
    {
      Indexes(records, views)
    }

    /** `self.records[record_type][key] = record` */
    method Store(rtype: string, key: string, r: RecordView)
      requires Valid() && rtype in KeySet(records)
      modifies this
      ensures Valid()
      ensures records == Put(old(records), rtype, Put(Get(old(records), rtype).value, key, r))
      ensures KeySet(records) == KeySet(old(records))
      ensures views == old(views)[(rtype, key) := r]
    {
      IndexesStore(records, views, rtype, key, r);
      records := Put(records, rtype, Put(Get(records, rtype).value, key, r));
      views := views[(rtype, key) := r];
    }

    /** `load_record`: the record already in memory, else a new one built
        from the cache file and registered under an already scanned type.
        An unscanned type raises KeyError when the new record is registered. */
    method LoadRecord(rtype: string, key: string) returns (r: Result<RecordView>)
      requires Valid()
      modifies this
      ensures Valid() && KeySet(records) == KeySet(old(records))
      ensures (rtype, key) in old(views) ==>
        r == Ok(old(views)[(rtype, key)]) && records == old(records) && views == old(views)
      ensures (rtype, key) !in old(views) && rtype !in KeySet(old(records)) ==>
        r == Err(KeyError) && records == old(records) && views == old(views)
      ensures (rtype, key) !in old(views) && rtype in KeySet(old(records)) ==>
        r == Ok(Loaded(disk.files, CachePath(), rtype, key)) && views == old(views)[(rtype, key) := r.value]
    {
      var inner := Get(records, rtype);
      assert LookupIn(records, rtype, key) == if (rtype, key) in views then Some(views[(rtype, key)]) else None;
      if inner.Some? {
        var existing := Get(inner.value, key);
        if existing.Some? {
          return Ok(existing.value);
        }
      }
      if inner.None? {
        return Err(KeyError);
      }
      var loaded := Stored(disk.files, MetaFile(CachePath(), rtype, key));
      var rec := RecordView([], if loaded.Some? then loaded.value else map[], NewFlag(loaded), false);
      Store(rtype, key, rec);
      return Ok(rec);
    }

    /** `scan_file` for the file at `rel` under the directory of `rtype`,
        with `rconfig` the type's configuration: a file whose key or
        extension does not fit is skipped, any other is bound to its record.
        A type without configuration raises TypeError. */
    method ScanFile(rconfig: Option<RecordConfig>, rtype: string, rel: Path) returns (r: Result<()>)
      requires Valid() && rtype in KeySet(records)
      requires rconfig == Get(recordConfigs, rtype)
      modifies this
      ensures Valid() && KeySet(records) == KeySet(old(records))
      ensures r.Err? <==> rconfig.None?
      ensures r.Err? ==> r == Err(TypeError) && views == old(views)
      ensures r.Ok? ==> views == FileScanned(old(views), disk.files, root, recordConfigs, rtype, rel)
    {
      if rconfig.None? {
        return Err(TypeError);
      }
      var rc := rconfig.value;
      var verdict := ScanVerdict(rc, rel);
      if verdict.Accept? {
        FileScannedAccept(views, disk.files, root, recordConfigs, rtype, rel, rc);
        BindFile(rc, rtype, rel, verdict.key, verdict.ext);
      } else {
        FileScannedSkipped(views, disk.files, root, recordConfigs, rtype, rel, rc);
      }
      return Ok(());
    }

    /** The accepted branch of `scan_file`: load the record, then bind the
        file to the field of its extension. */
    method BindFile(rc: RecordConfig, rtype: string, rel: Path, key: string, ext: string)
      requires Valid() && rtype in KeySet(records)
      modifies this
      ensures Valid() && KeySet(records) == KeySet(old(records))
      ensures var r := Initial(old(views), disk.files, root, (rtype, key));
        views == old(views)[(rtype, key) := r.(bindings := Put(r.bindings, FieldForExt(rc.fields, ext), root + [rtype] + rel))]
    {
      ghost var v0, p := views, (rtype, key);
      var loaded := LoadRecord(rtype, key);
      var rec := loaded.value;
      assert rec == Initial(v0, disk.files, root, p);
      var bound := rec.(bindings := Put(rec.bindings, FieldForExt(rc.fields, ext), root + [rtype] + rel));
      Store(rtype, key, bound);
      if p !in v0 {
        Overwrite(v0, p, rec, bound);
      }
    }

    /** The loop of `scan` over the files of one record type. */
    method ScanType(rconfig: Option<RecordConfig>, rtype: string, rels: seq<Path>) returns (r: Result<()>)
      requires Valid() && rtype in KeySet(records)
      requires rconfig == Get(recordConfigs, rtype)
      modifies this
      ensures Valid() && KeySet(records) == KeySet(old(records))
      ensures r.Err? <==> rconfig.None? && rels != []
      ensures r.Err? ==> r == Err(TypeError) && views == old(views)
      ensures r.Ok? ==> views == Scanned(old(views), disk.files, root, recordConfigs, Tagged(rtype, rels))
    {
      var j := 0;
      while j < |rels|
        invariant 0 <= j <= |rels|
        invariant Valid() && KeySet(records) == KeySet(old(records))
        invariant views == Scanned(old(views), disk.files, root, recordConfigs, Tagged(rtype, rels[..j]))
        invariant j > 0 ==> rconfig.Some?
      {
        ghost var before := views;
        var res := ScanFile(rconfig, rtype, rels[j]);
        if res.Err? {
          assert rels[..j] == [];
          return Err(TypeError);
        }
        TaggedSnoc(rtype, rels, j);
        ScannedSnoc(old(views), disk.files, root, recordConfigs, Tagged(rtype, rels[..j]), rtype, rels[j]);
        j := j + 1;
      }
      assert rels[..j] == rels;
      return Ok(());
    }

    /** One pass of the loop of `scan`: register `rtype` when it is not yet,
        then scan the files of its directory. */
    method ScanRecordType(rtype: string, rels: seq<Path>) returns (r: Result<()>)
      requires Valid()
      modifies this
      ensures Valid() && KeySet(records) == KeySet(old(records)) + {rtype}
      ensures r.Err? <==> Get(recordConfigs, rtype).None? && rels != []
      ensures r.Err? ==> r == Err(TypeError) && views == old(views)
      ensures r.Ok? ==> views == Scanned(old(views), disk.files, root, recordConfigs, Tagged(rtype, rels))
    {
      var rconfig := Get(recordConfigs, rtype);
      if rtype !in KeySet(records) {
        IndexesNewType(records, views, rtype);
        records := Put(records, rtype, []);
      }
      r := ScanType(rconfig, rtype, rels);
    }

    /** `scan`: for each record type asked for (every configured one by
        default), make sure the type is registered, then scan every file
        `listing` finds under the type's directory. */
    method Scan(recordTypes: Option<seq<string>>, listing: string -> seq<Path>) returns (r: Result<()>)
      requires Valid()
      modifies this
      ensures Valid()
      ensures r.Err? <==> Unconfigured(ScanTypes(recordTypes, recordConfigs), recordConfigs, listing)
      ensures r.Err? ==> r == Err(TypeError)
      ensures var types := ScanTypes(recordTypes, recordConfigs);
        r.Err? ==> exists i :: 0 <= i < |types| && ScanStoppedAt(types, i, listing, old(views), KeySet(old(records)))
      ensures var types := ScanTypes(recordTypes, recordConfigs);
        r.Ok? ==> views == Scanned(old(views), disk.files, root, recordConfigs, Listed(types, listing)) &&
                  KeySet(records) == KeySet(old(records)) + Members(types)
    {
      var types := ScanTypes(recordTypes, recordConfigs);
      ghost var v0, k0 := views, KeySet(records);
      var i := 0;
      while i < |types|
        invariant 0 <= i <= |types|
        invariant Valid()
        invariant views == Scanned(v0, disk.files, root, recordConfigs, Listed(types[..i], listing))
        invariant KeySet(records) == k0 + Members(types[..i])
        invariant !Unconfigured(types[..i], recordConfigs, listing)
      {
        var res := ScanNext(types, i, listing, v0, k0);
        if res.Err? {
          UnconfiguredPrefix(types, i + 1, recordConfigs, listing);
          assert ScanStoppedAt(types, i, listing, v0, k0);
          return Err(TypeError);
        }
        i := i + 1;
      }
      assert types[..i] == types;
      return Ok(());
    }

    /** The state a `scan` is left in when the type `types[i]` raises
        TypeError: it is the first type without a configuration that has
        files, the types before it are fully scanned, and it is registered. */
    ghost predicate ScanStoppedAt(types: seq<string>, i: nat, listing: string -> seq<Path>, v0: CacheView, k0: set<string>)
      reads this, disk
      requires i < |types|
    {
      && Get(recordConfigs, types[i]).None? && listing(types[i]) != []
      && !Unconfigured(types[..i], recordConfigs, listing)
      && views == Scanned(v0, disk.files, root, recordConfigs, Listed(types[..i], listing))
      && KeySet(records) == k0 + Members(types[..i + 1])
    }

    /** One pass of the loop of `scan`: the record type `types[i]`. */
    method ScanNext(types: seq<string>, i: nat, listing: string -> seq<Path>, ghost v0: CacheView, ghost k0: set<string>)
      returns (r: Result<()>)
      requires Valid() && i < |types|
      requires views == Scanned(v0, disk.files, root, recordConfigs, Listed(types[..i], listing))
      requires KeySet(records) == k0 + Members(types[..i])
      requires !Unconfigured(types[..i], recordConfigs, listing)
      modifies this
      ensures Valid()
      ensures r.Err? <==> Unconfigured(types[..i + 1], recordConfigs, listing)
      ensures r.Err? ==> ScanStoppedAt(types, i, listing, v0, k0)
      ensures r.Ok? ==>
        && views == Scanned(v0, disk.files, root, recordConfigs, Listed(types[..i + 1], listing))
        && KeySet(records) == k0 + Members(types[..i + 1])
    {
      var rtype := types[i];
      MembersSnoc(types, i);
      UnconfiguredSnoc(types, i, recordConfigs, listing);
      ghost var listed := Listed(types[..i], listing);
      ListedSnoc(types, i, listing);
      ScannedAppend(v0, disk.files, root, recordConfigs, listed, Tagged(rtype, listing(rtype)));
      r := ScanRecordType(rtype, listing(rtype));
    }

    /** `get_records`: every record, type by type and key by key, that is
        bound to one of `files` (every record when `files` is empty). */
    method GetRecords(files: seq<Path>, same: (Path, Path) -> bool) returns (rs: seq<RecordView>)
      ensures rs == Selected(Flat(records), files, same)
    {
      rs := [];
      var i := 0;
      while i < |records|
        invariant 0 <= i <= |records|
        invariant rs == Selected(Flat(records[..i]), files, same)
      {
        var values := Values(records[i].1);
        var chosen := SelectFrom(values, files, same);
        rs := rs + chosen;
        SelectedAppend(Flat(records[..i]), values, files, same);
        FlatSnoc(records, i);
        i := i + 1;
      }
      assert records[..i] == records;
    }
  }
}
