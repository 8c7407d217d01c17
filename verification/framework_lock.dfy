/** The Framework lock of src/framework_lock.rs: a structural difference of JSON trees decides whether
    a lock matches the running Framework.  The difference walks both trees at once and lists every
    path where they disagree; before the comparison the locked value is normalised, which is where
    a version-2 lock may vary in its release label and its artifact block and nowhere else.
  */
module FrameworkLocks {
  import opened Json
  import opened Sorting

  // -------------------------------------------------------------------- differences

  datatype Kind = Missing | Unexpected | Different(expected: Value, actual: Value)

  /** A difference and the keys that lead to it; the code joins the keys with dots. */
  datatype Difference = Difference(path: seq<string>, kind: Kind)

  /** The trees differ at this path in this way: on the way there both are objects with the key. */
  predicate DiffersAt(expected: Value, actual: Value, path: seq<string>, kind: Kind)
    decreases |path|
  {
    if expected.Obj? && actual.Obj? then
      path != [] &&
      var key := path[0];
      if key in expected.fields && key in actual.fields then DiffersAt(expected.fields[key], actual.fields[key], path[1..], kind)
      else if key in expected.fields then path == [key] && kind == Missing
      else key in actual.fields && path == [key] && kind == Unexpected
    else path == [] && expected != actual && kind == Different(expected, actual)
  }

  /** The differences below some keys of two objects. */
  ghost predicate BelowKeys(out: seq<Difference>, e: Value, a: Value, path: seq<string>, keys: set<string>) {
    forall d :: d in out <==>
      path < d.path && d.path[|path|] in keys && DiffersAt(e, a, d.path[|path|..], d.kind)
  }

  function Members(keys: seq<string>): set<string> {
    set k | k in keys
  }

  /** `differences`: it lists exactly the differences of the trees, and none for equal trees only. */
  method Differences(expected: Value, actual: Value, path: seq<string>) returns (out: seq<Difference>)
    ensures forall d :: d in out <==> path <= d.path && DiffersAt(expected, actual, d.path[|path|..], d.kind)
    ensures out == [] <==> expected == actual
    decreases expected, 1
  {
    if expected.Obj? && actual.Obj? {
      out := FieldDifferences(expected, actual, path);
      AllKeys(out, expected, actual, path);
    } else if expected == actual {
      out := [];
    } else {
      out := [Difference(path, Different(expected, actual))];
      Leaf(expected, actual, path);
    }
  }

  /** The key loop over two objects. */
  method FieldDifferences(expected: Value, actual: Value, path: seq<string>) returns (out: seq<Difference>)
    requires expected.Obj? && actual.Obj?
    ensures BelowKeys(out, expected, actual, path, expected.fields.Keys + actual.fields.Keys)
    ensures out == [] <==> expected == actual
    decreases expected, 0
  {
    hide *;
    var all := expected.fields.Keys + actual.fields.Keys;
    StringOrder();
    var keys := SortedElements(all, StringLe);
    SetElements(keys, all);
    out := [];
    NoKeys(expected, actual, path);
    for i := 0 to |keys|
      invariant BelowKeys(out, expected, actual, path, Members(keys[..i]))
      invariant out == [] <==> forall k | k in keys[..i] :: Lookup(expected.fields, k) == Lookup(actual.fields, k)
    {
      var key := keys[i];
      assert key in all;
      var more := KeyDifferences(expected, actual, path, key);
      AddKey(out, more, expected, actual, path, Members(keys[..i]), key);
      MembersPush(keys, i);
      out := out + more;
    }
    assert keys[..|keys|] == keys;
    MembersAre(keys, all);
    SameFields(expected.fields, actual.fields, keys);
  }

  /** The match on one key. */
  method KeyDifferences(expected: Value, actual: Value, path: seq<string>, key: string) returns (more: seq<Difference>)
    requires expected.Obj? && actual.Obj? && (key in expected.fields || key in actual.fields)
    ensures BelowKeys(more, expected, actual, path, {key})
    ensures more == [] <==> Lookup(expected.fields, key) == Lookup(actual.fields, key)
    decreases expected, 0, 0
  {
    hide BelowKeys, DiffersAt;
    if key !in expected.fields {
      more := [Difference(path + [key], Unexpected)];
    } else if key !in actual.fields {
      more := [Difference(path + [key], Missing)];
    } else {
      more := Differences(expected.fields[key], actual.fields[key], path + [key]);
    }
    OneKey(more, expected, actual, path, key);
  }

  lemma Leaf(expected: Value, actual: Value, path: seq<string>)
    requires !(expected.Obj? && actual.Obj?) && expected != actual
    ensures forall d :: d == Difference(path, Different(expected, actual)) <==>
              path <= d.path && DiffersAt(expected, actual, d.path[|path|..], d.kind)
  {
    assert path[|path|..] == [];
    forall d: Difference | path <= d.path && d.path[|path|..] == [] ensures d.path == path {
      assert d.path == path + d.path[|path|..];
    }
  }

  lemma NoKeys(e: Value, a: Value, path: seq<string>)
    ensures BelowKeys([], e, a, path, Members([]))
  {}

  lemma MembersPush(keys: seq<string>, i: nat)
    requires i < |keys|
    ensures Members(keys[..i + 1]) == Members(keys[..i]) + {keys[i]}
    ensures keys[..i + 1] == keys[..i] + [keys[i]]
  {
    assert keys[..i + 1] == keys[..i] + [keys[i]];
  }

  lemma MembersAre(keys: seq<string>, all: set<string>)
    requires forall k :: k in keys <==> k in all
    ensures Members(keys) == all
  {}

  /** What one key of two objects contributes. */
  lemma OneKey(more: seq<Difference>, e: Value, a: Value, path: seq<string>, key: string)
    requires e.Obj? && a.Obj? && (key in e.fields || key in a.fields)
    requires key in e.fields && key in a.fields ==>
               forall d :: d in more <==> path + [key] <= d.path && DiffersAt(e.fields[key], a.fields[key], d.path[|path| + 1..], d.kind)
    requires key !in e.fields ==> more == [Difference(path + [key], Unexpected)]
    requires key !in a.fields ==> more == [Difference(path + [key], Missing)]
    ensures BelowKeys(more, e, a, path, {key})
  {
    forall d: Difference
      ensures d in more <==> path < d.path && d.path[|path|] in {key} && DiffersAt(e, a, d.path[|path|..], d.kind)
    {
      if path < d.path && d.path[|path|] == key {
        var rest := d.path[|path|..];
        assert rest[0] == key && rest[1..] == d.path[|path| + 1..];
        assert path + [key] <= d.path;
        assert rest == [key] <==> d.path == path + [key] by {
          assert d.path == path + rest;
        }
      }
      assert path + [key] <= d.path ==> path < d.path && d.path[|path|] == key;
    }
  }

  lemma AddKey(out: seq<Difference>, more: seq<Difference>, e: Value, a: Value, path: seq<string>, keys: set<string>, key: string)
    requires BelowKeys(out, e, a, path, keys) && BelowKeys(more, e, a, path, {key})
    ensures BelowKeys(out + more, e, a, path, keys + {key})
  {
    hide DiffersAt;
    forall d: Difference
      ensures d in out + more <==> path < d.path && d.path[|path|] in keys + {key} && DiffersAt(e, a, d.path[|path|..], d.kind)
    {
      assert d in out + more <==> d in out || d in more;
    }
  }

  lemma AllKeys(out: seq<Difference>, e: Value, a: Value, path: seq<string>)
    requires e.Obj? && a.Obj? && BelowKeys(out, e, a, path, e.fields.Keys + a.fields.Keys)
    ensures forall d :: d in out <==> path <= d.path && DiffersAt(e, a, d.path[|path|..], d.kind)
  {
    forall d: Difference ensures d in out <==> path <= d.path && DiffersAt(e, a, d.path[|path|..], d.kind) {
      if path <= d.path && DiffersAt(e, a, d.path[|path|..], d.kind) {
        assert d.path[|path|..] != [];
        assert d.path[|path|..][0] == d.path[|path|];
      }
    }
  }

  lemma SameFields(e: map<string, Value>, a: map<string, Value>, keys: seq<string>)
    requires forall k :: k in keys <==> k in e || k in a
    ensures e == a <==> forall k | k in keys :: Lookup(e, k) == Lookup(a, k)
  {
    if forall k | k in keys :: Lookup(e, k) == Lookup(a, k) {
      forall k ensures k in e <==> k in a {
        assert k in keys ==> Lookup(e, k) == Lookup(a, k);
      }
      forall k | k in e ensures e[k] == a[k] {
        assert k in keys;
        assert Lookup(e, k) == Lookup(a, k);
      }
    }
  }

  // ---------------------------------------------------------------- the expected manifest

  const PLAIN_SCHEMA := "1"
  const SIGNED_SCHEMA := "2"
  const RELEASE := "adf-dev"

  /** The running Framework: protocol and detector versions, schema bundle, Rule source and index. */
  datatype Runtime = Runtime(
    protocols: map<string, string>, detectors: map<string, string>, bundleVersion: string, bundleDigest: string,
    ruleSource: Value, indexDigest: string)

  function TextFields(m: map<string, string>): Value {
    Obj(map k | k in m :: Str(m[k]))
  }

  function Manifest(rt: Runtime, sourceDigest: Value): Value {
    Obj(map["schema_version" := Str(PLAIN_SCHEMA), "framework_release" := Str(RELEASE),
            "protocols" := TextFields(rt.protocols), "detectors" := TextFields(rt.detectors),
            "schema_bundle" := Obj(map["version" := Str(rt.bundleVersion), "digest" := Str(rt.bundleDigest)]),
            "rule_set" := Obj(map["source_digest" := sourceDigest, "index_digest" := Str(rt.indexDigest)])])
  }

  /** `build_framework_lock`: it fails for a Rule source without a canonical digest. */
  function BuildFrameworkLock(rt: Runtime): Option<Value> {
    match CanonicalDigest(rt.ruleSource)
    case None => None
    case Some(digest) => Some(Manifest(rt, digest))
  }

  lemma TextsAreCanonical(m: map<string, string>)
    ensures Canonical(TextFields(m))
  {}

  lemma PairIsCanonical(k1: string, v1: Value, k2: string, v2: Value)
    requires Canonical(v1) && Canonical(v2)
    ensures Canonical(Obj(map[k1 := v1, k2 := v2]))
  {
    hide TextFields;
    var m := map[k1 := v1, k2 := v2];
    assert forall k | k in m :: m[k] == v1 || m[k] == v2;
  }

  lemma ManifestIsCanonical(rt: Runtime, source: Value)
    ensures Canonical(Manifest(rt, Digest(source)))
  {
    TextsAreCanonical(rt.protocols);
    TextsAreCanonical(rt.detectors);
    PairIsCanonical("version", Str(rt.bundleVersion), "digest", Str(rt.bundleDigest));
    PairIsCanonical("source_digest", Digest(source), "index_digest", Str(rt.indexDigest));
    hide TextFields;
    var fields := Manifest(rt, Digest(source)).fields;
    assert forall k | k in fields ::
        || fields[k].Str? || fields[k] == TextFields(rt.protocols) || fields[k] == TextFields(rt.detectors)
        || fields[k] == Obj(map["version" := Str(rt.bundleVersion), "digest" := Str(rt.bundleDigest)])
        || fields[k] == Obj(map["source_digest" := Digest(source), "index_digest" := Str(rt.indexDigest)]);
  }

  // ---------------------------------------------------------------------- signed locks

  predicate ReleaseChar(c: char) {
    '0' <= c <= '9' || 'a' <= c <= 'z' || 'A' <= c <= 'Z' || c in {'.', '_', '-'}
  }

  /** A well-formed release label: it names one directory entry. */
  predicate ReleaseLabel(id: string) {
    id != "" && id != "." && id != ".." && forall i | 0 <= i < |id| :: ReleaseChar(id[i])
  }

  predicate TextField(v: Value) {
    v.Digest? || (v.Str? && v.s != "")
  }

  /** `validate_release_artifact_shape` for the artifact block. */
  predicate ArtifactShape(v: Value) {
    && v.Obj? && v.fields.Keys == {"artifact_digest", "signer_key_id", "source_id"}
    && (forall field | field in v.fields :: TextField(v.fields[field]))
    && Sha256Text(v.fields["artifact_digest"])
  }

  /** `comparable_core_lock`: a signed lock in its plain form. */
  function Comparable(lock: Value): Option<Value> {
    if lock.At("schema_version") == Str(PLAIN_SCHEMA) then Some(lock)
    else if lock.At("schema_version") == Str(SIGNED_SCHEMA) && ArtifactShape(lock.At("release_artifact"))
    then Some(Obj(lock.fields["schema_version" := Str(PLAIN_SCHEMA)] - {"release_artifact"}))
    else None
  }

  /** A manifest, signed: another schema version, a release label and an artifact block. */
  function Signed(manifest: Value, label_: string, artifact: Value): Value
    requires manifest.Obj?
  {
    Obj(manifest.fields["schema_version" := Str(SIGNED_SCHEMA)]["framework_release" := Str(label_)]["release_artifact" := artifact])
  }

  datatype LockError = NoManifest | NotComparable | BadLabel | Mismatch(differences: seq<Difference>) | NoDigest

  /** What the lock is held against: for a signed lock its own label takes the place of the release. */
  function ExpectedFor(manifest: Value, lock: Value): Option<Value>
    requires manifest.Obj?
  {
    if lock.At("schema_version") != Str(SIGNED_SCHEMA) then Some(manifest)
    else if lock.At("framework_release").Str? && ReleaseLabel(lock.At("framework_release").s)
    then Some(Obj(manifest.fields["framework_release" := lock.At("framework_release")]))
    else None
  }

  /** The locks a runtime accepts. */
  ghost predicate Accepts(manifest: Value, lock: Value)
    requires manifest.Obj?
  {
    || lock == manifest
    || exists label_, artifact :: ReleaseLabel(label_) && ArtifactShape(artifact) && lock == Signed(manifest, label_, artifact)
  }

  /** `validate_framework_lock`: a lock is accepted exactly when it is the manifest of the runtime, or
      that manifest signed with a well-formed label and artifact block. */
  method ValidateFrameworkLock(rt: Runtime, lock: Value) returns (r: Result<Value, LockError>)
    ensures r.Ok? <==> BuildFrameworkLock(rt).Some? && Accepts(BuildFrameworkLock(rt).value, lock)
    ensures r.Ok? ==> r.value == Digest(lock)
    ensures r.Err? && r.error.Mismatch? ==> r.error.differences != []
  {
    var manifest := BuildFrameworkLock(rt);
    if manifest.None? {
      return Err(NoManifest);
    }
    ManifestFields(rt, manifest.value);
    hide BuildFrameworkLock, Manifest, ReleaseLabel, ArtifactShape, DiffersAt, Accepts, Comparable, ExpectedFor;
    var comparable := Comparable(lock);
    var expected := ExpectedFor(manifest.value, lock);
    AcceptsIff(manifest.value, lock);
    if comparable.None? {
      return Err(NotComparable);
    }
    if expected.None? {
      return Err(BadLabel);
    }
    var differences := Differences(expected.value, comparable.value, []);
    if differences != [] {
      return Err(Mismatch(differences));
    }
    AcceptedIsCanonical(rt, lock);
    var digest := CanonicalDigest(lock);
    if digest.None? {
      return Err(NoDigest);
    }
    return Ok(digest.value);
  }

  lemma ManifestFields(rt: Runtime, manifest: Value)
    requires BuildFrameworkLock(rt) == Some(manifest)
    ensures manifest.Obj? && manifest.At("schema_version") == Str(PLAIN_SCHEMA)
    ensures "framework_release" in manifest.fields && "release_artifact" !in manifest.fields
  {}

  /** Comparing the plain forms decides acceptance. */
  lemma AcceptsIff(manifest: Value, lock: Value)
    requires manifest.Obj? && manifest.At("schema_version") == Str(PLAIN_SCHEMA) && "framework_release" in manifest.fields
    requires "release_artifact" !in manifest.fields
    ensures Accepts(manifest, lock) <==>
              Comparable(lock).Some? && ExpectedFor(manifest, lock).Some? && Comparable(lock) == ExpectedFor(manifest, lock)
  {
    hide ReleaseLabel;
    if lock.At("schema_version") == Str(SIGNED_SCHEMA) {
      var artifact := lock.At("release_artifact");
      if Comparable(lock).Some? && ExpectedFor(manifest, lock).Some? && Comparable(lock) == ExpectedFor(manifest, lock) {
        var label_ := lock.At("framework_release").s;
        SignedFields(manifest, lock, label_, artifact);
      }
      if exists l, a :: ReleaseLabel(l) && ArtifactShape(a) && lock == Signed(manifest, l, a) {
        var l, a :| ReleaseLabel(l) && ArtifactShape(a) && lock == Signed(manifest, l, a);
        UnsignedFields(manifest, l, a);
      }
    } else {
      assert forall l, a :: Signed(manifest, l, a).At("schema_version") == Str(SIGNED_SCHEMA);
    }
  }

  lemma SignedFields(manifest: Value, lock: Value, label_: string, artifact: Value)
    requires manifest.Obj? && manifest.At("schema_version") == Str(PLAIN_SCHEMA) && lock.Obj?
    requires lock.At("schema_version") == Str(SIGNED_SCHEMA) && "release_artifact" in lock.fields
    requires lock.At("framework_release") == Str(label_) && lock.At("release_artifact") == artifact
    requires lock.fields["schema_version" := Str(PLAIN_SCHEMA)] - {"release_artifact"} == manifest.fields["framework_release" := Str(label_)]
    ensures lock == Signed(manifest, label_, artifact)
  {
    var a := lock.fields["schema_version" := Str(PLAIN_SCHEMA)] - {"release_artifact"};
    var b := manifest.fields["framework_release" := Str(label_)];
    var s := Signed(manifest, label_, artifact).fields;
    forall k: string ensures k in lock.fields <==> k in s {
      assert k in a <==> k in b;
    }
    forall k | k in s ensures lock.fields[k] == s[k] {
      if k !in {"schema_version", "framework_release", "release_artifact"} {
        assert a[k] == b[k];
      }
    }
    assert lock.fields == s;
  }

  lemma UnsignedFields(manifest: Value, label_: string, artifact: Value)
    requires manifest.Obj? && manifest.At("schema_version") == Str(PLAIN_SCHEMA) && "release_artifact" !in manifest.fields
    ensures Signed(manifest, label_, artifact).fields["schema_version" := Str(PLAIN_SCHEMA)] - {"release_artifact"}
            == manifest.fields["framework_release" := Str(label_)]
  {}

  lemma AcceptedIsCanonical(rt: Runtime, lock: Value)
    requires BuildFrameworkLock(rt).Some? && BuildFrameworkLock(rt).value.Obj? && Accepts(BuildFrameworkLock(rt).value, lock)
    ensures Canonical(lock)
  {
    var manifest := BuildFrameworkLock(rt).value;
    ManifestIsCanonical(rt, rt.ruleSource);
    hide BuildFrameworkLock, Manifest, ReleaseLabel;
    if lock != manifest {
      var l, a :| ReleaseLabel(l) && ArtifactShape(a) && lock == Signed(manifest, l, a);
      ArtifactIsCanonical(a);
      hide ArtifactShape;
      forall k | k in lock.fields ensures Canonical(lock.fields[k]) {
        assert k !in {"schema_version", "framework_release", "release_artifact"} ==> lock.fields[k] == manifest.fields[k];
      }
    }
  }

  lemma ArtifactIsCanonical(artifact: Value)
    requires ArtifactShape(artifact)
    ensures Canonical(artifact)
  {}

  /** Two locks accepted by one runtime differ at most in schema version, label and artifact block. */
  lemma AcceptedLocksAgree(manifest: Value, lock: Value, other: Value, key: string)
    requires manifest.Obj? && Accepts(manifest, lock) && Accepts(manifest, other)
    requires key !in {"schema_version", "framework_release", "release_artifact"}
    ensures lock.Get(key) == other.Get(key) == manifest.Get(key)
  {
    hide ReleaseLabel, ArtifactShape;
  }
}
