/** The draft report of src/binding_draft_validation.rs, put together from its checks: it has no
    issue exactly when the whole draft is good.
  */
module DraftReport {
  import opened Json
  import opened Binder
  import opened BindingRecords
  import opened DraftValidation
  import opened Sorting

  // -------------------------------------------------------------------- candidates

  /** The framework candidate kept for a key: the last one wins. */
  function LastCandidate(candidates: seq<Value>, key: string): Option<Value> {
    if candidates == [] then None
    else
      var last := candidates[|candidates| - 1];
      if last.At("binding_key") == Str(key) then Some(last) else LastCandidate(candidates[..|candidates| - 1], key)
  }

  predicate Offers(o: Value, key: string) {
    IsOther(o) && o.At("resource").Str? && o.At("method").Str? && KeyOf(o) == key
  }

  function OfferedBy(o: Value): Value {
    Obj(map["symbol" := o.At("symbol"), "resource" := Str(StrOr(o.At("resource"), ""))])
  }

  /** What an observed call offers for a key: the first such call. */
  function FirstOffer(observations: seq<Value>, key: string): Option<Value> {
    if observations == [] then None
    else
      var before := FirstOffer(observations[..|observations| - 1], key);
      var last := observations[|observations| - 1];
      if before.Some? then before else if Offers(last, key) then Some(OfferedBy(last)) else None
  }

  function CandidateFor(framework: seq<Value>, observations: seq<Value>, key: string): Option<Value> {
    if LastCandidate(framework, key).Some? then LastCandidate(framework, key) else FirstOffer(observations, key)
  }

  method Candidates(framework: seq<Value>, observations: seq<Value>) returns (candidates: map<string, Value>)
    ensures forall key :: Lookup(candidates, key) == CandidateFor(framework, observations, key)
  {
    candidates := map[];
    for i := 0 to |framework|
      invariant forall key :: Lookup(candidates, key) == LastCandidate(framework[..i], key)
    {
      var c := framework[i];
      assert framework[..i + 1][..i] == framework[..i];
      if c.At("binding_key").Str? {
        candidates := candidates[c.At("binding_key").s := c];
      }
    }
    assert framework[..|framework|] == framework;
    for i := 0 to |observations|
      invariant forall key :: Lookup(candidates, key) == CandidateFor(framework, observations[..i], key)
    {
      hide KeyOf, IsOther, LastCandidate, OfferedBy;
      var o := observations[i];
      assert observations[..i + 1][..i] == observations[..i];
      var key := KeyOf(o);
      assert Lookup(candidates, key) == CandidateFor(framework, observations[..i], key);
      ghost var before := candidates;
      if IsOther(o) && o.At("resource").Str? && o.At("method").Str? && key !in candidates {
        candidates := candidates[key := OfferedBy(o)];
      }
      forall k: string ensures Lookup(candidates, k) == CandidateFor(framework, observations[..i + 1], k) {
        assert Lookup(before, k) == CandidateFor(framework, observations[..i], k);
        assert k != key ==> Lookup(candidates, k) == Lookup(before, k);
      }
    }
    assert observations[..|observations|] == observations;
  }

  // --------------------------------------------------------------------- one artifact

  function RefMap(v: Value): map<string, set<string>> {
    map k | k in FieldsOf(v) && GoodBindings(FieldsOf(v)[k]) != {} :: GoodBindings(FieldsOf(v)[k])
  }

  ghost predicate CandidatesOf(candidates: map<string, Value>, inventory: Value) {
    forall key :: Lookup(candidates, key) ==
      CandidateFor(inventory.At("framework_candidates").Elements(), inventory.At("observations").Elements(), key)
  }

  ghost predicate GoodBindingMaps(bindings: Value, inventory: Value, accepted: set<string>, catalog: Catalog) {
    var observations, offered := inventory.At("observations").Elements(), inventory.At("framework_candidates").Elements();
    var bound, refs, methods := FieldsOf(bindings.At("symbols")).Keys, RefMap(bindings.At("resources")), bindings.At("methods");
    && HasExactly(bindings, BINDING_FIELDS)
    && GoodSymbols(bindings.At("symbols"), StringSet(inventory.At("symbols")), accepted)
    && GoodResources(bindings.At("resources"), StringSet(inventory.At("resources")), accepted)
    && (exists candidates :: CandidatesOf(candidates, inventory) && GoodMethods(methods, candidates, bound, refs, accepted, catalog))
    && (forall o | o in observations :: GoodBuiltIn(o, bound, refs))
    && (forall o | o in observations :: GoodOther(o, FieldsOf(methods), refs))
    && AllUsed(observations, offered, FieldsOf(methods), bound, refs)
  }

  ghost predicate GoodArtifact(artifact: Value, inventory: Option<Value>, accepted: set<string>, catalog: Catalog) {
    && HasExactly(artifact, ARTIFACT_FIELDS)
    && inventory.Some?
    && inventory.value.At("detector_status") == Str("supported")
    && artifact.At("ref") == inventory.value.At("candidate_ref")
    && artifact.At("language") == inventory.value.At("language")
    && artifact.At("bindings").Obj?
    && GoodBindingMaps(artifact.At("bindings"), inventory.value, accepted, catalog)
  }

  lemma CandidatesUnique(a: map<string, Value>, b: map<string, Value>, inventory: Value)
    requires CandidatesOf(a, inventory) && CandidatesOf(b, inventory)
    ensures a == b
  {
    forall key: string ensures Lookup(a, key) == Lookup(b, key) {}
    assert forall key :: key in a <==> Lookup(a, key).Some?;
    assert forall key :: key in b <==> Lookup(b, key).Some?;
    forall key | key in a ensures a[key] == b[key] {
      assert Lookup(a, key) == Some(a[key]);
    }
  }

  lemma RefsAreRefMap(refs: map<string, set<string>>, v: Value)
    requires ResourceRefs(refs, v, FieldsOf(v).Keys)
    ensures refs == RefMap(v)
  {
    hide GoodBindings;
  }

  /** The five maps and observation checks of `validate_binding_artifact`. */
  method ValidateBindingMaps(bindings: Value, inventory: Value, accepted: set<string>, catalog: Catalog, ref: Option<string>, issues: seq<Issue>)
    returns (out: seq<Issue>)
    ensures issues <= out && (out == issues <==> GoodBindingMaps(bindings, inventory, accepted, catalog))
  {
    hide GoodSymbols, GoodResources, GoodMethods, GoodBuiltIn, GoodOther, AllUsed, GoodBindings, ResourceRefs, CandidatesOf, StringSet;
    out := ExactFields(FieldsOf(bindings).Keys, BINDING_FIELDS, "artifact bindings", ref, issues);
    if !bindings.Obj? {
      out := out + [Issue("invalid-binding-artifact", ref, "bindings must be an object")];
    }
    var observations, offered := inventory.At("observations").Elements(), inventory.At("framework_candidates").Elements();
    var candidates := Candidates(offered, observations);
    CandidatesAre(candidates, inventory);
    var bound, refs;
    bound, out := ValidateSymbols(bindings.At("symbols"), StringSet(inventory.At("symbols")), accepted, ref, out);
    refs, out := ValidateResources(bindings.At("resources"), StringSet(inventory.At("resources")), accepted, ref, out);
    RefsAreRefMap(refs, bindings.At("resources"));
    var methods := bindings.At("methods");
    out := ValidateMethods(methods, candidates, bound, refs, accepted, catalog, ref, out);
    out := ValidateRequired(observations, bound, refs, ref, out);
    out := ValidateOther(observations, FieldsOf(methods), refs, ref, out);
    out := ValidateUnused(observations, offered, FieldsOf(methods), bound, refs, ref, out);
    forall other | CandidatesOf(other, inventory) ensures other == candidates {
      CandidatesUnique(other, candidates, inventory);
    }
  }

  lemma CandidatesAre(candidates: map<string, Value>, inventory: Value)
    requires forall key :: Lookup(candidates, key) ==
               CandidateFor(inventory.At("framework_candidates").Elements(), inventory.At("observations").Elements(), key)
    ensures CandidatesOf(candidates, inventory)
  {}

  /** The observed artifact must have a detector and agree with the binding artifact. */
  method ValidateInventoryItem(artifact: Value, item: Value, ref: Option<string>, issues: seq<Issue>) returns (out: seq<Issue>)
    ensures issues <= out
    ensures out == issues <==>
              && item.At("detector_status") == Str("supported")
              && artifact.At("ref") == item.At("candidate_ref") && artifact.At("language") == item.At("language")
  {
    out := issues;
    if item.At("detector_status") != Str("supported") {
      out := out + [Issue("unsupported-language", ref, "source artifact has no supported Detector")];
    }
    if artifact.At("ref") != item.At("candidate_ref") || artifact.At("language") != item.At("language") {
      out := out + [Issue("binding-artifact-mismatch", ref, "ref or language does not match the observed source artifact")];
    }
  }

  /** `validate_binding_artifact` */
  method ValidateBindingArtifact(artifact: Value, inventory: Option<Value>, accepted: set<string>, catalog: Catalog, issues: seq<Issue>)
    returns (out: seq<Issue>)
    ensures issues <= out && (out == issues <==> GoodArtifact(artifact, inventory, accepted, catalog))
  {
    hide GoodBindingMaps;
    var ref := artifact.At("ref").AsStr();
    if !artifact.Obj? {
      return issues + [Issue("invalid-binding-artifact", ref, "Binding artifact must be an object")];
    }
    out := ExactFields(artifact.fields.Keys, ARTIFACT_FIELDS, "Binding artifact", ref, issues);
    if inventory.None? {
      return out + [Issue("unknown-binding-artifact", ref, "Binding artifact is not present in Draft inventory")];
    }
    out := ValidateInventoryItem(artifact, inventory.value, ref, out);
    if !artifact.At("bindings").Obj? {
      return out + [Issue("invalid-binding-artifact", ref, "bindings must be an object")];
    }
    out := ValidateBindingMaps(artifact.At("bindings"), inventory.value, accepted, catalog, ref, out);
  }

  // ------------------------------------------------------------------ artifact lists

  predicate PathOf(v: Value, path: string) {
    v.At("path") == Str(path) && path != ""
  }

  function FindPath(items: seq<Value>, path: string): Option<Value> {
    if items == [] then None
    else if PathOf(items[|items| - 1], path) then Some(items[|items| - 1])
    else FindPath(items[..|items| - 1], path)
  }

  predicate GoodPaths(items: seq<Value>) {
    && (forall i | 0 <= i < |items| :: NonEmpty(items[i].At("path")))
    && (forall i, j | 0 <= i < j < |items| :: items[i].At("path") != items[j].At("path"))
  }

  /** `artifact_map` */
  method ArtifactMap(v: Value, what: string, issues: seq<Issue>) returns (byPath: map<string, Value>, out: seq<Issue>)
    ensures forall path :: Lookup(byPath, path) == FindPath(v.Elements(), path)
    ensures issues <= out && (out == issues <==> v.Arr? && GoodPaths(v.items))
  {
    byPath := map[];
    if !v.Arr? {
      return byPath, issues + [Issue("invalid-draft", None, what + " must be an array")];
    }
    out := issues;
    for i := 0 to |v.items|
      invariant forall path :: Lookup(byPath, path) == FindPath(v.items[..i], path)
      invariant issues <= out && (out == issues <==> GoodPaths(v.items[..i]))
    {
      var item := v.items[i];
      assert v.items[..i + 1][..i] == v.items[..i];
      assert v.items[..i + 1] == v.items[..i] + [item];
      PathsAppend(v.items[..i], item);
      if !NonEmpty(item.At("path")) {
        out := out + [Issue("invalid-draft", item.At("ref").AsStr(), what + " entry requires a non-empty path")];
      } else {
        assert Lookup(byPath, item.At("path").s) == FindPath(v.items[..i], item.At("path").s);
        if item.At("path").s in byPath {
          out := out + [Issue("duplicate-artifact", item.At("ref").AsStr(), "duplicate artifact path: " + item.At("path").s)];
        }
        byPath := byPath[item.At("path").s := item];
      }
    }
    assert v.items[..|v.items|] == v.items;
  }

  lemma {:induction false} FindPathSome(items: seq<Value>, path: string)
    ensures FindPath(items, path).Some? <==> exists i | 0 <= i < |items| :: PathOf(items[i], path)
    ensures FindPath(items, path).Some? ==> FindPath(items, path).value in items && PathOf(FindPath(items, path).value, path)
  {
    if items != [] {
      var before := items[..|items| - 1];
      FindPathSome(before, path);
      if i :| 0 <= i < |before| && PathOf(before[i], path) {
        assert PathOf(items[i], path);
      }
      if i :| 0 <= i < |items| && PathOf(items[i], path) {
        assert i < |before| ==> PathOf(before[i], path);
      }
    }
  }

  lemma PathsAppend(items: seq<Value>, item: Value)
    ensures GoodPaths(items + [item]) <==>
            GoodPaths(items) && NonEmpty(item.At("path")) && FindPath(items, item.At("path").s).None?
  {
    var all := items + [item];
    assert forall i | 0 <= i < |items| :: all[i] == items[i];
    assert all[|items|] == item;
    if NonEmpty(item.At("path")) {
      FindPathSome(items, item.At("path").s);
    }
    if GoodPaths(all) {
      assert forall i | 0 <= i < |items| :: all[i].At("path") != all[|items|].At("path");
      assert forall i | 0 <= i < |items| :: NonEmpty(all[i].At("path"));
    }
  }

  // ----------------------------------------------------------- top level and freshness

  predicate LowerHex(c: char) {
    '0' <= c <= '9' || 'a' <= c <= 'f'
  }

  predicate LowerSha256(v: Value) {
    v.Digest? || (v.Str? && |v.s| == 71 && v.s[..7] == "sha256:" && forall i | 7 <= i < 71 :: LowerHex(v.s[i]))
  }

  function TextMap(v: Value): map<string, Value> {
    map k | k in FieldsOf(v) && FieldsOf(v)[k].AsText().Some? :: FieldsOf(v)[k]
  }

  predicate GoodTop(draft: Value) {
    && HasExactly(draft, DRAFT_FIELDS)
    && draft.At("schema_version") == Str("6")
    && draft.At("kind") == Str("repository-observation-draft")
  }

  predicate UpToDate(draft: Value, current: Value) {
    && LowerSha256(draft.At("base_observation_digest"))
    && draft.At("base_observation_digest") == current.At("base_observation_digest")
    && draft.At("artifacts") == current.At("artifacts")
    && draft.At("source_digests").Obj?
    && TextMap(draft.At("source_digests")) == TextMap(current.At("source_digests"))
    && forall path | path in draft.At("source_digests").fields :: LowerSha256(draft.At("source_digests").fields[path])
  }

  method ValidateTop(draft: Value, issues: seq<Issue>) returns (out: seq<Issue>)
    ensures issues <= out && (out == issues <==> GoodTop(draft))
  {
    if !draft.Obj? {
      return issues + [Issue("invalid-draft", None, "Binding Draft must be an object")];
    }
    out := ExactFields(draft.fields.Keys, DRAFT_FIELDS, "Binding Draft", None, issues);
    if draft.At("schema_version") != Str("6") {
      out := out + [Issue("unsupported-draft-version", None, "expected Draft schema 6")];
    }
    if draft.At("kind") != Str("repository-observation-draft") {
      out := out + [Issue("invalid-draft", None, "kind must be repository-observation-draft")];
    }
  }

  method CompareSources(expected: map<string, Value>, actual: map<string, Value>, issues: seq<Issue>) returns (out: seq<Issue>)
    ensures issues <= out && (out == issues <==> expected == actual)
  {
    out := issues;
    var all := expected.Keys + actual.Keys;
    var rest := all;
    while rest != {}
      invariant rest <= all && issues <= out
      invariant out == issues <==> forall k | k in all - rest :: Lookup(expected, k) == Lookup(actual, k)
      decreases rest
    {
      var path :| path in rest;
      if Lookup(expected, path) != Lookup(actual, path) {
        out := out + [Issue("stale-source", None, "source changed after Draft generation: " + path)];
      }
      rest := rest - {path};
    }
    SameLookups(expected, actual);
  }

  lemma SameLookups(a: map<string, Value>, b: map<string, Value>)
    ensures a == b <==> forall k | k in a.Keys + b.Keys :: Lookup(a, k) == Lookup(b, k)
  {
    if forall k | k in a.Keys + b.Keys :: Lookup(a, k) == Lookup(b, k) {
      forall k ensures k in a <==> k in b {
        if k in a.Keys + b.Keys {
          assert Lookup(a, k) == Lookup(b, k);
        }
      }
      forall k | k in a ensures a[k] == b[k] {
        assert k in a.Keys + b.Keys;
        assert Lookup(a, k) == Lookup(b, k);
      }
    }
  }

  method ValidateBaseDigest(expected: Value, actual: Value, issues: seq<Issue>) returns (out: seq<Issue>)
    ensures issues <= out && (out == issues <==> LowerSha256(expected) && expected == actual)
  {
    hide LowerSha256;
    if LowerSha256(expected) && expected == actual {
      return issues;
    }
    if LowerSha256(expected) && actual.AsText().Some? {
      return issues + [Issue("stale-observation", None, "Repository Observation changed after Draft generation")];
    }
    return issues + [Issue("invalid-observation-digest", None, "base_observation_digest must be a lowercase SHA-256 digest")];
  }

  method ValidateFreshness(draft: Value, current: Value, issues: seq<Issue>) returns (out: seq<Issue>)
    ensures issues <= out && (out == issues <==> UpToDate(draft, current))
  {
    hide LowerSha256, TextMap;
    out := ValidateBaseDigest(draft.At("base_observation_digest"), current.At("base_observation_digest"), issues);
    if draft.At("artifacts") != current.At("artifacts") {
      out := out + [Issue("modified-observation-inventory", None, "observed artifacts differ from the current source observation")];
    }
    out := CompareSources(TextMap(draft.At("source_digests")), TextMap(current.At("source_digests")), out);
    var digests := draft.At("source_digests");
    if !digests.Obj? {
      out := out + [Issue("invalid-draft", None, "source_digests must be an object")];
    } else {
      out := ValidateSourceDigests(digests.fields, out);
    }
  }

  method ValidateSourceDigests(digests: map<string, Value>, issues: seq<Issue>) returns (out: seq<Issue>)
    ensures issues <= out && (out == issues <==> forall path | path in digests :: LowerSha256(digests[path]))
  {
    hide LowerSha256;
    out := issues;
    var rest := digests.Keys;
    while rest != {}
      invariant rest <= digests.Keys && issues <= out
      invariant out == issues <==> forall k | k in digests.Keys - rest :: LowerSha256(digests[k])
      decreases rest
    {
      var path :| path in rest;
      if !LowerSha256(digests[path]) {
        out := out + [Issue("invalid-source-digest", None, "source_digests." + path + " must be a lowercase SHA-256 digest")];
      }
      rest := rest - {path};
    }
  }

  // ------------------------------------------------------------------------ the report

  datatype Report = Report(status: string, artifacts: nat, bindingArtifacts: nat, issues: seq<Issue>)

  /** Issues are ordered by kind, then by artifact, then by reason. */
  predicate IssueLe(a: Issue, b: Issue) {
    if a.kind != b.kind then StringLe(a.kind, b.kind)
    else if a.artifactRef != b.artifactRef then OptionLe(a.artifactRef, b.artifactRef)
    else StringLe(a.reason, b.reason)
  }

  lemma IssueOrder()
    ensures TotalOrder(IssueLe)
  {
    StringOrder();
    OptionOrder();
    hide StringLe, OptionLe;
  }

  /** The paths at which a list has an entry. */
  function Paths(items: seq<Value>): set<string> {
    set v | v in items && NonEmpty(v.At("path")) :: v.At("path").s
  }

  /** The IDs of accepted Decisions. */
  function Accepted(decisions: seq<Value>): set<string> {
    set d | d in decisions && d.At("status") == Str("accepted") && d.At("id").Str? :: d.At("id").s
  }

  /** The binding artifact at a path, if there is one, is good against the inventory there. */
  ghost predicate GoodAt(bound: seq<Value>, observed: seq<Value>, path: string, accepted: set<string>, catalog: Catalog) {
    FindPath(bound, path).Some? ==> GoodArtifact(FindPath(bound, path).value, FindPath(observed, path), accepted, catalog)
  }

  predicate RetainedAt(bound: seq<Value>, observed: seq<Value>, path: string) {
    FindPath(observed, path).Some? ==> FindPath(bound, path).Some?
  }

  /** A draft nothing is wrong with. */
  ghost predicate GoodDraft(draft: Value, current: Value, decisions: seq<Value>, catalog: Catalog) {
    && GoodTop(draft) && UpToDate(draft, current)
    && draft.At("artifacts").Arr? && GoodPaths(draft.At("artifacts").items)
    && draft.At("binding_artifacts").Arr? && GoodPaths(draft.At("binding_artifacts").items)
    && (forall path :: GoodAt(draft.At("binding_artifacts").items, draft.At("artifacts").items, path, Accepted(decisions), catalog))
    && (forall path :: RetainedAt(draft.At("binding_artifacts").items, draft.At("artifacts").items, path))
  }

  method ValidateArtifacts(bindings: map<string, Value>, inventory: map<string, Value>, accepted: set<string>, catalog: Catalog, issues: seq<Issue>)
    returns (out: seq<Issue>)
    ensures issues <= out
    ensures out == issues <==> forall path | path in bindings :: GoodArtifact(bindings[path], Lookup(inventory, path), accepted, catalog)
  {
    hide GoodArtifact;
    out := issues;
    var rest := bindings.Keys;
    while rest != {}
      invariant rest <= bindings.Keys && issues <= out
      invariant out == issues <==> forall p | p in bindings.Keys - rest :: GoodArtifact(bindings[p], Lookup(inventory, p), accepted, catalog)
      decreases rest
    {
      var path :| path in rest;
      out := ValidateBindingArtifact(bindings[path], Lookup(inventory, path), accepted, catalog, out);
      rest := rest - {path};
    }
  }

  method RequireBindings(inventory: map<string, Value>, bindings: map<string, Value>, issues: seq<Issue>) returns (out: seq<Issue>)
    ensures issues <= out && (out == issues <==> inventory.Keys <= bindings.Keys)
  {
    out := issues;
    var rest := inventory.Keys;
    while rest != {}
      invariant rest <= inventory.Keys && issues <= out && (out == issues <==> inventory.Keys - rest <= bindings.Keys)
      decreases rest
    {
      var path :| path in rest;
      if path !in bindings {
        out := out + [Issue("missing-binding-artifact", inventory[path].At("candidate_ref").AsStr(),
                            "source artifact has no retained Binding artifact: " + path)];
      }
      rest := rest - {path};
    }
  }

  /** `BindingDraftValidationReport::build`: valid exactly when the draft is good, with the issues
      in order and each once. */
  method Build(draft: Value, current: Value, decisions: seq<Value>, catalog: Catalog) returns (r: Report)
    ensures r.status == if r.issues == [] then "valid" else "invalid"
    ensures r.issues == [] <==> GoodDraft(draft, current, decisions, catalog)
    ensures Sorted(r.issues, IssueLe) && NoRepeat(r.issues)
    ensures r.artifacts == |Paths(draft.At("artifacts").Elements())|
    ensures r.bindingArtifacts == |Paths(draft.At("binding_artifacts").Elements())|
  {
    hide IssueLe, Sorted, NoRepeat, Dedup, Sort, TotalOrder, Paths,
         GoodArtifact, GoodTop, UpToDate, GoodPaths, Accepted, GoodAt, RetainedAt;
    var issues := ValidateTop(draft, []);
    issues := ValidateFreshness(draft, current, issues);
    var accepted := Accepted(decisions);
    var inventory, bindings;
    inventory, issues := ArtifactMap(draft.At("artifacts"), "Draft artifacts", issues);
    bindings, issues := ArtifactMap(draft.At("binding_artifacts"), "Draft binding_artifacts", issues);
    issues := ValidateArtifacts(bindings, inventory, accepted, catalog, issues);
    issues := RequireBindings(inventory, bindings, issues);
    MapsAreLists(bindings, draft.At("binding_artifacts").Elements(), inventory, draft.At("artifacts").Elements(), accepted, catalog);
    MapHasPaths(inventory, draft.At("artifacts").Elements());
    MapHasPaths(bindings, draft.At("binding_artifacts").Elements());
    SortedIssues(issues);
    issues := Dedup(Sort(issues, IssueLe));
    return Report(if issues == [] then "valid" else "invalid", |inventory|, |bindings|, issues);
  }

  lemma SortedIssues(issues: seq<Issue>)
    ensures Sorted(Dedup(Sort(issues, IssueLe)), IssueLe) && NoRepeat(Dedup(Sort(issues, IssueLe)))
    ensures forall issue :: issue in Dedup(Sort(issues, IssueLe)) <==> issue in issues
    ensures Dedup(Sort(issues, IssueLe)) == [] <==> issues == []
  {
    IssueOrder();
    hide IssueLe, Sort;
    SortIsSorted(issues, IssueLe);
    var sorted := Sort(issues, IssueLe);
    forall issue ensures issue in sorted <==> issue in issues {
      assert issue in sorted <==> issue in multiset(sorted);
      assert issue in issues <==> issue in multiset(issues);
    }
    DedupMeaning(sorted, IssueLe);
    hide Dedup, Sorted, NoRepeat;
    if issues != [] {
      assert issues[0] in Dedup(sorted);
    }
    if Dedup(sorted) != [] {
      assert Dedup(sorted)[0] in issues;
    }
  }

  lemma MapHasPaths(byPath: map<string, Value>, items: seq<Value>)
    requires forall path :: Lookup(byPath, path) == FindPath(items, path)
    ensures byPath.Keys == Paths(items) && |byPath| == |Paths(items)|
  {
    forall path: string ensures path in byPath <==> path in Paths(items) {
      FindPathSome(items, path);
      if i :| 0 <= i < |items| && PathOf(items[i], path) {
        assert items[i] in items;
      }
      if v :| v in items && NonEmpty(v.At("path")) && v.At("path").s == path {
        var i :| 0 <= i < |items| && items[i] == v;
        assert PathOf(items[i], path);
      }
    }
  }

  lemma MapsAreLists(bindings: map<string, Value>, bound: seq<Value>, inventory: map<string, Value>, observed: seq<Value>,
                     accepted: set<string>, catalog: Catalog)
    requires forall path :: Lookup(bindings, path) == FindPath(bound, path)
    requires forall path :: Lookup(inventory, path) == FindPath(observed, path)
    ensures (forall path | path in bindings :: GoodArtifact(bindings[path], Lookup(inventory, path), accepted, catalog)) <==>
            (forall path :: GoodAt(bound, observed, path, accepted, catalog))
    ensures inventory.Keys <= bindings.Keys <==> forall path :: RetainedAt(bound, observed, path)
  {
    hide GoodArtifact, FindPath;
    forall path: string
      ensures GoodAt(bound, observed, path, accepted, catalog) <==>
              (path in bindings ==> GoodArtifact(bindings[path], Lookup(inventory, path), accepted, catalog))
      ensures RetainedAt(bound, observed, path) <==> (path in inventory ==> path in bindings)
    {
      assert Lookup(bindings, path) == FindPath(bound, path);
      assert Lookup(inventory, path) == FindPath(observed, path);
    }
    hide GoodAt, RetainedAt;
    assert inventory.Keys <= bindings.Keys <==> forall path :: path in inventory ==> path in bindings;
  }
}
