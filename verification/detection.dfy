/** Turning typed repository facts into Signal candidates, from src/detection.rs. */
module Detection {
  import opened Json
  import opened Sorting
  import opened Binder
  import opened Observer
  import opened DetectionCoverage

  const DETECTOR_ID := "typed-repository-fact"
  const DETECTOR_VERSION := "3"

  /** A logical candidate: a signal and what it is bound to. */
  datatype Key = Key(signal: string, bindings: map<string, string>)

  /** A fact kind of the Signal Catalog. */
  datatype Definition = Definition(bindings: seq<FactBinding>, emits: seq<string>)

  /** The Signal Catalog registry, which is outside this model. */
  datatype Registry = Registry(definition: string -> Option<Definition>, validates: Key -> bool)

  datatype SignalCandidate = SignalCandidate(key: Key, refs: seq<string>, fingerprint: Value, evidenceDigest: Value)

  datatype DetectionReport = DetectionReport(changeId: string, coverage: Coverage, candidates: seq<SignalCandidate>, digest: Value)

  datatype DetectionError = BadCoverage | BadFact(index: nat)

  // ------------------------------------------------------------------- what a fact says

  /** What one fact adds: a candidate and its evidence. */
  datatype Contribution = Contribution(key: Key, refs: seq<string>)

  /** The bound fields of a fact; a binding named twice keeps its last field. */
  function BoundFields(bindings: seq<FactBinding>, fact: Value): Option<map<string, string>> {
    if bindings == [] then Some(map[])
    else
      var last := bindings[|bindings| - 1];
      match BoundFields(bindings[..|bindings| - 1], fact)
      case None => None
      case Some(m) => if fact.At(last.factField).Str? then Some(m[last.binding := fact.At(last.factField).s]) else None
  }

  /** `optional_string_array` for the evidence of a fact. */
  function Evidence(fact: Value): Option<seq<string>> {
    match fact.Get("evidence_refs")
    case None => Some([])
    case Some(v) => if v.Arr? && AllStrings(v.items) then Some(Texts(v.items)) else None
  }

  /** `signals_for`: the candidates a fact names. */
  function SignalsFor(reg: Registry, fact: Value): Option<seq<Key>> {
    if !fact.At("kind").Str? then None
    else match reg.definition(fact.At("kind").s)
      case None => None
      case Some(definition) =>
        match BoundFields(definition.bindings, fact)
        case None => None
        case Some(bound) => Some(seq(|definition.emits|, i requires 0 <= i < |definition.emits| => Key(definition.emits[i], bound)))
  }

  /** Everything a fact adds, or None for a fact that is refused. */
  function Contributions(reg: Registry, fact: Value): Option<seq<Contribution>> {
    if !fact.Obj? || SignalsFor(reg, fact).None? then None
    else
      var keys := SignalsFor(reg, fact).value;
      if keys == [] then Some([])
      else if (exists k | k in keys :: !reg.validates(k)) || Evidence(fact).None? then None
      else Some(seq(|keys|, i requires 0 <= i < |keys| => Contribution(keys[i], Evidence(fact).value)))
  }

  function AllContributions(reg: Registry, facts: seq<Value>): Option<seq<Contribution>> {
    if facts == [] then Some([])
    else
      match AllContributions(reg, facts[..|facts| - 1])
      case None => None
      case Some(before) =>
        match Contributions(reg, facts[|facts| - 1])
        case None => None
        case Some(last) => Some(before + last)
  }

  // -------------------------------------------------------------------------- evidence

  /** The evidence lists of a candidate, in the order of the facts. */
  function RefsOf(cs: seq<Contribution>, key: Key): seq<seq<string>> {
    if cs == [] then []
    else
      var last := cs[|cs| - 1];
      RefsOf(cs[..|cs| - 1], key) + if last.key == key then [last.refs] else []
  }

  /** How evidence lists are merged: a lone list is only sorted, more are united without repetition. */
  function Merged(lists: seq<seq<string>>): seq<string> {
    if lists == [] then []
    else if |lists| == 1 then Sort(lists[0], StringLe)
    else Dedup(Sort(Merged(lists[..|lists| - 1]) + Sort(lists[|lists| - 1], StringLe), StringLe))
  }

  // -------------------------------------------------------------------------- digests

  function TextMap(m: map<string, string>): Value {
    Obj(map k | k in m :: Str(m[k]))
  }

  function Fingerprint(key: Key): Value {
    Digest(Obj(map["detector_id" := Str(DETECTOR_ID), "detector_version" := Str(DETECTOR_VERSION),
                   "signal" := Str(key.signal), "bindings" := TextMap(key.bindings)]))
  }

  /** Two candidates have one fingerprint only if they are the same candidate. */
  lemma FingerprintIsInjective(a: Key, b: Key)
    requires Fingerprint(a) == Fingerprint(b)
    ensures a == b
  {
    var x, y := Fingerprint(a).of, Fingerprint(b).of;
    assert x.fields["signal"] == Str(a.signal) && y.fields["signal"] == Str(b.signal);
    assert x.fields["bindings"] == TextMap(a.bindings) && y.fields["bindings"] == TextMap(b.bindings);
    var m, n := TextMap(a.bindings).fields, TextMap(b.bindings).fields;
    assert m == n;
    forall k | k in a.bindings ensures k in b.bindings && a.bindings[k] == b.bindings[k] {
      assert k in m && m[k] == Str(a.bindings[k]) && n[k] == Str(b.bindings[k]);
    }
    forall k | k in b.bindings ensures k in a.bindings {
      assert k in n;
    }
  }

  function EvidenceDigest(refs: seq<string>, digests: map<string, string>): Value {
    Digest(Obj(map["evidence" := Obj(map r | r in refs :: Str(if r in digests then digests[r] else "missing"))]))
  }

  function CandidateFor(key: Key, refs: seq<string>, digests: map<string, string>): SignalCandidate {
    SignalCandidate(key, refs, Fingerprint(key), EvidenceDigest(refs, digests))
  }

  function CandidateBody(c: SignalCandidate): Value {
    Obj(map["signal" := Str(c.key.signal), "bindings" := TextMap(c.key.bindings), "evidence_refs" := Arr(Map(r => Str(r), c.refs)),
            "fingerprint" := c.fingerprint, "evidence_digest" := c.evidenceDigest])
  }

  function ReportDigest(coverage: Coverage, candidates: seq<SignalCandidate>): Value {
    Digest(Obj(map["coverage" := CoverageValue(coverage), "candidates" := Arr(Map(CandidateBody, candidates))]))
  }

  // ------------------------------------------------------------------------- detection

  /** Candidates are ordered by signal, then by fingerprint; `fpLe` is the order of digest texts. */
  predicate KeyLe(fpLe: (Value, Value) -> bool, a: Key, b: Key) {
    if a.signal == b.signal then fpLe(Fingerprint(a), Fingerprint(b)) else StringLe(a.signal, b.signal)
  }

  function ByKey(fpLe: (Value, Value) -> bool): (Key, Key) -> bool {
    (a, b) => KeyLe(fpLe, a, b)
  }

  lemma KeyOrder(fpLe: (Value, Value) -> bool)
    requires TotalOrder(fpLe)
    ensures TotalOrder(ByKey(fpLe))
  {
    StringOrder();
    hide StringLe, Fingerprint;
    var le := ByKey(fpLe);
    forall a: Key, b: Key | le(a, b) && le(b, a) ensures a == b {
      if a.signal == b.signal {
        assert Fingerprint(a) == Fingerprint(b);
        FingerprintIsInjective(a, b);
      }
    }
    forall a: Key, b: Key, c: Key | le(a, b) && le(b, c) ensures le(a, c) {}
  }

  ghost predicate Contributed(cs: seq<Contribution>, key: Key) {
    exists c | c in cs :: c.key == key
  }

  /** The map from fingerprints, after some contributions. */
  ghost predicate Collected(detected: map<Value, (Key, seq<string>)>, cs: seq<Contribution>) {
    && (forall key :: Fingerprint(key) in detected <==> Contributed(cs, key))
    && (forall fp | fp in detected ::
          fp == Fingerprint(detected[fp].0) && detected[fp].1 == Merged(RefsOf(cs, detected[fp].0)))
  }

  /** The report that contributions make: one candidate per key, in order. */
  ghost predicate CandidatesOf(candidates: seq<SignalCandidate>, cs: seq<Contribution>, digests: map<string, string>, fpLe: (Value, Value) -> bool) {
    exists keys ::
      && Sorted(keys, ByKey(fpLe)) && NoRepeat(keys) && (forall key :: key in keys <==> Contributed(cs, key))
      && candidates == Listed(keys, cs, digests)
  }

  function Listed(keys: seq<Key>, cs: seq<Contribution>, digests: map<string, string>): seq<SignalCandidate> {
    if keys == [] then []
    else
      var key := keys[|keys| - 1];
      Listed(keys[..|keys| - 1], cs, digests) + [CandidateFor(key, Merged(RefsOf(cs, key)), digests)]
  }

  /** What detection returns. */
  ghost predicate Detects(r: Result<DetectionReport, DetectionError>, reg: Registry, changeId: string, facts: seq<Value>, coverage: Value,
                          digests: map<string, string>, fpLe: (Value, Value) -> bool) {
    && (r.Ok? <==> GoodCoverage(coverage) && AllContributions(reg, facts).Some?)
    && (r.Ok? ==>
          && r.value.changeId == changeId && r.value.coverage == CoverageOf(coverage)
          && CandidatesOf(r.value.candidates, AllContributions(reg, facts).value, digests, fpLe)
          && r.value.digest == ReportDigest(r.value.coverage, r.value.candidates))
  }

  lemma ContributedPush(cs: seq<Contribution>, c: Contribution)
    ensures forall key :: Contributed(cs + [c], key) <==> Contributed(cs, key) || key == c.key
  {
    forall key: Key ensures Contributed(cs + [c], key) <==> Contributed(cs, key) || key == c.key {
      if Contributed(cs, key) {
        var x :| x in cs && x.key == key;
        assert x in cs + [c];
      }
      assert c in cs + [c];
    }
  }

  lemma {:induction false} NotContributed(cs: seq<Contribution>, key: Key)
    ensures RefsOf(cs, key) == [] <==> !Contributed(cs, key)
  {
    if cs != [] {
      var before, last := cs[..|cs| - 1], cs[|cs| - 1];
      assert cs == before + [last];
      NotContributed(before, key);
      ContributedPush(before, last);
    }
  }

  lemma RefsPush(cs: seq<Contribution>, c: Contribution, key: Key)
    ensures RefsOf(cs + [c], key) == if key == c.key then RefsOf(cs, key) + [c.refs] else RefsOf(cs, key)
  {
    assert (cs + [c])[..|cs|] == cs;
  }

  lemma MergedPush(lists: seq<seq<string>>, refs: seq<string>)
    ensures Merged(lists + [refs]) ==
            if lists == [] then Sort(refs, StringLe) else Dedup(Sort(Merged(lists) + Sort(refs, StringLe), StringLe))
  {
    assert (lists + [refs])[..|lists|] == lists;
  }

  /** Storing a candidate's merged evidence under its fingerprint. */
  lemma CollectedPush(detected: map<Value, (Key, seq<string>)>, c: Contribution, cs: seq<Contribution>, refs: seq<string>)
    requires Collected(detected, cs)
    requires refs == Merged(RefsOf(cs + [c], c.key))
    ensures Collected(detected[Fingerprint(c.key) := (c.key, refs)], cs + [c])
  {
    hide Fingerprint, Merged, RefsOf, Contributed;
    var fp := Fingerprint(c.key);
    var next := detected[fp := (c.key, refs)];
    ContributedPush(cs, c);
    forall key: Key ensures Fingerprint(key) == fp <==> key == c.key {
      if Fingerprint(key) == fp {
        FingerprintIsInjective(key, c.key);
      }
    }
    forall x | x in next ensures next[x].1 == Merged(RefsOf(cs + [c], next[x].0)) {
      RefsPush(cs, c, next[x].0);
      if x != fp {
        assert Fingerprint(next[x].0) == x;
      }
    }
  }

  /** One emitted signal: `entry(..).and_modify(..).or_insert(..)`. */
  method AddContribution(detected: map<Value, (Key, seq<string>)>, c: Contribution, ghost cs: seq<Contribution>)
    returns (next: map<Value, (Key, seq<string>)>)
    requires Collected(detected, cs)
    ensures Collected(next, cs + [c])
  {
    hide Fingerprint, Sort, Dedup, RefsOf, Merged, Contributed;
    var sorted := Sort(c.refs, StringLe);
    var fp := Fingerprint(c.key);
    NotContributed(cs, c.key);
    RefsPush(cs, c, c.key);
    MergedPush(RefsOf(cs, c.key), c.refs);
    var refs := sorted;
    if fp in detected {
      FingerprintIsInjective(detected[fp].0, c.key);
      refs := Dedup(Sort(detected[fp].1 + sorted, StringLe));
    }
    CollectedPush(detected, c, cs, refs);
    next := detected[fp := (c.key, refs)];
  }

  /** The signals of one fact. */
  method AddFact(reg: Registry, fact: Value, detected: map<Value, (Key, seq<string>)>, ghost cs: seq<Contribution>)
    returns (r: Option<map<Value, (Key, seq<string>)>>)
    requires Collected(detected, cs)
    ensures r.Some? <==> Contributions(reg, fact).Some?
    ensures r.Some? ==> Collected(r.value, cs + Contributions(reg, fact).value)
  {
    hide Collected, SignalsFor, Evidence;
    if !fact.Obj? {
      return None;
    }
    var signals := SignalsFor(reg, fact);
    if signals.None? {
      return None;
    }
    var keys := signals.value;
    var next := detected;
    ghost var added: seq<Contribution> := [];
    assert cs + [] == cs;
    for i := 0 to |keys|
      invariant |added| == i && (i > 0 ==> Evidence(fact).Some?)
      invariant forall k | k in keys[..i] :: reg.validates(k)
      invariant forall j | 0 <= j < i :: added[j] == Contribution(keys[j], Evidence(fact).value)
      invariant Collected(next, cs + added)
    {
      assert keys[..i + 1] == keys[..i] + [keys[i]];
      assert keys[i] in keys;
      if !reg.validates(keys[i]) {
        return None;
      }
      var refs := Evidence(fact);
      if refs.None? {
        return None;
      }
      var c := Contribution(keys[i], refs.value);
      next := AddContribution(next, c, cs + added);
      assert cs + added + [c] == cs + (added + [c]);
      added := added + [c];
    }
    assert keys[..|keys|] == keys;
    assert added == Contributions(reg, fact).value;
    return Some(next);
  }

  /** The loop over the facts. */
  method AddFacts(reg: Registry, facts: seq<Value>) returns (r: Result<map<Value, (Key, seq<string>)>, DetectionError>)
    ensures r.Ok? <==> AllContributions(reg, facts).Some?
    ensures r.Ok? ==> Collected(r.value, AllContributions(reg, facts).value)
  {
    var detected: map<Value, (Key, seq<string>)> := map[];
    assert Collected(detected, []);
    hide Collected, Contributions;
    for i := 0 to |facts|
      invariant AllContributions(reg, facts[..i]).Some?
      invariant Collected(detected, AllContributions(reg, facts[..i]).value)
    {
      assert facts[..i + 1][..i] == facts[..i];
      var next := AddFact(reg, facts[i], detected, AllContributions(reg, facts[..i]).value);
      if next.None? {
        RefusedFactRefusesAll(reg, facts, i + 1);
        return Err(BadFact(i));
      }
      detected := next.value;
    }
    assert facts[..|facts|] == facts;
    return Ok(detected);
  }

  lemma {:induction false} RefusedFactRefusesAll(reg: Registry, facts: seq<Value>, n: nat)
    requires n <= |facts| && AllContributions(reg, facts[..n]).None?
    ensures AllContributions(reg, facts).None?
    decreases |facts|
  {
    if n == |facts| {
      assert facts[..n] == facts;
    } else {
      assert facts[..|facts| - 1][..n] == facts[..n];
      RefusedFactRefusesAll(reg, facts[..|facts| - 1], n);
    }
  }

  /** The candidates of the collected map, in their final order. */
  method ListCandidates(detected: map<Value, (Key, seq<string>)>, digests: map<string, string>, fpLe: (Value, Value) -> bool,
                        ghost cs: seq<Contribution>)
    returns (candidates: seq<SignalCandidate>)
    requires TotalOrder(fpLe) && Collected(detected, cs)
    ensures CandidatesOf(candidates, cs, digests, fpLe)
  {
    KeyOrder(fpLe);
    hide KeyLe, TotalOrder, Fingerprint, Merged, RefsOf, Sorted, CandidateFor, Contributed;
    var named := set fp | fp in detected :: detected[fp].0;
    NamedAreContributed(detected, cs);
    var keys := SortedElements(named, ByKey(fpLe));
    SetElements(keys, named);
    candidates := [];
    for i := 0 to |keys|
      invariant candidates == Listed(keys[..i], cs, digests)
    {
      hide Collected;
      assert keys[..i + 1][..i] == keys[..i];
      var fp := Fingerprint(keys[i]);
      assert keys[i] in keys;
      EntryOfKey(detected, cs, keys[i]);
      candidates := candidates + [CandidateFor(keys[i], detected[fp].1, digests)];
    }
    assert keys[..|keys|] == keys;
  }

  lemma NamedAreContributed(detected: map<Value, (Key, seq<string>)>, cs: seq<Contribution>)
    requires Collected(detected, cs)
    ensures forall key :: key in (set fp | fp in detected :: detected[fp].0) <==> Contributed(cs, key)
  {
    hide Fingerprint, Merged, RefsOf, Contributed;
    var named := set fp | fp in detected :: detected[fp].0;
    forall key: Key ensures key in named <==> Contributed(cs, key) {
      if key in named {
        var fp :| fp in detected && detected[fp].0 == key;
        assert fp == Fingerprint(key);
      } else if Fingerprint(key) in detected {
        FingerprintIsInjective(detected[Fingerprint(key)].0, key);
      }
    }
  }

  lemma EntryOfKey(detected: map<Value, (Key, seq<string>)>, cs: seq<Contribution>, key: Key)
    requires Collected(detected, cs) && Contributed(cs, key)
    ensures Fingerprint(key) in detected && detected[Fingerprint(key)].1 == Merged(RefsOf(cs, key))
  {
    hide Merged, RefsOf, Contributed, Fingerprint;
    FingerprintIsInjective(detected[Fingerprint(key)].0, key);
  }

  /** `detect_typed_facts_with_registry` */
  method DetectTypedFacts(reg: Registry, changeId: string, facts: seq<Value>, coverage: Value, digests: map<string, string>,
                          fpLe: (Value, Value) -> bool)
    returns (r: Result<DetectionReport, DetectionError>)
    requires TotalOrder(fpLe)
    ensures Detects(r, reg, changeId, facts, coverage, digests, fpLe)
  {
    hide GoodCoverage, AllContributions, CandidatesOf, ReportDigest, CoverageOf, TotalOrder;
    var read := ReadCoverage(coverage);
    if read.Err? {
      return Err(BadCoverage);
    }
    var collected := AddFacts(reg, facts);
    if collected.Err? {
      return Err(collected.error);
    }
    var candidates := ListCandidates(collected.value, digests, fpLe, AllContributions(reg, facts).value);
    return Ok(DetectionReport(changeId, read.value, candidates, ReportDigest(read.value, candidates)));
  }
}
