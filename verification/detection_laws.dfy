/** Detection does not depend on the order of its facts, and its candidates are the distinct logical
    candidates with their united evidence.
  */
module DetectionLaws {
  import opened Json
  import opened Sorting
  import opened Binder
  import opened Observer
  import opened DetectionCoverage
  import opened Detection

  // ------------------------------------------------------------------- sorted unions

  predicate InSome(lists: seq<seq<string>>, x: string) {
    exists l | l in lists :: x in l
  }

  lemma InSomePush(lists: seq<seq<string>>, l: seq<string>, x: string)
    ensures InSome(lists + [l], x) <==> InSome(lists, x) || x in l
  {
    if InSome(lists, x) {
      var m :| m in lists && x in m;
      assert m in lists + [l];
    }
    assert l in lists + [l];
  }

  lemma SortKeepsElements(xs: seq<string>)
    ensures Sorted(Sort(xs, StringLe), StringLe) && multiset(Sort(xs, StringLe)) == multiset(xs)
    ensures forall x :: x in Sort(xs, StringLe) <==> x in xs
  {
    StringOrder();
    SortIsSorted(xs, StringLe);
    assert forall x :: x in Sort(xs, StringLe) <==> x in multiset(Sort(xs, StringLe));
    assert forall x :: x in xs <==> x in multiset(xs);
  }

  lemma DedupTexts(xs: seq<string>)
    requires Sorted(xs, StringLe)
    ensures Sorted(Dedup(xs), StringLe) && NoRepeat(Dedup(xs)) && forall x :: x in Dedup(xs) <==> x in xs
  {
    StringOrder();
    hide StringLe;
    DedupMeaning(xs, StringLe);
  }

  /** Merged evidence is the sorted union; only a lone list keeps its repetitions. */
  lemma {:induction false} MergedMeaning(lists: seq<seq<string>>)
    ensures Sorted(Merged(lists), StringLe)
    ensures forall x :: x in Merged(lists) <==> InSome(lists, x)
    ensures NoRepeat(Merged(lists)) <==> |lists| != 1 || NoRepeat(lists[0])
  {
    if |lists| == 1 {
      SortKeepsElements(lists[0]);
      RepetitionIgnoresOrder(Merged(lists), lists[0]);
      assert lists == [] + [lists[0]];
      forall x: string ensures x in Merged(lists) <==> InSome(lists, x) {
        InSomePush([], lists[0], x);
      }
    } else if |lists| > 1 {
      var before, last := lists[..|lists| - 1], lists[|lists| - 1];
      MergedMeaning(before);
      SortKeepsElements(last);
      var both := Merged(before) + Sort(last, StringLe);
      SortKeepsElements(both);
      DedupTexts(Sort(both, StringLe));
      assert lists == before + [last];
      forall x: string ensures x in Merged(lists) <==> InSome(lists, x) {
        InSomePush(before, last, x);
      }
    }
  }

  /** A strictly sorted list is determined by its elements. */
  lemma StrictlySortedIsUnique<T(!new)>(xs: seq<T>, ys: seq<T>, le: (T, T) -> bool)
    requires TotalOrder(le) && Sorted(xs, le) && Sorted(ys, le) && NoRepeat(xs) && NoRepeat(ys)
    requires forall x :: x in xs <==> x in ys
    ensures xs == ys
  {
    RepeatIsCounted(xs);
    RepeatIsCounted(ys);
    forall x ensures multiset(xs)[x] == multiset(ys)[x] {
      assert x in xs <==> x in multiset(xs);
      assert x in ys <==> x in multiset(ys);
    }
    assert multiset(xs) == multiset(ys);
    SortedFormIsUnique(xs, ys, le);
  }

  lemma MergedIgnoresOrder(a: seq<seq<string>>, b: seq<seq<string>>)
    requires multiset(a) == multiset(b)
    ensures Merged(a) == Merged(b)
  {
    assert |multiset(a)| == |a| && |multiset(b)| == |b|;
    SameElements(a, b);
    if |a| == 1 {
      assert a[0] in multiset(b);
      assert a == b;
    } else {
      StringOrder();
      hide Merged, StringLe, TotalOrder;
      MergedMeaning(a);
      MergedMeaning(b);
      forall x: string ensures x in Merged(a) <==> x in Merged(b) {}
      StrictlySortedIsUnique(Merged(a), Merged(b), StringLe);
    }
  }

  // ----------------------------------------------------------------- permuted facts

  lemma {:induction false} RefsCount(cs: seq<Contribution>, key: Key, refs: seq<string>)
    ensures multiset(RefsOf(cs, key))[refs] == multiset(cs)[Contribution(key, refs)]
  {
    if cs != [] {
      var before, last := cs[..|cs| - 1], cs[|cs| - 1];
      assert cs == before + [last];
      RefsCount(before, key, refs);
    }
  }

  lemma RefsIgnoreOrder(a: seq<Contribution>, b: seq<Contribution>, key: Key)
    requires multiset(a) == multiset(b)
    ensures multiset(RefsOf(a, key)) == multiset(RefsOf(b, key))
  {
    forall refs: seq<string> ensures multiset(RefsOf(a, key))[refs] == multiset(RefsOf(b, key))[refs] {
      RefsCount(a, key, refs);
      RefsCount(b, key, refs);
    }
  }

  lemma {:induction false} AllOrNone(reg: Registry, facts: seq<Value>)
    ensures AllContributions(reg, facts).Some? <==> forall f | f in facts :: Contributions(reg, f).Some?
  {
    hide Contributions;
    if facts != [] {
      var before, last := facts[..|facts| - 1], facts[|facts| - 1];
      assert facts == before + [last];
      AllOrNone(reg, before);
    }
  }

  function Gives(reg: Registry, f: Value, c: Contribution): nat {
    if Contributions(reg, f).Some? then multiset(Contributions(reg, f).value)[c] else 0
  }

  /** How often the facts contribute something. */
  function Times(reg: Registry, facts: seq<Value>, c: Contribution): nat {
    if facts == [] then 0 else Times(reg, facts[..|facts| - 1], c) + Gives(reg, facts[|facts| - 1], c)
  }

  lemma TimesPush(reg: Registry, facts: seq<Value>, f: Value, c: Contribution)
    ensures Times(reg, facts + [f], c) == Times(reg, facts, c) + Gives(reg, f, c)
  {
    assert (facts + [f])[..|facts|] == facts;
  }

  lemma {:induction false} ContributionsCount(reg: Registry, facts: seq<Value>, c: Contribution)
    requires AllContributions(reg, facts).Some?
    ensures multiset(AllContributions(reg, facts).value)[c] == Times(reg, facts, c)
  {
    hide Contributions;
    if facts != [] {
      ContributionsCount(reg, facts[..|facts| - 1], c);
    }
  }

  lemma {:induction false} TimesWithout(reg: Registry, a: seq<Value>, f: Value, b: seq<Value>, c: Contribution)
    ensures Times(reg, a + [f] + b, c) == Times(reg, a + b, c) + Gives(reg, f, c)
    decreases |b|
  {
    hide Times, Gives;
    if b == [] {
      assert a + [f] + b == a + [f] && a + b == a;
      TimesPush(reg, a, f, c);
    } else {
      var init, last := b[..|b| - 1], b[|b| - 1];
      assert b == init + [last];
      assert a + [f] + b == (a + [f] + init) + [last] && a + b == (a + init) + [last];
      TimesPush(reg, a + [f] + init, last, c);
      TimesPush(reg, a + init, last, c);
      TimesWithout(reg, a, f, init, c);
    }
  }

  lemma SplitAt<T>(xs: seq<T>, x: T) returns (a: seq<T>, b: seq<T>)
    requires x in xs
    ensures xs == a + [x] + b && multiset(a + b) == multiset(xs) - multiset{x}
  {
    var i :| 0 <= i < |xs| && xs[i] == x;
    a, b := xs[..i], xs[i + 1..];
    assert xs == a + [x] + b;
  }

  lemma {:induction false} TimesIgnoreOrder(reg: Registry, facts: seq<Value>, other: seq<Value>, c: Contribution)
    requires multiset(facts) == multiset(other)
    ensures Times(reg, facts, c) == Times(reg, other, c)
    decreases |facts|
  {
    assert |multiset(facts)| == |facts| && |multiset(other)| == |other|;
    if facts != [] {
      hide Times, Gives;
      var before, last := facts[..|facts| - 1], facts[|facts| - 1];
      assert facts == before + [last];
      assert last in multiset(other);
      var a, b := SplitAt(other, last);
      TimesPush(reg, before, last, c);
      TimesWithout(reg, a, last, b, c);
      assert multiset(before) == multiset(facts) - multiset{last};
      TimesIgnoreOrder(reg, before, a + b, c);
    }
  }

  lemma ContributionsIgnoreOrder(reg: Registry, facts: seq<Value>, other: seq<Value>)
    requires multiset(facts) == multiset(other)
    ensures AllContributions(reg, facts).Some? <==> AllContributions(reg, other).Some?
    ensures AllContributions(reg, facts).Some? ==>
              multiset(AllContributions(reg, facts).value) == multiset(AllContributions(reg, other).value)
  {
    hide Contributions, AllContributions;
    SameElements(facts, other);
    AllOrNone(reg, facts);
    AllOrNone(reg, other);
    if AllContributions(reg, facts).Some? {
      forall c: Contribution
        ensures multiset(AllContributions(reg, facts).value)[c] == multiset(AllContributions(reg, other).value)[c]
      {
        ContributionsCount(reg, facts, c);
        ContributionsCount(reg, other, c);
        TimesIgnoreOrder(reg, facts, other, c);
      }
    }
  }

  // ---------------------------------------------------------------------- candidates

  lemma {:induction false} ListedIgnoresOrder(keys: seq<Key>, a: seq<Contribution>, b: seq<Contribution>, digests: map<string, string>)
    requires multiset(a) == multiset(b)
    ensures Listed(keys, a, digests) == Listed(keys, b, digests)
  {
    hide Merged, RefsOf, CandidateFor;
    if keys != [] {
      var key := keys[|keys| - 1];
      ListedIgnoresOrder(keys[..|keys| - 1], a, b, digests);
      RefsIgnoreOrder(a, b, key);
      MergedIgnoresOrder(RefsOf(a, key), RefsOf(b, key));
    }
  }

  lemma CandidatesIgnoreOrder(x: seq<SignalCandidate>, y: seq<SignalCandidate>, a: seq<Contribution>, b: seq<Contribution>,
                              digests: map<string, string>, fpLe: (Value, Value) -> bool)
    requires TotalOrder(fpLe) && multiset(a) == multiset(b)
    requires CandidatesOf(x, a, digests, fpLe) && CandidatesOf(y, b, digests, fpLe)
    ensures x == y
  {
    KeyOrder(fpLe);
    SameElements(a, b);
    hide KeyLe, Listed, TotalOrder, Sorted, NoRepeat;
    var keys1 :| Sorted(keys1, ByKey(fpLe)) && NoRepeat(keys1) && (forall key :: key in keys1 <==> Contributed(a, key))
                 && x == Listed(keys1, a, digests);
    var keys2 :| Sorted(keys2, ByKey(fpLe)) && NoRepeat(keys2) && (forall key :: key in keys2 <==> Contributed(b, key))
                 && y == Listed(keys2, b, digests);
    forall key: Key ensures key in keys1 <==> key in keys2 {
      assert Contributed(a, key) <==> Contributed(b, key);
    }
    StrictlySortedIsUnique(keys1, keys2, ByKey(fpLe));
    ListedIgnoresOrder(keys1, a, b, digests);
  }

  /** Detection is order independent: for every permutation of the facts and of the reported coverage
      it succeeds alike and returns the same report, digest included. */
  lemma DetectionIgnoresOrder(r: Result<DetectionReport, DetectionError>, s: Result<DetectionReport, DetectionError>,
                              reg: Registry, changeId: string, facts: seq<Value>, other: seq<Value>, coverage: Value, coverage2: Value,
                              digests: map<string, string>, fpLe: (Value, Value) -> bool)
    requires TotalOrder(fpLe) && multiset(facts) == multiset(other) && SameReport(coverage, coverage2)
    requires Detects(r, reg, changeId, facts, coverage, digests, fpLe)
    requires Detects(s, reg, changeId, other, coverage2, digests, fpLe)
    ensures r.Ok? <==> s.Ok?
    ensures r.Ok? ==> r == s
  {
    hide AllContributions, CandidatesOf, GoodCoverage, CoverageOf, ReportDigest, TotalOrder, SameReport;
    CoverageIgnoresOrder(coverage, coverage2);
    ContributionsIgnoreOrder(reg, facts, other);
    if r.Ok? {
      CandidatesIgnoreOrder(r.value.candidates, s.value.candidates,
                            AllContributions(reg, facts).value, AllContributions(reg, other).value, digests, fpLe);
    }
  }

  /** Some contribution to a candidate names this evidence. */
  ghost predicate Evident(cs: seq<Contribution>, key: Key, ref: string) {
    exists c | c in cs :: c.key == key && ref in c.refs
  }

  lemma {:induction false} EvidentRefs(cs: seq<Contribution>, key: Key, ref: string)
    ensures InSome(RefsOf(cs, key), ref) <==> Evident(cs, key, ref)
  {
    if cs != [] {
      var before, last := cs[..|cs| - 1], cs[|cs| - 1];
      assert cs == before + [last];
      EvidentRefs(before, key, ref);
      InSomePush(RefsOf(before, key), last.refs, ref);
      assert Evident(cs, key, ref) <==> Evident(before, key, ref) || (last.key == key && ref in last.refs) by {
        assert forall c :: c in cs <==> c in before || c == last;
      }
      assert RefsOf(before, key) + [] == RefsOf(before, key);
    }
  }

  lemma {:induction false} ListedAt(keys: seq<Key>, cs: seq<Contribution>, digests: map<string, string>)
    ensures |Listed(keys, cs, digests)| == |keys|
    ensures forall i | 0 <= i < |keys| :: Listed(keys, cs, digests)[i] == CandidateFor(keys[i], Merged(RefsOf(cs, keys[i])), digests)
  {
    hide CandidateFor, Merged, RefsOf;
    if keys != [] {
      var before := keys[..|keys| - 1];
      ListedAt(before, cs, digests);
      assert forall i | 0 <= i < |before| :: keys[i] == before[i];
    }
  }

  /** The candidates of a report: one for each distinct signal and bindings that some fact names, in
      strictly increasing order, each with the union of the evidence of its facts, and with a
      repetition only where a lone fact repeats its own evidence. */
  lemma CandidatesMeaning(candidates: seq<SignalCandidate>, cs: seq<Contribution>, digests: map<string, string>, fpLe: (Value, Value) -> bool)
    requires CandidatesOf(candidates, cs, digests, fpLe)
    ensures forall i, j | 0 <= i < j < |candidates| ::
              candidates[i].key != candidates[j].key && KeyLe(fpLe, candidates[i].key, candidates[j].key)
    ensures forall key :: (exists i :: 0 <= i < |candidates| && candidates[i].key == key) <==> Contributed(cs, key)
    ensures forall i | 0 <= i < |candidates| ::
              && Sorted(candidates[i].refs, StringLe)
              && (forall ref :: ref in candidates[i].refs <==> Evident(cs, candidates[i].key, ref))
              && (NoRepeat(candidates[i].refs) <==>
                    |RefsOf(cs, candidates[i].key)| != 1 || NoRepeat(RefsOf(cs, candidates[i].key)[0]))
              && candidates[i].fingerprint == Fingerprint(candidates[i].key)
              && candidates[i].evidenceDigest == EvidenceDigest(candidates[i].refs, digests)
  {
    hide KeyLe, Merged, RefsOf, Contributed, Evident, Fingerprint, EvidenceDigest, StringLe;
    var keys :| Sorted(keys, ByKey(fpLe)) && NoRepeat(keys) && (forall key :: key in keys <==> Contributed(cs, key))
                && candidates == Listed(keys, cs, digests);
    ListedAt(keys, cs, digests);
    forall key: Key ensures (exists i :: 0 <= i < |candidates| && candidates[i].key == key) <==> Contributed(cs, key) {
      assert (exists i :: 0 <= i < |candidates| && candidates[i].key == key) <==> key in keys by {
        if key in keys {
          var i :| 0 <= i < |keys| && keys[i] == key;
          assert candidates[i].key == key;
        }
      }
    }
    forall i | 0 <= i < |candidates|
      ensures Sorted(candidates[i].refs, StringLe)
      ensures forall ref :: ref in candidates[i].refs <==> Evident(cs, candidates[i].key, ref)
      ensures NoRepeat(candidates[i].refs) <==>
                |RefsOf(cs, candidates[i].key)| != 1 || NoRepeat(RefsOf(cs, candidates[i].key)[0])
    {
      var key := candidates[i].key;
      MergedMeaning(RefsOf(cs, key));
      forall ref: string ensures ref in candidates[i].refs <==> Evident(cs, key, ref) {
        EvidentRefs(cs, key, ref);
      }
    }
    forall i, j | 0 <= i < j < |candidates|
      ensures candidates[i].key != candidates[j].key && KeyLe(fpLe, candidates[i].key, candidates[j].key)
    {
      assert candidates[i].key == keys[i] && candidates[j].key == keys[j];
      assert ByKey(fpLe)(keys[i], keys[j]);
    }
  }
}
