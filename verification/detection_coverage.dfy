/** Reading reported coverage, from src/detection.rs: what is accepted, and the sorted form of it.  A
    coverage record lists the artifacts that were analysed and the gaps that were left; both are read
    and sorted, no artifact may be listed twice, and the status must be the one the gaps call for.  The
    laws say that the order of the lists is immaterial and when the binder's own report is accepted.
  */
module DetectionCoverage {
  import opened Json
  import opened Sorting
  import opened Binder
  import opened BindingRecords
  import opened Observer

  const COVERAGE_FIELDS := {"status", "scope", "analyzed_refs", "gaps"}

  const UNREPORTED := Coverage("incomplete", "unknown", [],
                               [Gap("coverage-not-reported", None, "Detector coverage was not reported")])

  // -------------------------------------------------------------------------------- gaps

  function RefText(g: Gap): string {
    if g.ref.Some? then g.ref.value else ""
  }

  /** Gaps are ordered by kind, reference and reason, a missing reference counting as empty; an
      empty reference, which no accepted gap has, comes after a missing one. */
  predicate GapLe(g: Gap, h: Gap) {
    if g.kind != h.kind then StringLe(g.kind, h.kind)
    else if RefText(g) != RefText(h) then StringLe(RefText(g), RefText(h))
    else if g.reason != h.reason then StringLe(g.reason, h.reason)
    else g.ref.None? || h.ref.Some?
  }

  lemma GapOrder()
    ensures TotalOrder(GapLe)
  {
    StringOrder();
    hide StringLe;
    forall a: Gap, b: Gap, c: Gap | GapLe(a, b) && GapLe(b, c) ensures GapLe(a, c) {
      GapLeTransitive(a, b, c);
    }
  }

  lemma GapLeTransitive(a: Gap, b: Gap, c: Gap)
    requires GapLe(a, b) && GapLe(b, c)
    ensures GapLe(a, c)
  {
    StringOrder();
    hide StringLe;
  }

  predicate GoodGap(v: Value) {
    && v.Obj? && {"kind", "reason"} <= v.fields.Keys <= {"kind", "ref", "reason"}
    && forall field | field in v.fields :: NonEmpty(v.fields[field])
  }

  function GapOf(v: Value): Gap
    requires GoodGap(v)
  {
    Gap(v.fields["kind"].s, if "ref" in v.fields then Some(v.fields["ref"].s) else None, v.fields["reason"].s)
  }

  function Gaps(vs: seq<Value>): seq<Gap>
    requires forall v | v in vs :: GoodGap(v)
  {
    if vs == [] then [] else Gaps(vs[..|vs| - 1]) + [GapOf(vs[|vs| - 1])]
  }

  // --------------------------------------------------------------------------- coverage

  predicate AllStrings(vs: seq<Value>) {
    forall v | v in vs :: v.Str?
  }

  function Texts(vs: seq<Value>): seq<string>
    requires AllStrings(vs)
  {
    if vs == [] then [] else Texts(vs[..|vs| - 1]) + [vs[|vs| - 1].s]
  }

  /** Reported coverage that is accepted: nothing at all, or the four fields with distinct analyzed
      references and well-formed gaps, complete exactly when there is no gap. */
  predicate GoodCoverage(v: Value) {
    || v.Null?
    || (&& HasExactly(v, COVERAGE_FIELDS)
        && v.At("status") in {Str("complete"), Str("incomplete")}
        && NonEmpty(v.At("scope"))
        && v.At("analyzed_refs").Arr? && AllStrings(v.At("analyzed_refs").items) && NoRepeat(v.At("analyzed_refs").items)
        && v.At("gaps").Arr? && (forall g | g in v.At("gaps").items :: GoodGap(g))
        && (v.At("status") == Str("complete") <==> v.At("gaps").items == []))
  }

  function CoverageOf(v: Value): Coverage
    requires GoodCoverage(v)
  {
    if v.Null? then UNREPORTED
    else Coverage(v.At("status").s, v.At("scope").s,
                  Sort(Texts(v.At("analyzed_refs").items), StringLe), Sort(Gaps(v.At("gaps").items), GapLe))
  }

  datatype CoverageError = InvalidCoverage

  // ------------------------------------------------------------------------ list readers

  method ReadStrings(v: Value) returns (r: Result<seq<string>, CoverageError>)
    ensures r.Ok? <==> v.Arr? && AllStrings(v.items)
    ensures r.Ok? ==> r.value == Texts(v.items)
  {
    if !v.Arr? {
      return Err(InvalidCoverage);
    }
    var texts: seq<string> := [];
    for i := 0 to |v.items|
      invariant AllStrings(v.items[..i]) && texts == Texts(v.items[..i])
    {
      assert v.items[..i + 1][..i] == v.items[..i];
      assert v.items[..i + 1] == v.items[..i] + [v.items[i]];
      if !v.items[i].Str? {
        assert v.items[i] in v.items;
        return Err(InvalidCoverage);
      }
      texts := texts + [v.items[i].s];
    }
    assert v.items[..|v.items|] == v.items;
    return Ok(texts);
  }

  method ReadGaps(v: Value) returns (r: Result<seq<Gap>, CoverageError>)
    ensures r.Ok? <==> v.Arr? && forall g | g in v.items :: GoodGap(g)
    ensures r.Ok? ==> r.value == Gaps(v.items)
  {
    hide GoodGap;
    if !v.Arr? {
      return Err(InvalidCoverage);
    }
    var gaps: seq<Gap> := [];
    for i := 0 to |v.items|
      invariant forall g | g in v.items[..i] :: GoodGap(g)
      invariant gaps == Gaps(v.items[..i])
    {
      assert v.items[..i + 1][..i] == v.items[..i];
      assert v.items[..i + 1] == v.items[..i] + [v.items[i]];
      if !GoodGap(v.items[i]) {
        assert v.items[i] in v.items;
        return Err(InvalidCoverage);
      }
      gaps := gaps + [GapOf(v.items[i])];
    }
    assert v.items[..|v.items|] == v.items;
    return Ok(gaps);
  }

  /** `windows(2)` on a sorted list finds an equal pair exactly when there is a repetition. */
  method HasEqualNeighbours(xs: seq<string>) returns (found: bool)
    requires Sorted(xs, StringLe)
    ensures found <==> !NoRepeat(xs)
  {
    if xs == [] {
      return false;
    }
    hide StringLe;
    for i := 1 to |xs|
      invariant NoRepeat(xs[..i])
    {
      if xs[i - 1] == xs[i] {
        return true;
      }
      NewAfterNeighbour(xs, i);
      assert forall k | 0 <= k < i :: xs[..i + 1][k] == xs[..i][k];
    }
    assert xs[..|xs|] == xs;
    return false;
  }

  lemma NewAfterNeighbour(xs: seq<string>, i: nat)
    requires Sorted(xs, StringLe) && 1 <= i < |xs| && xs[i - 1] != xs[i]
    ensures forall k | 0 <= k < i :: xs[k] != xs[i]
  {
    hide StringLe;
    forall k | 0 <= k < i ensures xs[k] != xs[i] {
      assert StringLe(xs[k], xs[i - 1]) || k == i - 1;
      assert StringLe(xs[i - 1], xs[i]);
      StringLeTotal(xs[i - 1], xs[i]);
      StringLeTotal(xs[k], xs[i - 1]);
    }
  }

  lemma {:induction false} TextsRepeat(vs: seq<Value>)
    requires AllStrings(vs)
    ensures |Texts(vs)| == |vs| && forall i | 0 <= i < |vs| :: vs[i] == Str(Texts(vs)[i])
  {
    if vs != [] {
      var before, last := vs[..|vs| - 1], vs[|vs| - 1];
      assert last in vs && last == Str(last.s);
      TextsRepeat(before);
      forall i | 0 <= i < |vs| ensures vs[i] == Str(Texts(vs)[i]) {
        assert i < |before| ==> vs[i] == before[i];
      }
    }
  }

  lemma {:induction false} RepeatIsCounted<T>(xs: seq<T>)
    ensures NoRepeat(xs) <==> forall x | x in xs :: multiset(xs)[x] == 1
  {
    if xs != [] {
      var before, last := xs[..|xs| - 1], xs[|xs| - 1];
      assert xs == before + [last];
      RepeatIsCounted(before);
      assert NoRepeat(xs) <==> NoRepeat(before) && last !in before by {
        assert forall i | 0 <= i < |before| :: xs[i] == before[i];
        if NoRepeat(xs) {
          assert forall i | 0 <= i < |before| :: xs[i] != xs[|before|];
        }
      }
      assert multiset(xs)[last] == multiset(before)[last] + 1;
      assert forall x | x in before && x != last :: multiset(xs)[x] == multiset(before)[x];
    }
  }

  lemma RepetitionIgnoresOrder<T>(xs: seq<T>, ys: seq<T>)
    requires multiset(xs) == multiset(ys)
    ensures NoRepeat(xs) <==> NoRepeat(ys)
  {
    RepeatIsCounted(xs);
    RepeatIsCounted(ys);
    assert forall x :: x in xs <==> x in multiset(xs);
    assert forall x :: x in ys <==> x in multiset(ys);
  }

  /** `detection_coverage` */
  method ReadCoverage(v: Value) returns (r: Result<Coverage, CoverageError>)
    ensures r.Ok? <==> GoodCoverage(v)
    ensures r.Ok? ==> r.value == CoverageOf(v)
  {
    hide GoodGap, Sort, Gaps, Texts;
    if v.Null? {
      return Ok(UNREPORTED);
    }
    if !v.Obj? || v.fields.Keys != COVERAGE_FIELDS || v.At("status") !in {Str("complete"), Str("incomplete")} || !NonEmpty(v.At("scope")) {
      return Err(InvalidCoverage);
    }
    var texts := ReadStrings(v.At("analyzed_refs"));
    if texts.Err? {
      return Err(InvalidCoverage);
    }
    StringOrder();
    SortIsSorted(texts.value, StringLe);
    var analyzed := Sort(texts.value, StringLe);
    var repeated := HasEqualNeighbours(analyzed);
    RepetitionIgnoresOrder(analyzed, texts.value);
    TextsRepeat(v.At("analyzed_refs").items);
    if repeated {
      return Err(InvalidCoverage);
    }
    var gaps := ReadGaps(v.At("gaps"));
    if gaps.Err? {
      return Err(InvalidCoverage);
    }
    GapsLength(v.At("gaps").items);
    var status := v.At("status").s;
    if (status == "complete" && gaps.value != []) || (status == "incomplete" && gaps.value == []) {
      return Err(InvalidCoverage);
    }
    return Ok(Coverage(status, v.At("scope").s, analyzed, Sort(gaps.value, GapLe)));
  }

  lemma {:induction false} GapsLength(vs: seq<Value>)
    requires forall v | v in vs :: GoodGap(v)
    ensures |Gaps(vs)| == |vs|
  {
    if vs != [] {
      GapsLength(vs[..|vs| - 1]);
    }
  }

  // ---------------------------------------------------------------- order independence

  /** The same report with its lists in another order. */
  ghost predicate SameReport(v: Value, w: Value) {
    v == w ||
    (&& v.Obj? && w.Obj? && v.fields.Keys == w.fields.Keys
     && v.At("status") == w.At("status") && v.At("scope") == w.At("scope")
     && v.At("analyzed_refs").Arr? && w.At("analyzed_refs").Arr?
     && multiset(v.At("analyzed_refs").items) == multiset(w.At("analyzed_refs").items)
     && v.At("gaps").Arr? && w.At("gaps").Arr?
     && multiset(v.At("gaps").items) == multiset(w.At("gaps").items))
  }

  lemma {:induction false} TextsCount(vs: seq<Value>, s: string)
    requires AllStrings(vs)
    ensures multiset(Texts(vs))[s] == multiset(vs)[Str(s)]
  {
    if vs != [] {
      var before, last := vs[..|vs| - 1], vs[|vs| - 1];
      assert vs == before + [last];
      assert last in vs && last == Str(last.s);
      TextsCount(before, s);
    }
  }

  function GapValue(g: Gap): Value {
    if g.ref.Some? then Obj(map["kind" := Str(g.kind), "ref" := Str(g.ref.value), "reason" := Str(g.reason)])
    else Obj(map["kind" := Str(g.kind), "reason" := Str(g.reason)])
  }

  lemma GapRoundTrip(v: Value, g: Gap)
    requires GoodGap(v)
    ensures GapOf(v) == g <==> v == GapValue(g)
  {
    var w := GapValue(GapOf(v));
    assert w.fields.Keys == v.fields.Keys;
    assert forall f | f in v.fields :: w.fields[f] == v.fields[f];
    assert w.fields == v.fields;
  }

  lemma {:induction false} GapsCount(vs: seq<Value>, g: Gap)
    requires forall v | v in vs :: GoodGap(v)
    ensures multiset(Gaps(vs))[g] == multiset(vs)[GapValue(g)]
  {
    hide GoodGap, GapOf, GapValue;
    if vs != [] {
      var before, last := vs[..|vs| - 1], vs[|vs| - 1];
      assert vs == before + [last];
      GapRoundTrip(last, g);
      GapsCount(before, g);
    }
  }

  /** Whether coverage is accepted, and what it is read as, does not depend on the order of its
      analyzed references and gaps. */
  lemma CoverageIgnoresOrder(v: Value, w: Value)
    requires SameReport(v, w)
    ensures GoodCoverage(v) <==> GoodCoverage(w)
    ensures GoodCoverage(v) ==> CoverageOf(v) == CoverageOf(w)
  {
    if v != w {
      hide GoodGap, Sort, GapOf, TotalOrder, NoRepeat, Gaps, Texts;
      var a, b, c, d := v.At("analyzed_refs").items, w.At("analyzed_refs").items, v.At("gaps").items, w.At("gaps").items;
      RepetitionIgnoresOrder(a, b);
      SameElements(a, b);
      SameElements(c, d);
      assert |multiset(c)| == |c| && |multiset(d)| == |d|;
      if GoodCoverage(v) {
        SortedTextsAgree(a, b);
        SortedGapsAgree(c, d);
      }
    }
  }

  lemma SortedTextsAgree(a: seq<Value>, b: seq<Value>)
    requires AllStrings(a) && AllStrings(b) && multiset(a) == multiset(b)
    ensures Sort(Texts(a), StringLe) == Sort(Texts(b), StringLe)
  {
    hide Texts, Sort, StringLe, TotalOrder;
    forall s: string ensures multiset(Texts(a))[s] == multiset(Texts(b))[s] {
      TextsCount(a, s);
      TextsCount(b, s);
    }
    StringOrder();
    SortOfPermutation(Texts(a), Texts(b), StringLe);
  }

  lemma SortedGapsAgree(c: seq<Value>, d: seq<Value>)
    requires (forall g | g in c :: GoodGap(g)) && (forall g | g in d :: GoodGap(g)) && multiset(c) == multiset(d)
    ensures Sort(Gaps(c), GapLe) == Sort(Gaps(d), GapLe)
  {
    hide Gaps, Sort, GapLe, TotalOrder, GoodGap, GapValue;
    forall g: Gap ensures multiset(Gaps(c))[g] == multiset(Gaps(d))[g] {
      GapsCount(c, g);
      GapsCount(d, g);
    }
    GapOrder();
    SortOfPermutation(Gaps(c), Gaps(d), GapLe);
  }

  lemma SameElements<T>(xs: seq<T>, ys: seq<T>)
    requires multiset(xs) == multiset(ys)
    ensures forall x :: x in xs <==> x in ys
  {
    assert forall x :: x in xs <==> x in multiset(xs);
    assert forall x :: x in ys <==> x in multiset(ys);
  }

  // ------------------------------------------------------- coverage from repository observation

  function Map<A, B>(f: A -> B, xs: seq<A>): seq<B> {
    seq(|xs|, i requires 0 <= i < |xs| => f(xs[i]))
  }

  /** The coverage value that observation reports. */
  function CoverageValue(c: Coverage): Value {
    Obj(map["status" := Str(c.status), "scope" := Str(c.scope),
            "analyzed_refs" := Arr(Map(s => Str(s), c.analyzed)),
            "gaps" := Arr(Map(GapValue, c.gaps))])
  }

  lemma {:induction false} AnalyzedAreDistinct(ds: seq<Declaration>)
    requires DistinctDeclarations(ds)
    ensures NoRepeat(AnalyzedRefs(ds))
    ensures forall r | r in AnalyzedRefs(ds) :: exists d | d in ds :: d.ref == r
  {
    if ds != [] {
      var before, last := ds[..|ds| - 1], ds[|ds| - 1];
      assert ds == before + [last];
      assert forall i | 0 <= i < |before| :: ds[i] == before[i];
      AnalyzedAreDistinct(before);
      assert last.ref !in AnalyzedRefs(before) by {
        assert forall i | 0 <= i < |before| :: before[i].ref != ds[|before|].ref;
      }
    }
  }

  lemma GapValueIsGood(g: Gap)
    requires WellFormedGap(g, false)
    ensures GoodGap(GapValue(g))
  {}

  /** Every coverage that observation of distinct declarations produces is accepted, given that no
      parse message is empty. */
  lemma ObservedCoverageIsAccepted(ds: seq<Declaration>, c: Coverage)
    requires DistinctDeclarations(ds) && c.analyzed == AnalyzedRefs(ds) && c.scope == "git-source-roots"
    requires c.status == if c.gaps == [] then "complete" else "incomplete"
    requires forall gap | gap in c.gaps :: WellFormedGap(gap, false)
    ensures GoodCoverage(CoverageValue(c))
    ensures CoverageOf(CoverageValue(c)).status == c.status
  {
    AnalyzedAreDistinct(ds);
    hide GoodGap, AnalyzedRefs, GapValue;
    var v := CoverageValue(c);
    forall g | g in v.At("gaps").items ensures GoodGap(g) {
      var i :| 0 <= i < |c.gaps| && GapValue(c.gaps[i]) == g;
      GapValueIsGood(c.gaps[i]);
    }
    assert v.fields.Keys == COVERAGE_FIELDS;
    var items := v.At("analyzed_refs").items;
    assert forall i | 0 <= i < |items| :: items[i] == Str(c.analyzed[i]);
  }

  /** An empty parse message is what breaks it: such a gap is not accepted. */
  lemma EmptyMessageIsRefused(c: Coverage, gap: Gap)
    requires gap in c.gaps && gap.reason == ""
    ensures !GoodCoverage(CoverageValue(c))
  {
    var i :| 0 <= i < |c.gaps| && c.gaps[i] == gap;
    var items := CoverageValue(c).At("gaps").items;
    assert items[i] == GapValue(gap);
    assert !GoodGap(items[i]) by {
      assert items[i].fields["reason"] == Str("");
    }
    assert items[i] in items;
  }
}
