/** What the clause merge means: it is the pointwise three-way merge of clause IDs, disjoint
    patches commute, and replaying a patch that changed something is refused.
  */
module ContractMergeLaws {
  import opened Json
  import opened ContractMerge

  /** The decision the merge takes for one ID. */
  function Decide(cs: seq<Value>, sent: seq<Value>, base: map<string, Value>, id: string)
    : Result<Option<Value>, MergeError>
  {
    MergeOne(Find(cs, id), Find(sent, id), Lookup(base, id))
  }

  lemma DecisionKeepsId(cs: seq<Value>, sent: seq<Value>, base: map<string, Value>, id: string)
    ensures Decide(cs, sent, base, id).Ok? && Decide(cs, sent, base, id).value.Some? ==>
              IdOf(Decide(cs, sent, base, id).value.value) == Some(id)
  {
    FindSome(cs, id);
    FindSome(sent, id);
  }

  lemma {:induction false} SurvivorsPointwise(cs: seq<Value>, sent: seq<Value>, base: map<string, Value>)
    requires Indexed(cs)
    ensures Survivors(cs, sent, base).Ok? <==>
            forall id :: Find(cs, id).Some? ==> Decide(cs, sent, base, id).Ok?
    ensures Survivors(cs, sent, base).Ok? ==>
              var kept := Survivors(cs, sent, base).value;
              && Indexed(kept)
              && forall id :: Find(kept, id) == if Find(cs, id).Some? then Decide(cs, sent, base, id).value else None
  {
    if cs != [] {
      var before, c := cs[..|cs| - 1], cs[|cs| - 1];
      var own := IdOf(c).value;
      assert cs == before + [c];
      IndexedAppend(before, c);
      SurvivorsPointwise(before, sent, base);
      forall id: string ensures Find(cs, id) == if id == own then Some(c) else Find(before, id) {
        FindAppend(before, [c], id);
      }
      DecisionKeepsId(cs, sent, base, own);
      var b := Survivors(before, sent, base);
      assert Decide(cs, sent, base, own) == MergeOne(Some(c), Find(sent, own), Lookup(base, own));
      forall id: string | id != own ensures Decide(cs, sent, base, id) == Decide(before, sent, base, id) {}
      if b.Err? {
        var bad :| Find(before, bad).Some? && Decide(before, sent, base, bad).Err?;
        assert Find(cs, bad).Some? && Decide(cs, sent, base, bad).Err?;
      } else if Decide(cs, sent, base, own).Ok? && Decide(cs, sent, base, own).value.Some? {
        var v := Decide(cs, sent, base, own).value.value;
        IndexedAppend(b.value, v);
        forall id: string
          ensures Find(b.value + [v], id) == if Find(cs, id).Some? then Decide(cs, sent, base, id).value else None
        {
          FindAppend(b.value, [v], id);
        }
      }
    }
  }

  lemma {:induction false} AdditionsPointwise(cs: seq<Value>, sent: seq<Value>)
    requires Indexed(sent)
    ensures Indexed(Additions(cs, sent))
    ensures forall id :: Find(Additions(cs, sent), id) == if Find(cs, id).None? then Find(sent, id) else None
  {
    if sent != [] {
      var before, p := sent[..|sent| - 1], sent[|sent| - 1];
      assert sent == before + [p];
      IndexedAppend(before, p);
      AdditionsPointwise(cs, before);
      IndexedAppend(Additions(cs, before), p);
      forall id: string
        ensures Find(Additions(cs, sent), id) == if Find(cs, id).None? then Find(sent, id) else None
      {
        FindAppend(before, [p], id);
        FindAppend(Additions(cs, before), [p], id);
      }
    }
  }

  /** The merge succeeds exactly when every ID is free of conflict, and then gives every ID
      the value of its own three-way merge. */
  lemma MergeIsPointwise(cs: seq<Value>, sent: seq<Value>, base: map<string, Value>)
    requires Indexed(cs) && Indexed(sent)
    ensures MergeClauses(cs, sent, base).Ok? <==> forall id :: Decide(cs, sent, base, id).Ok?
    ensures MergeClauses(cs, sent, base).Ok? ==>
              var merged := MergeClauses(cs, sent, base).value;
              && Indexed(merged)
              && forall id :: Find(merged, id) == Decide(cs, sent, base, id).value
  {
    SurvivorsPointwise(cs, sent, base);
    AdditionsPointwise(cs, sent);
    if missing :| missing in base && Find(cs, missing).None? {
      assert Decide(cs, sent, base, missing).Err?;
    } else if Survivors(cs, sent, base).Err? {
      var bad :| Find(cs, bad).Some? && Decide(cs, sent, base, bad).Err?;
    } else {
      var kept, added := Survivors(cs, sent, base).value, Additions(cs, sent);
      forall id: string
        ensures Decide(cs, sent, base, id).Ok?
        ensures Find(kept + added, id) == Decide(cs, sent, base, id).value
      {
        FindAppend(kept, added, id);
      }
      IndexedConcat(kept, added);
    }
  }

  lemma IndexedConcat(xs: seq<Value>, ys: seq<Value>)
    requires Indexed(xs) && Indexed(ys)
    requires forall id :: Find(xs, id).None? || Find(ys, id).None?
    ensures Indexed(xs + ys)
  {
    forall i, j | 0 <= i < j < |xs + ys| ensures IdOf((xs + ys)[i]) != IdOf((xs + ys)[j]) {
      if i < |xs| <= j {
        FindHit(xs, i);
        FindHit(ys, j - |xs|);
      }
    }
  }

  // ------------------------------------------------------------------------- order

  /** The IDs that a clause list still holds, in the given order. */
  function Present(ids: seq<string>, cs: seq<Value>): seq<string> {
    if ids == [] then []
    else
      var before := Present(ids[..|ids| - 1], cs);
      if Find(cs, ids[|ids| - 1]).Some? then before + [ids[|ids| - 1]] else before
  }

  function Absent(ids: seq<string>, cs: seq<Value>): seq<string> {
    if ids == [] then []
    else
      var before := Absent(ids[..|ids| - 1], cs);
      if Find(cs, ids[|ids| - 1]).None? then before + [ids[|ids| - 1]] else before
  }

  lemma {:induction false} PresentAgrees(ids: seq<string>, xs: seq<Value>, ys: seq<Value>)
    requires forall i | 0 <= i < |ids| :: Find(xs, ids[i]).Some? <==> Find(ys, ids[i]).Some?
    ensures Present(ids, xs) == Present(ids, ys)
  {
    if ids != [] {
      PresentAgrees(ids[..|ids| - 1], xs, ys);
    }
  }

  lemma IdsAppend(cs: seq<Value>, c: Value)
    requires IdOf(c).Some? && Indexed(cs + [c]) && Indexed(cs)
    ensures Ids(cs + [c]) == Ids(cs) + [IdOf(c).value]
  {
    assert forall i | 0 <= i < |cs| :: (cs + [c])[i] == cs[i];
  }

  lemma {:induction false} SurvivorsOrder(cs: seq<Value>, sent: seq<Value>, base: map<string, Value>)
    requires Indexed(cs) && Survivors(cs, sent, base).Ok?
    ensures var kept := Survivors(cs, sent, base).value; Indexed(kept) && Ids(kept) == Present(Ids(cs), kept)
  {
    SurvivorsPointwise(cs, sent, base);
    var kept := Survivors(cs, sent, base).value;
    if cs != [] {
      var before, c := cs[..|cs| - 1], cs[|cs| - 1];
      var own := IdOf(c).value;
      assert cs == before + [c];
      IndexedAppend(before, c);
      IdsAppend(before, c);
      SurvivorsPointwise(before, sent, base);
      SurvivorsOrder(before, sent, base);
      DecisionKeepsId(cs, sent, base, own);
      FindAppend(before, [c], own);
      var b := Survivors(before, sent, base).value;
      assert Ids(cs)[..|cs| - 1] == Ids(before);
      forall i | 0 <= i < |Ids(before)| ensures Find(b, Ids(before)[i]).Some? <==> Find(kept, Ids(before)[i]).Some? {
        FindAppend(b, kept[|b|..], Ids(before)[i]);
        assert kept == b + kept[|b|..];
        assert IdOf(before[i]) != IdOf(c);
      }
      PresentAgrees(Ids(before), b, kept);
      if |kept| > |b| {
        assert kept[..|b|] == b && kept == b + [kept[|b|]];
        IdsAppend(b, kept[|b|]);
        FindHit(kept, |b|);
      }
    }
  }

  lemma {:induction false} AdditionsOrder(cs: seq<Value>, sent: seq<Value>)
    requires Indexed(sent)
    ensures Indexed(Additions(cs, sent)) && Ids(Additions(cs, sent)) == Absent(Ids(sent), cs)
  {
    AdditionsPointwise(cs, sent);
    if sent != [] {
      var before, p := sent[..|sent| - 1], sent[|sent| - 1];
      assert sent == before + [p];
      IndexedAppend(before, p);
      IdsAppend(before, p);
      AdditionsPointwise(cs, before);
      AdditionsOrder(cs, before);
      assert Ids(sent)[..|sent| - 1] == Ids(before);
      if Find(cs, IdOf(p).value).None? {
        IdsAppend(Additions(cs, before), p);
      }
    }
  }

  /** Surviving clauses keep their order and the additions follow in patch order. */
  lemma MergeOrder(cs: seq<Value>, sent: seq<Value>, base: map<string, Value>)
    requires Indexed(cs) && Indexed(sent) && MergeClauses(cs, sent, base).Ok?
    ensures var merged := MergeClauses(cs, sent, base).value;
            Indexed(merged) && Ids(merged) == Present(Ids(cs), merged) + Absent(Ids(sent), cs)
  {
    MergedParts(cs, sent, base);
    MergeIsPointwise(cs, sent, base);
    SurvivorsOrder(cs, sent, base);
    AdditionsOrder(cs, sent);
    var kept, added := Survivors(cs, sent, base).value, Additions(cs, sent);
    hide *;
    IdsConcat(kept, added);
    PresentAgrees(Ids(cs), kept, kept + added);
  }

  /** An addition never takes the ID of a stored clause. */
  lemma MergedParts(cs: seq<Value>, sent: seq<Value>, base: map<string, Value>)
    requires Indexed(cs) && Indexed(sent) && MergeClauses(cs, sent, base).Ok?
    ensures Survivors(cs, sent, base).Ok?
    ensures MergeClauses(cs, sent, base).value == Survivors(cs, sent, base).value + Additions(cs, sent)
    ensures var kept, added := Survivors(cs, sent, base).value, Additions(cs, sent);
            forall i | 0 <= i < |Ids(cs)| :: Find(kept, Ids(cs)[i]).Some? <==> Find(kept + added, Ids(cs)[i]).Some?
  {
    AdditionsPointwise(cs, sent);
    hide Survivors, Additions, Decide, MergeOne, Find;
    var kept, added := Survivors(cs, sent, base).value, Additions(cs, sent);
    forall i | 0 <= i < |Ids(cs)| ensures Find(kept, Ids(cs)[i]).Some? <==> Find(kept + added, Ids(cs)[i]).Some? {
      FindAppend(kept, added, Ids(cs)[i]);
      FindHit(cs, i);
    }
  }

  lemma IdsConcat(xs: seq<Value>, ys: seq<Value>)
    requires Indexed(xs) && Indexed(ys) && Indexed(xs + ys)
    ensures Ids(xs + ys) == Ids(xs) + Ids(ys)
  {}

  /** A clause list is determined by the order of its IDs and the clause each ID finds. */
  lemma SameIdsSameClauses(xs: seq<Value>, ys: seq<Value>)
    requires Indexed(xs) && Indexed(ys)
    requires Ids(xs) == Ids(ys)
    requires forall id :: Find(xs, id) == Find(ys, id)
    ensures xs == ys
  {
    assert |xs| == |Ids(xs)| == |Ids(ys)| == |ys|;
    forall i | 0 <= i < |xs| ensures xs[i] == ys[i] {
      FindHit(xs, i);
      FindHit(ys, i);
      assert Ids(xs)[i] == Ids(ys)[i];
    }
  }

  // ------------------------------------------------------------- three-way refinement

  /** The textbook three-way merge of one ID against the value `b` the client started from. */
  function ThreeWay(current: Option<Value>, sent: Option<Value>, b: Value): Option<Option<Value>> {
    if current.None? then None
    else if sent == Some(b) then Some(current)
    else if current == Some(b) then Some(sent)
    else None
  }

  /** A client that expects the digest of the value it read gets exactly the three-way merge
      of that value, its own value and the current one: only the digest crosses the wire. */
  lemma DigestMergeIsThreeWay(current: Option<Value>, sent: Option<Value>, b: Value)
    requires current.Some? ==> Canonical(current.value)
    requires sent.Some? ==> Canonical(sent.value)
    ensures MergeOne(current, sent, Some(Digest(b))).Ok? <==> ThreeWay(current, sent, b).Some?
    ensures MergeOne(current, sent, Some(Digest(b))).Ok? ==>
              MergeOne(current, sent, Some(Digest(b))).value == ThreeWay(current, sent, b).value
  {}

  // ------------------------------------------------------------------- commutation

  datatype Patch = Patch(sent: seq<Value>, base: map<string, Value>)

  ghost predicate Touches(p: Patch, id: string) {
    Find(p.sent, id).Some? || id in p.base
  }

  lemma {:induction false} AbsentAgrees(ids: seq<string>, xs: seq<Value>, ys: seq<Value>)
    requires forall i | 0 <= i < |ids| :: Find(xs, ids[i]).Some? <==> Find(ys, ids[i]).Some?
    ensures Absent(ids, xs) == Absent(ids, ys)
  {
    if ids != [] {
      AbsentAgrees(ids[..|ids| - 1], xs, ys);
    }
  }

  function Merged(cs: seq<Value>, p: Patch): Result<seq<Value>, MergeError>
    requires Indexed(cs) && Indexed(p.sent)
  {
    MergeClauses(cs, p.sent, p.base)
  }

  lemma UntouchedIdStays(cs: seq<Value>, p: Patch, id: string)
    requires Indexed(cs) && Indexed(p.sent) && Merged(cs, p).Ok?
    requires !Touches(p, id)
    ensures Find(Merged(cs, p).value, id) == Find(cs, id)
  {
    MergeIsPointwise(cs, p.sent, p.base);
    assert Find(Merged(cs, p).value, id) == Decide(cs, p.sent, p.base, id).value;
  }

  lemma DisjointStillSucceeds(cs: seq<Value>, p: Patch, q: Patch)
    requires Indexed(cs) && Indexed(p.sent) && Indexed(q.sent)
    requires forall id :: !(Touches(p, id) && Touches(q, id))
    requires Merged(cs, p).Ok? && Merged(cs, q).Ok?
    ensures Indexed(Merged(cs, p).value) && Merged(Merged(cs, p).value, q).Ok?
    ensures forall id :: Find(Merged(Merged(cs, p).value, q).value, id) ==
                         if Touches(q, id) then Find(Merged(cs, q).value, id) else Find(Merged(cs, p).value, id)
  {
    MergeIsPointwise(cs, p.sent, p.base);
    MergeIsPointwise(cs, q.sent, q.base);
    var first := Merged(cs, p).value;
    MergeIsPointwise(first, q.sent, q.base);
    forall id: string
      ensures Decide(first, q.sent, q.base, id).Ok?
      ensures Decide(first, q.sent, q.base, id).value ==
              if Touches(q, id) then Find(Merged(cs, q).value, id) else Find(first, id)
    {
      if Touches(q, id) {
        assert !Touches(p, id);
        UntouchedIdStays(cs, p, id);
        assert Decide(cs, q.sent, q.base, id).Ok?;
        assert Find(Merged(cs, q).value, id) == Decide(cs, q.sent, q.base, id).value;
      }
    }
  }

  /** Patches that touch disjoint IDs and each succeed also succeed after one another, and
      both orders give every ID the same clause. */
  lemma DisjointPatchesCommute(cs: seq<Value>, p: Patch, q: Patch)
    requires Indexed(cs) && Indexed(p.sent) && Indexed(q.sent)
    requires forall id :: !(Touches(p, id) && Touches(q, id))
    requires Merged(cs, p).Ok? && Merged(cs, q).Ok?
    ensures Indexed(Merged(cs, p).value) && Merged(Merged(cs, p).value, q).Ok?
    ensures Indexed(Merged(cs, q).value) && Merged(Merged(cs, q).value, p).Ok?
    ensures forall id :: Find(Merged(Merged(cs, p).value, q).value, id) ==
                         Find(Merged(Merged(cs, q).value, p).value, id)
  {
    DisjointStillSucceeds(cs, p, q);
    DisjointStillSucceeds(cs, q, p);
    forall id: string
      ensures Find(Merged(Merged(cs, p).value, q).value, id) == Find(Merged(Merged(cs, q).value, p).value, id)
    {
      if !Touches(p, id) {
        UntouchedIdStays(cs, p, id);
      }
      if !Touches(q, id) {
        UntouchedIdStays(cs, q, id);
      }
    }
  }

  ghost predicate AddsNothing(cs: seq<Value>, p: Patch) {
    forall i | 0 <= i < |p.sent| :: IdOf(p.sent[i]).Some? ==> Find(cs, IdOf(p.sent[i]).value).Some?
  }

  lemma {:induction false} AbsentNone(ids: seq<string>, cs: seq<Value>)
    requires forall i | 0 <= i < |ids| :: Find(cs, ids[i]).Some?
    ensures Absent(ids, cs) == []
  {
    if ids != [] {
      AbsentNone(ids[..|ids| - 1], cs);
    }
  }

  lemma {:induction false} PresentNested(ids: seq<string>, outer: seq<Value>, inner: seq<Value>)
    requires forall i | 0 <= i < |ids| :: Find(inner, ids[i]).Some? ==> Find(outer, ids[i]).Some?
    ensures Present(Present(ids, outer), inner) == Present(ids, inner)
  {
    if ids != [] {
      var last := ids[|ids| - 1];
      PresentNested(ids[..|ids| - 1], outer, inner);
      if Find(outer, last).Some? {
        assert Present(ids, outer)[..|Present(ids, outer)| - 1] == Present(ids[..|ids| - 1], outer);
      }
    }
  }

  lemma {:induction false} PresentConcat(xs: seq<string>, ys: seq<string>, cs: seq<Value>)
    ensures Present(xs + ys, cs) == Present(xs, cs) + Present(ys, cs)
  {
    if ys == [] {
      assert xs + ys == xs;
    } else {
      assert (xs + ys)[..|xs + ys| - 1] == xs + ys[..|ys| - 1];
      PresentConcat(xs, ys[..|ys| - 1], cs);
    }
  }

  lemma {:induction false} PresentAll(ids: seq<string>, cs: seq<Value>)
    requires forall i | 0 <= i < |ids| :: Find(cs, ids[i]).Some?
    ensures Present(ids, cs) == ids
  {
    if ids != [] {
      PresentAll(ids[..|ids| - 1], cs);
      assert ids == ids[..|ids| - 1] + [ids[|ids| - 1]];
    }
  }

  lemma {:induction false} AbsentMember(ids: seq<string>, cs: seq<Value>)
    ensures forall id | id in Absent(ids, cs) :: id in ids && Find(cs, id).None?
  {
    if ids != [] {
      AbsentMember(ids[..|ids| - 1], cs);
    }
  }

  lemma PresentTwice(cs: seq<Value>, p: Patch, q: Patch)
    requires Indexed(cs) && Indexed(p.sent) && Indexed(q.sent)
    requires forall id :: !(Touches(p, id) && Touches(q, id))
    requires Merged(cs, p).Ok? && Merged(cs, q).Ok?
    ensures Indexed(Merged(cs, p).value) && Merged(Merged(cs, p).value, q).Ok?
    ensures var mp := Merged(cs, p).value;
            var pq := Merged(mp, q).value;
            Present(Present(Ids(cs), mp), pq) == Present(Ids(cs), pq)
  {
    KeptIdsNest(cs, p, q);
    PresentNested(Ids(cs), Merged(cs, p).value, Merged(Merged(cs, p).value, q).value);
  }

  lemma IdsPThenQ(cs: seq<Value>, p: Patch, q: Patch)
    requires Indexed(cs) && Indexed(p.sent) && Indexed(q.sent)
    requires forall id :: !(Touches(p, id) && Touches(q, id))
    requires Merged(cs, p).Ok? && Merged(cs, q).Ok? && AddsNothing(cs, q)
    ensures Indexed(Merged(cs, p).value) && Merged(Merged(cs, p).value, q).Ok?
    ensures var pq := Merged(Merged(cs, p).value, q).value;
            Indexed(pq) && Ids(pq) == Present(Ids(cs), pq) + Absent(Ids(p.sent), cs)
  {
    DisjointStillSucceeds(cs, p, q);
    var mp := Merged(cs, p).value;
    var pq := Merged(mp, q).value;
    MergeOrder(cs, p.sent, p.base);
    MergeOrder(mp, q.sent, q.base);
    QAddsNothingAfter(cs, p, q);
    var added := Absent(Ids(p.sent), cs);
    AddedIdsSurvive(cs, p, q);
    PresentConcat(Present(Ids(cs), mp), added, pq);
    PresentAll(added, pq);
    PresentTwice(cs, p, q);
  }

  lemma IdsQThenP(cs: seq<Value>, p: Patch, q: Patch)
    requires Indexed(cs) && Indexed(p.sent) && Indexed(q.sent)
    requires forall id :: !(Touches(p, id) && Touches(q, id))
    requires Merged(cs, p).Ok? && Merged(cs, q).Ok? && AddsNothing(cs, q)
    ensures Indexed(Merged(cs, q).value) && Merged(Merged(cs, q).value, p).Ok?
    ensures var qp := Merged(Merged(cs, q).value, p).value;
            Indexed(qp) && Ids(qp) == Present(Ids(cs), qp) + Absent(Ids(p.sent), cs)
  {
    DisjointStillSucceeds(cs, q, p);
    var mq := Merged(cs, q).value;
    var qp := Merged(mq, p).value;
    MergeOrder(cs, q.sent, q.base);
    MergeOrder(mq, p.sent, p.base);
    QAddsNothingAfter(cs, p, q);
    assert Ids(mq) == Present(Ids(cs), mq);
    PresentTwice(cs, q, p);
  }

  /** When `q` adds no clause, both orders give the same clause list, order included. */
  lemma DisjointPatchesCommuteInOrder(cs: seq<Value>, p: Patch, q: Patch)
    requires Indexed(cs) && Indexed(p.sent) && Indexed(q.sent)
    requires forall id :: !(Touches(p, id) && Touches(q, id))
    requires Merged(cs, p).Ok? && Merged(cs, q).Ok?
    requires AddsNothing(cs, q)
    ensures Indexed(Merged(cs, p).value) && Indexed(Merged(cs, q).value)
    ensures Merged(Merged(cs, p).value, q).Ok?
    ensures Merged(Merged(cs, p).value, q) == Merged(Merged(cs, q).value, p)
  {
    DisjointPatchesCommute(cs, p, q);
    IdsPThenQ(cs, p, q);
    IdsQThenP(cs, p, q);
    var pq, qp := Merged(Merged(cs, p).value, q).value, Merged(Merged(cs, q).value, p).value;
    PresentAgrees(Ids(cs), pq, qp);
    SameIdsSameClauses(pq, qp);
  }

  lemma QAddsNothingAfter(cs: seq<Value>, p: Patch, q: Patch)
    requires Indexed(cs) && Indexed(p.sent) && Indexed(q.sent)
    requires forall id :: !(Touches(p, id) && Touches(q, id))
    requires Merged(cs, p).Ok? && Merged(cs, q).Ok? && AddsNothing(cs, q)
    ensures Absent(Ids(q.sent), cs) == [] && Absent(Ids(q.sent), Merged(cs, p).value) == []
    ensures Absent(Ids(p.sent), Merged(cs, q).value) == Absent(Ids(p.sent), cs)
  {
    forall i | 0 <= i < |q.sent|
      ensures Find(cs, Ids(q.sent)[i]).Some? && Find(Merged(cs, p).value, Ids(q.sent)[i]).Some?
    {
      FindHit(q.sent, i);
      assert Touches(q, Ids(q.sent)[i]);
      assert !Touches(p, Ids(q.sent)[i]);
      UntouchedIdStays(cs, p, Ids(q.sent)[i]);
    }
    AbsentNone(Ids(q.sent), cs);
    AbsentNone(Ids(q.sent), Merged(cs, p).value);
    forall i | 0 <= i < |p.sent|
      ensures Find(cs, Ids(p.sent)[i]).Some? <==> Find(Merged(cs, q).value, Ids(p.sent)[i]).Some?
    {
      FindHit(p.sent, i);
      assert Touches(p, Ids(p.sent)[i]);
      assert !Touches(q, Ids(p.sent)[i]);
      UntouchedIdStays(cs, q, Ids(p.sent)[i]);
    }
    AbsentAgrees(Ids(p.sent), Merged(cs, q).value, cs);
  }

  lemma AddedIdsSurvive(cs: seq<Value>, p: Patch, q: Patch)
    requires Indexed(cs) && Indexed(p.sent) && Indexed(q.sent)
    requires forall id :: !(Touches(p, id) && Touches(q, id))
    requires Merged(cs, p).Ok? && Merged(cs, q).Ok?
    ensures Indexed(Merged(cs, p).value) && Merged(Merged(cs, p).value, q).Ok?
    ensures forall id | id in Absent(Ids(p.sent), cs) :: Find(Merged(Merged(cs, p).value, q).value, id).Some?
  {
    DisjointStillSucceeds(cs, p, q);
    MergeIsPointwise(cs, p.sent, p.base);
    AbsentMember(Ids(p.sent), cs);
    forall id | id in Absent(Ids(p.sent), cs)
      ensures Find(Merged(Merged(cs, p).value, q).value, id).Some?
    {
      var i :| 0 <= i < |Ids(p.sent)| && Ids(p.sent)[i] == id;
      FindHit(p.sent, i);
      assert Touches(p, id);
      assert !Touches(q, id);
      assert Find(Merged(cs, p).value, id) == Decide(cs, p.sent, p.base, id).value;
      assert Decide(cs, p.sent, p.base, id).Ok?;
    }
  }

  /** An ID of the original list that survives both patches survived the first one. */
  lemma KeptIdsNest(cs: seq<Value>, p: Patch, q: Patch)
    requires Indexed(cs) && Indexed(p.sent) && Indexed(q.sent)
    requires forall id :: !(Touches(p, id) && Touches(q, id))
    requires Merged(cs, p).Ok? && Merged(cs, q).Ok?
    ensures Indexed(Merged(cs, p).value) && Merged(Merged(cs, p).value, q).Ok?
    ensures forall i | 0 <= i < |Ids(cs)| ::
              Find(Merged(Merged(cs, p).value, q).value, Ids(cs)[i]).Some? ==> Find(Merged(cs, p).value, Ids(cs)[i]).Some?
  {
    DisjointStillSucceeds(cs, p, q);
    forall i | 0 <= i < |Ids(cs)| && Find(Merged(Merged(cs, p).value, q).value, Ids(cs)[i]).Some?
      ensures Find(Merged(cs, p).value, Ids(cs)[i]).Some?
    {
      FindHit(cs, i);
      var id := Ids(cs)[i];
      if Touches(q, id) {
        assert !Touches(p, id);
        UntouchedIdStays(cs, p, id);
      }
    }
  }

  // ------------------------------------------------------------------------ replay

  /** An ID that can be merged twice in a row was left alone the first time. */
  lemma RepeatedDecisionIsNoChange(current: Option<Value>, sent: Option<Value>, base: Option<Value>)
    requires MergeOne(current, sent, base).Ok?
    requires MergeOne(MergeOne(current, sent, base).value, sent, base).Ok?
    ensures MergeOne(current, sent, base).value == current
  {}

  lemma ReplayLeavesEveryId(cs: seq<Value>, p: Patch, id: string)
    requires Indexed(cs) && Indexed(p.sent) && Merged(cs, p).Ok?
    requires Indexed(Merged(cs, p).value) && Merged(Merged(cs, p).value, p).Ok?
    ensures Find(Merged(cs, p).value, id) == Find(cs, id)
  {
    MergeIsPointwise(cs, p.sent, p.base);
    var m := Merged(cs, p).value;
    MergeIsPointwise(m, p.sent, p.base);
    assert Decide(cs, p.sent, p.base, id).Ok? && Decide(m, p.sent, p.base, id).Ok?;
    assert Find(m, id) == Decide(cs, p.sent, p.base, id).value;
    RepeatedDecisionIsNoChange(Find(cs, id), Find(p.sent, id), Lookup(p.base, id));
  }

  lemma SameClausesSameOrder(cs: seq<Value>, p: Patch)
    requires Indexed(cs) && Indexed(p.sent) && Merged(cs, p).Ok?
    requires forall id :: Find(Merged(cs, p).value, id) == Find(cs, id)
    requires AddsNothing(cs, p)
    ensures Merged(cs, p).value == cs
  {
    var m := Merged(cs, p).value;
    MergeOrder(cs, p.sent, p.base);
    forall i | 0 <= i < |Ids(cs)| ensures Find(m, Ids(cs)[i]).Some? {
      FindHit(cs, i);
    }
    PresentAll(Ids(cs), m);
    forall i | 0 <= i < |Ids(p.sent)| ensures Find(cs, Ids(p.sent)[i]).Some? {
      assert IdOf(p.sent[i]).Some?;
    }
    AbsentNone(Ids(p.sent), cs);
    assert Ids(m) == Ids(cs) + [];
    SameIdsSameClauses(m, cs);
  }

  /** Replaying a successful patch succeeds exactly when the patch changed nothing. */
  lemma ReplayOnlyIfUnchanged(cs: seq<Value>, p: Patch)
    requires Indexed(cs) && Indexed(p.sent) && Merged(cs, p).Ok?
    ensures Indexed(Merged(cs, p).value)
    ensures Merged(Merged(cs, p).value, p).Ok? <==> Merged(cs, p).value == cs
  {
    MergeIsPointwise(cs, p.sent, p.base);
    var m := Merged(cs, p).value;
    if Merged(m, p).Ok? {
      forall id: string ensures Find(m, id) == Find(cs, id) {
        ReplayLeavesEveryId(cs, p, id);
      }
      forall i | 0 <= i < |p.sent| && IdOf(p.sent[i]).Some?
        ensures Find(cs, IdOf(p.sent[i]).value).Some?
      {
        FindHit(p.sent, i);
        var id := IdOf(p.sent[i]).value;
        assert Decide(cs, p.sent, p.base, id).Ok?;
        assert Find(m, id) == Decide(cs, p.sent, p.base, id).value;
      }
      SameClausesSameOrder(cs, p);
    }
  }

  // ---------------------------------------------------------------- the whole record

  /** The record-level update: exactly when it succeeds, and what it then leaves alone. */
  lemma MergeRecordMeaning(stored: Value, proposed: Value, base: map<string, Value>)
    ensures MergeRecord(Some(stored), proposed, base).Ok? <==>
            && IdOf(proposed).Some? && base != map[] && stored.Obj? && proposed.Obj?
            && stored.fields - {"clauses"} == proposed.fields - {"clauses"}
            && stored.At("clauses").Arr? && Indexed(stored.At("clauses").items)
            && proposed.At("clauses").Arr? && Indexed(proposed.At("clauses").items)
            && forall id :: Decide(stored.At("clauses").items, proposed.At("clauses").items, base, id).Ok?
    ensures MergeRecord(Some(stored), proposed, base).Ok? ==>
              var r := MergeRecord(Some(stored), proposed, base).value;
              && r.Obj? && r.fields - {"clauses"} == stored.fields - {"clauses"}
              && r.At("clauses").Arr? && Indexed(r.At("clauses").items)
              && forall id :: Find(r.At("clauses").items, id) ==
                              Decide(stored.At("clauses").items, proposed.At("clauses").items, base, id).value
  {
    FaultFreeIffIndexed(stored.At("clauses").Elements());
    FaultFreeIffIndexed(proposed.At("clauses").Elements());
    if stored.At("clauses").Arr? && proposed.At("clauses").Arr? &&
       Indexed(stored.At("clauses").items) && Indexed(proposed.At("clauses").items) {
      MergeIsPointwise(stored.At("clauses").items, proposed.At("clauses").items, base);
    }
  }
}
