/** Contract Health under append: new Results and Evidence never take a clause down. */
module ContractHealthLaws {
  import opened Json
  import opened HealthRecords
  import opened ContractHealth

  function Appended(p: Project, results: seq<Value>, evidence: seq<Value>): Project {
    p.(results := p.results + results, evidence := p.evidence + evidence)
  }

  /** No new ID is a reference some stored outcome's manifest lists. */
  ghost predicate Unreferenced(p: Project, records: seq<Value>) {
    forall r | r in records && IdOf(r).Some? :: !Consulted(p.results, IdOf(r).value)
  }

  // --------------------------------------------------------------- digests that stay

  /** Some source binds the reference. */
  predicate BindsRef(sources: seq<Source>, ref: string) {
    exists s | s in sources :: s.Bound? && s.ref == ref
  }

  lemma BindsRefPush(sources: seq<Source>, last: Source, ref: string)
    ensures BindsRef(sources + [last], ref) <==> BindsRef(sources, ref) || (last.Bound? && last.ref == ref)
  {
    if BindsRef(sources, ref) {
      var s :| s in sources && s.Bound? && s.ref == ref;
      assert s in sources + [last];
    }
    assert last in sources + [last];
  }

  lemma CurrentDigestPush(sources: seq<Source>, last: Source, ref: string)
    ensures CurrentDigest(sources + [last], ref) == if last.Bound? && last.ref == ref then last.digest else CurrentDigest(sources, ref)
  {
    assert (sources + [last])[..|sources|] == sources;
  }

  lemma {:induction false} CurrentDigestConcat(xs: seq<Source>, ys: seq<Source>, ref: string)
    ensures CurrentDigest(xs + ys, ref) == if BindsRef(ys, ref) then CurrentDigest(ys, ref) else CurrentDigest(xs, ref)
  {
    if ys == [] {
      assert xs + ys == xs;
    } else {
      hide CurrentDigest, BindsRef;
      var before, last := ys[..|ys| - 1], ys[|ys| - 1];
      assert ys == before + [last] && xs + ys == (xs + before) + [last];
      CurrentDigestConcat(xs, before, ref);
      CurrentDigestPush(xs + before, last, ref);
      CurrentDigestPush(before, last, ref);
      BindsRefPush(before, last, ref);
    }
  }

  /** Sources that do not bind a reference can be put anywhere without changing its digest. */
  lemma InsertedSources(xs: seq<Source>, new_: seq<Source>, ys: seq<Source>, ref: string)
    requires forall s | s in new_ :: s.Bound? ==> s.ref != ref
    ensures CurrentDigest(xs + new_ + ys, ref) == CurrentDigest(xs + ys, ref)
  {
    CurrentDigestConcat(xs + new_, ys, ref);
    CurrentDigestConcat(xs, new_, ref);
    CurrentDigestConcat(xs, ys, ref);
  }

  lemma {:induction false} RecordSourcesConcat(xs: seq<Value>, ys: seq<Value>, known: map<string, Value>)
    ensures RecordSources(xs + ys, known, false) == RecordSources(xs, known, false) + RecordSources(ys, known, false)
  {
    if ys == [] {
      assert xs + ys == xs;
    } else {
      assert (xs + ys)[..|xs + ys| - 1] == xs + ys[..|ys| - 1];
      RecordSourcesConcat(xs, ys[..|ys| - 1], known);
    }
  }

  lemma {:induction false} RecordSourcesBindIds(records: seq<Value>, known: map<string, Value>)
    ensures forall s | s in RecordSources(records, known, false) && s.Bound? ::
              exists r | r in records :: IdOf(r) == Some(s.ref)
  {
    if records != [] {
      var before, last := records[..|records| - 1], records[|records| - 1];
      RecordSourcesBindIds(before, known);
      forall s | s in RecordSources(records, known, false) && s.Bound?
        ensures exists r | r in records :: IdOf(r) == Some(s.ref)
      {
        if s in RecordSources(before, known, false) {
          var r :| r in before && IdOf(r) == Some(s.ref);
          assert r in records;
        } else {
          assert last in records && IdOf(last) == Some(s.ref);
        }
      }
    }
  }

  lemma TwoInsertions(head: seq<Source>, newResults: seq<Source>, old_: seq<Source>, newEvidence: seq<Source>, tail: seq<Source>, ref: string)
    requires forall s | s in newResults :: s.Bound? ==> s.ref != ref
    requires forall s | s in newEvidence :: s.Bound? ==> s.ref != ref
    ensures CurrentDigest(head + newResults + old_ + newEvidence + tail, ref) == CurrentDigest(head + old_ + tail, ref)
  {
    InsertedSources(head + newResults + old_, newEvidence, tail, ref);
    assert head + newResults + old_ + tail == head + newResults + (old_ + tail);
    InsertedSources(head, newResults, old_ + tail, ref);
    assert head + old_ + tail == head + (old_ + tail);
  }

  lemma NewSourcesMiss(records: seq<Value>, known: map<string, Value>, ref: string)
    requires forall r | r in records :: IdOf(r) != Some(ref)
    ensures forall s | s in RecordSources(records, known, false) :: s.Bound? ==> s.ref != ref
  {
    RecordSourcesBindIds(records, known);
    hide RecordSources, IdOf;
  }

  function SourcesBefore(p: Project, known: map<string, Value>): seq<Source> {
    RecordSources(p.changes, known, false) + RecordSources(p.contracts, known, true)
    + RecordSources(p.decisions, known, false) + RecordSources(p.results, known, false)
  }

  lemma AppendedSources(p: Project, known: map<string, Value>, results: seq<Value>, evidence: seq<Value>)
    ensures Sources(Appended(p, results, evidence), known)
            == SourcesBefore(p, known) + RecordSources(results, known, false) + RecordSources(p.evidence, known, false)
               + RecordSources(evidence, known, false) + ArtifactSources(p.repository.At("artifacts").Elements())
  {
    RecordSourcesConcat(p.results, results, known);
    RecordSourcesConcat(p.evidence, evidence, known);
    hide RecordSources, ArtifactSources;
  }

  /** References consulted before the append keep their current digest. */
  lemma AppendKeepsDigest(p: Project, known: map<string, Value>, results: seq<Value>, evidence: seq<Value>, ref: string)
    requires forall r | r in results + evidence :: IdOf(r) != Some(ref)
    ensures CurrentDigest(Sources(Appended(p, results, evidence), known), ref) == CurrentDigest(Sources(p, known), ref)
  {
    hide RecordSources, CurrentDigest, ArtifactSources, IdOf, Appended;
    NewSourcesMiss(results, known, ref);
    NewSourcesMiss(evidence, known, ref);
    AppendedSources(p, known, results, evidence);
    TwoInsertions(SourcesBefore(p, known), RecordSources(results, known, false), RecordSources(p.evidence, known, false),
                  RecordSources(evidence, known, false), ArtifactSources(p.repository.At("artifacts").Elements()), ref);
  }

  // ------------------------------------------------------------------ pairs that stay

  lemma AppendKeepsPair(p: Project, known: map<string, Value>, results: seq<Value>, evidence: seq<Value>,
                        contract: Value, clause: Value, e: Value, v: Verification)
    requires IdOf(contract).Some? && IdOf(clause).Some? && Unreferenced(p, results + evidence)
    requires Checks(p, contract, clause, e, v)
    ensures var q := Appended(p, results, evidence);
            && Checks(q, contract, clause, e, v)
            && (Fresh(q, Sources(q, known), contract, clause, e, v) <==> Fresh(p, Sources(p, known), contract, clause, e, v))
  {
    hide EvidenceCovers, Sources;
    var q := Appended(p, results, evidence);
    if Manifest(v).Some? {
      forall ref | ref in Manifest(v).value
        ensures CurrentDigest(Sources(q, known), ref) == CurrentDigest(Sources(p, known), ref)
      {
        assert Consulted(p.results, ref);
        AppendKeepsDigest(p, known, results, evidence, ref);
      }
    }
    assert StaleRefs(Sources(q, known), v, IdOf(contract).value, IdOf(e).value)
        == StaleRefs(Sources(p, known), v, IdOf(contract).value, IdOf(e).value);
  }

  /** How good a status is. */
  function Rank(s: Status): nat {
    match s
    case Unverified => 0
    case Stale => 1
    case Failed => 2
    case Verified => 3
    case InReview => 4
  }

  lemma RankFromFacts(p: Project, before: seq<Source>, q: Project, later: seq<Source>, contract: Value, clause: Value)
    requires IdOf(contract).Some? && IdOf(clause).Some?
    requires HasSuccess(p, before, contract, clause) ==> HasSuccess(q, later, contract, clause)
    requires HasFailure(p, before, contract, clause) ==> HasFailure(q, later, contract, clause)
    requires HasHistory(p, before, contract, clause) ==> HasHistory(q, later, contract, clause)
    ensures Rank(DefinedStatus(p, before, contract, clause)) <= Rank(DefinedStatus(q, later, contract, clause))
    ensures DefinedStatus(p, before, contract, clause) == InReview <==> DefinedStatus(q, later, contract, clause) == InReview
  {
    hide HasSuccess, HasFailure, HasHistory, EffectiveMode;
  }

  /** Appending Results and Evidence whose IDs no stored manifest lists only moves a clause up
      the order unverified, stale, failed, verified; a clause in review stays there, and its
      Evidence and Results only grow. */
  lemma AppendNeverLowersHealth(p: Project, known: map<string, Value>, results: seq<Value>, evidence: seq<Value>,
                                contract: Value, clause: Value)
    requires IdOf(contract).Some? && IdOf(clause).Some? && Unreferenced(p, results + evidence)
    ensures var q := Appended(p, results, evidence);
            && Rank(DefinedStatus(p, Sources(p, known), contract, clause)) <= Rank(DefinedStatus(q, Sources(q, known), contract, clause))
            && (DefinedStatus(p, Sources(p, known), contract, clause) == InReview <==>
                DefinedStatus(q, Sources(q, known), contract, clause) == InReview)
            && SupportingRefs(p, contract, clause) <= SupportingRefs(q, contract, clause)
            && CheckingResults(p, contract, clause) <= CheckingResults(q, contract, clause)
  {
    var q := Appended(p, results, evidence);
    AppendKeepsStatusFacts(p, known, results, evidence, contract, clause);
    AppendGrowsResults(p, known, results, evidence, contract, clause);
    AppendGrowsSupport(p, results, evidence, contract, clause);
    RankFromFacts(p, Sources(p, known), q, Sources(q, known), contract, clause);
    hide DefinedStatus, Sources, SupportingRefs, CheckingResults, Unreferenced, HasSuccess, HasFailure, HasHistory;
  }

  /** What a reader of the report may rely on, clause status by clause status. */
  lemma AppendTransitions(p: Project, known: map<string, Value>, results: seq<Value>, evidence: seq<Value>,
                          contract: Value, clause: Value)
    requires IdOf(contract).Some? && IdOf(clause).Some? && Unreferenced(p, results + evidence)
    ensures var q := Appended(p, results, evidence);
            var before, later := DefinedStatus(p, Sources(p, known), contract, clause), DefinedStatus(q, Sources(q, known), contract, clause);
            && (before == Verified ==> later == Verified)
            && (before == InReview ==> later == InReview)
            && (before == Failed ==> later == Failed || later == Verified)
  {
    AppendNeverLowersHealth(p, known, results, evidence, contract, clause);
    hide DefinedStatus, Sources;
  }

  lemma AppendKeepsStatusFacts(p: Project, known: map<string, Value>, results: seq<Value>, evidence: seq<Value>,
                               contract: Value, clause: Value)
    requires IdOf(contract).Some? && IdOf(clause).Some? && Unreferenced(p, results + evidence)
    ensures var q := Appended(p, results, evidence);
            && (HasSuccess(p, Sources(p, known), contract, clause) ==> HasSuccess(q, Sources(q, known), contract, clause))
            && (HasFailure(p, Sources(p, known), contract, clause) ==> HasFailure(q, Sources(q, known), contract, clause))
            && (HasHistory(p, Sources(p, known), contract, clause) ==> HasHistory(q, Sources(q, known), contract, clause))
  {
    hide Checks, Sources, StaleRefs, Succeeds, Fails, Appended, Unreferenced, Fresh;
    var q := Appended(p, results, evidence);
    if HasSuccess(p, Sources(p, known), contract, clause) {
      var e, v :| Fresh(p, Sources(p, known), contract, clause, e, v) && Succeeds(e, v.outcome);
      FreshIsCheck(p, Sources(p, known), contract, clause, e, v);
      AppendKeepsPair(p, known, results, evidence, contract, clause, e, v);
    }
    if HasFailure(p, Sources(p, known), contract, clause) {
      var e, v :| Fresh(p, Sources(p, known), contract, clause, e, v) && Fails(e);
      FreshIsCheck(p, Sources(p, known), contract, clause, e, v);
      AppendKeepsPair(p, known, results, evidence, contract, clause, e, v);
    }
    if HasHistory(p, Sources(p, known), contract, clause) {
      var e, v :| Checks(p, contract, clause, e, v) && !Fresh(p, Sources(p, known), contract, clause, e, v);
      AppendKeepsPair(p, known, results, evidence, contract, clause, e, v);
    }
  }

  lemma AppendGrowsResults(p: Project, known: map<string, Value>, results: seq<Value>, evidence: seq<Value>, contract: Value, clause: Value)
    requires IdOf(contract).Some? && IdOf(clause).Some? && Unreferenced(p, results + evidence)
    ensures CheckingResults(p, contract, clause) <= CheckingResults(Appended(p, results, evidence), contract, clause)
  {
    hide Checks, Sources;
    var q := Appended(p, results, evidence);
    forall id | id in CheckingResults(p, contract, clause) ensures id in CheckingResults(q, contract, clause) {
      var r :| r in p.results && IdOf(r) == Some(id) && exists e, o :: Checks(p, contract, clause, e, Verification(r, o));
      var e, o :| Checks(p, contract, clause, e, Verification(r, o));
      AppendKeepsPair(p, known, results, evidence, contract, clause, e, Verification(r, o));
      assert r in q.results;
    }
  }

  lemma AppendGrowsSupport(p: Project, results: seq<Value>, evidence: seq<Value>, contract: Value, clause: Value)
    requires IdOf(contract).Some? && IdOf(clause).Some?
    ensures SupportingRefs(p, contract, clause) <= SupportingRefs(Appended(p, results, evidence), contract, clause)
  {
    hide EvidenceCovers;
    var q := Appended(p, results, evidence);
    forall e | e in p.evidence && Supports(p, contract, clause, e) ensures e in q.evidence && Supports(q, contract, clause, e) {}
  }
}
