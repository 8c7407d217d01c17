/** What adding Results and Evidence does to the report as a whole: when it can still be built, and
    how its clauses move.
  */
module ContractHealthAppend {
  import opened Json
  import opened HealthRecords
  import opened ContractHealth
  import opened ContractHealthReport
  import opened ContractHealthLaws

  /** Added records whose IDs are strings, distinct and not stored yet in their collection. */
  predicate NewIds(stored: seq<Value>, added: seq<Value>) {
    UniqueIds(added) && forall i, j | 0 <= i < |stored| && 0 <= j < |added| :: IdOf(stored[i]) != IdOf(added[j])
  }

  /** The stored records that the added Results start to consult are valid. */
  ghost predicate ConsultedValid(results: seq<Value>, valid: Registry, kind: string, records: seq<Value>) {
    forall record | record in records && IdOf(record).Some? && Consulted(results, IdOf(record).value) :: valid(kind, record)
  }

  /** What the added records must satisfy for the report to be built as before. */
  ghost predicate Addable(p: Project, valid: Registry, known: map<string, Value>, results: seq<Value>, evidence: seq<Value>) {
    && NewIds(p.results, results) && NewIds(p.evidence, evidence)
    && (forall e | e in evidence :: valid("evidence", e))
    && (forall r | r in results && (Verifying(r) || Consulted(p.results + results, IdOf(r).value)) :: valid("result", r))
    && ConsultedValid(results, valid, "change", p.changes) && ConsultedValid(results, valid, "decision", p.decisions)
    && ConsultedValid(results, valid, "result", p.results)
    && (forall s | s in Sources(p, known) && s.Bound? && Consulted(results, s.ref) :: s.digest.Some?)
    && (forall s | s in AddedSources(known, results, evidence) && s.Bound? && Consulted(p.results + results, s.ref) :: s.digest.Some?)
  }

  function AddedSources(known: map<string, Value>, results: seq<Value>, evidence: seq<Value>): seq<Source> {
    RecordSources(results, known, false) + RecordSources(evidence, known, false)
  }

  lemma UniqueAppend(stored: seq<Value>, added: seq<Value>)
    ensures UniqueIds(stored + added) <==> UniqueIds(stored) && NewIds(stored, added)
  {
    hide IdOf;
    var all := stored + added;
    assert forall i | 0 <= i < |stored| :: all[i] == stored[i];
    assert forall j | 0 <= j < |added| :: all[|stored| + j] == added[j];
  }

  lemma ConsultedAppend(stored: seq<Value>, added: seq<Value>, ref: string)
    ensures Consulted(stored + added, ref) <==> Consulted(stored, ref) || Consulted(added, ref)
  {
    hide Manifest, Verifying, Outcomes;
    var all := stored + added;
    if v: Verification :| v.result in all && Verifying(v.result) && v.outcome in Outcomes(v.result)
                          && Manifest(v).Some? && ref in Manifest(v).value {
      assert v.result in stored || v.result in added;
    }
    if v: Verification :| v.result in stored && Verifying(v.result) && v.outcome in Outcomes(v.result)
                          && Manifest(v).Some? && ref in Manifest(v).value {
      assert v.result in all;
    }
    if v: Verification :| v.result in added && Verifying(v.result) && v.outcome in Outcomes(v.result)
                          && Manifest(v).Some? && ref in Manifest(v).value {
      assert v.result in all;
    }
  }

  /** Validity of stored records after the addition. */
  lemma StoredValidity(p: Project, valid: Registry, results: seq<Value>, evidence: seq<Value>, kind: string, records: seq<Value>)
    requires AllValid(p, valid, kind, records)
    ensures AllValid(Appended(p, results, evidence), valid, kind, records) <==>
            kind == "contract" || kind == "evidence" || ConsultedValid(results, valid, kind, records)
  {
    hide Consulted, Verifying;
    forall ref: string ensures Consulted(p.results + results, ref) <==> Consulted(p.results, ref) || Consulted(results, ref) {
      ConsultedAppend(p.results, results, ref);
    }
  }

  lemma SourceMembers(p: Project, known: map<string, Value>, results: seq<Value>, evidence: seq<Value>, s: Source)
    ensures s in Sources(Appended(p, results, evidence), known) <==>
            s in Sources(p, known) || s in AddedSources(known, results, evidence)
  {
    AppendedSources(p, known, results, evidence);
    hide RecordSources, ArtifactSources, Appended;
  }

  lemma {:induction false} AddedAreBound(records: seq<Value>, known: map<string, Value>)
    requires forall r | r in records :: IdOf(r).Some?
    ensures forall s | s in RecordSources(records, known, false) :: s.Bound?
  {
    if records != [] {
      AddedAreBound(records[..|records| - 1], known);
    }
  }

  lemma AppendedDigestible(p: Project, known: map<string, Value>, results: seq<Value>, evidence: seq<Value>)
    requires ConsultedDigestible(p, Sources(p, known)) && UniqueIds(results) && UniqueIds(evidence)
    ensures var q := Appended(p, results, evidence);
            ConsultedDigestible(q, Sources(q, known)) <==>
              && (forall s | s in Sources(p, known) && s.Bound? && Consulted(results, s.ref) :: s.digest.Some?)
              && (forall s | s in AddedSources(known, results, evidence) && s.Bound? && Consulted(p.results + results, s.ref) :: s.digest.Some?)
  {
    var q := Appended(p, results, evidence);
    AddedAreBound(results, known);
    AddedAreBound(evidence, known);
    assert forall s | s in AddedSources(known, results, evidence) :: s.Bound?;
    hide Consulted, Sources, AddedSources, RecordSources, IdOf;
    forall s: Source ensures s in Sources(q, known) <==> s in Sources(p, known) || s in AddedSources(known, results, evidence) {
      SourceMembers(p, known, results, evidence, s);
    }
    forall ref: string ensures Consulted(q.results, ref) <==> Consulted(p.results, ref) || Consulted(results, ref) {
      ConsultedAppend(p.results, results, ref);
    }
  }

  /** After adding Results and Evidence to a project that can be reported on, it can be reported on
      if and only if the added records are addable. */
  lemma AppendedReportableIff(p: Project, valid: Registry, known: map<string, Value>, results: seq<Value>, evidence: seq<Value>)
    requires Reportable(p, valid, known)
    ensures Reportable(Appended(p, results, evidence), valid, known) <==> Addable(p, valid, known, results, evidence)
  {
    var q := Appended(p, results, evidence);
    UniqueAppend(p.results, results);
    UniqueAppend(p.evidence, evidence);
    StoredValidity(p, valid, results, evidence, "change", p.changes);
    StoredValidity(p, valid, results, evidence, "contract", p.contracts);
    StoredValidity(p, valid, results, evidence, "decision", p.decisions);
    AppendedValidity(p, valid, results, evidence);
    hide AllValid, ConsultedValid, Sources, AddedSources, ConsultedDigestible, DistinctRefs, Consulted, Verifying, IdOf;
    if NewIds(p.results, results) && NewIds(p.evidence, evidence) {
      AppendedDigestible(p, known, results, evidence);
    }
    hide UniqueIds, NewIds;
  }

  /** Validity of Results and Evidence after the addition. */
  lemma AppendedValidity(p: Project, valid: Registry, results: seq<Value>, evidence: seq<Value>)
    requires AllValid(p, valid, "result", p.results) && AllValid(p, valid, "evidence", p.evidence)
    ensures var q := Appended(p, results, evidence);
            && (AllValid(q, valid, "evidence", q.evidence) <==> forall e | e in evidence :: valid("evidence", e))
            && ((forall r | r in results :: IdOf(r).Some?) ==>
                  (AllValid(q, valid, "result", q.results) <==>
                    && ConsultedValid(results, valid, "result", p.results)
                    && forall r | r in results && (Verifying(r) || Consulted(p.results + results, IdOf(r).value)) :: valid("result", r)))
  {
    var q := Appended(p, results, evidence);
    StoredValidity(p, valid, results, evidence, "result", p.results);
    hide Consulted, Verifying, ConsultedValid;
    assert AllValid(q, valid, "result", q.results) <==> AllValid(q, valid, "result", p.results) && AllValid(q, valid, "result", results);
  }

  // ----------------------------------------------------------------- the two reports

  /** Between the reports before and after an addition of unreferenced IDs: the same clauses, none
      with a lower status, each with at least its Evidence and Results. */
  lemma AppendedReport(p: Project, known: map<string, Value>, results: seq<Value>, evidence: seq<Value>, before: Report, later: Report)
    requires Unreferenced(p, results + evidence)
    requires Describes(p, known, before) && Describes(Appended(p, results, evidence), known, later)
    ensures later.clauses.Keys == before.clauses.Keys
    ensures forall ref | ref in before.clauses ::
              && Rank(before.clauses[ref].status) <= Rank(later.clauses[ref].status)
              && (before.clauses[ref].status == InReview <==> later.clauses[ref].status == InReview)
              && before.clauses[ref].evidenceRefs <= later.clauses[ref].evidenceRefs
              && before.clauses[ref].resultIds <= later.clauses[ref].resultIds
  {
    var q := Appended(p, results, evidence);
    hide Healthy, Sources, Rank, Summarize, RefOf, Named, AllSites, Unreferenced;
    forall ref: string ensures ref in later.clauses <==> ref in before.clauses {}
    forall ref | ref in before.clauses
      ensures Rank(before.clauses[ref].status) <= Rank(later.clauses[ref].status)
      ensures before.clauses[ref].status == InReview <==> later.clauses[ref].status == InReview
      ensures before.clauses[ref].evidenceRefs <= later.clauses[ref].evidenceRefs
      ensures before.clauses[ref].resultIds <= later.clauses[ref].resultIds
    {
      var site :| site in AllSites(p.contracts) && Named(site) && RefOf(site) == ref;
      AppendedClause(p, known, results, evidence, site, before.clauses[ref], later.clauses[ref]);
    }
  }

  lemma AppendedClause(p: Project, known: map<string, Value>, results: seq<Value>, evidence: seq<Value>,
                       site: Site, g: ClauseHealth, h: ClauseHealth)
    requires Unreferenced(p, results + evidence)
    requires HealthyAt(p, Sources(p, known), site, g)
    requires HealthyAt(Appended(p, results, evidence), Sources(Appended(p, results, evidence), known), site, h)
    ensures Rank(g.status) <= Rank(h.status) && (g.status == InReview <==> h.status == InReview)
    ensures g.evidenceRefs <= h.evidenceRefs && g.resultIds <= h.resultIds
  {
    AppendNeverLowersHealth(p, known, results, evidence, site.contract, site.clause);
    hide DefinedStatus, Sources, SupportingRefs, CheckingResults, StaleFor, Rank, Unreferenced;
  }
}
