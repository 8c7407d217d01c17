/** The health index is transparent: over every run of edits, commits, index losses and loads,
    the report from cached, compacted records is the report from decoding every file afresh.
  */
module HealthIndexLaws {
  import opened Json
  import opened HealthRecords
  import opened ContractHealth
  import opened ContractHealthReport
  import opened HealthIndex

  // --------------------------------------------------------- what compaction keeps

  lemma CompactKeepsFields(result: Value)
    requires CompactResult(result).Some?
    ensures forall key | key != "payload" :: CompactResult(result).value.Get(key) == result.Get(key)
    ensures Outcomes(CompactResult(result).value) == CompactAll(Outcomes(result), result)
    ensures IdOf(CompactResult(result).value) == IdOf(result)
    ensures CompactResult(result).value.At("change_id") == result.At("change_id")
    ensures Verifying(CompactResult(result).value) <==> Verifying(result)
  {
    var c := CompactResult(result).value;
    hide CompactOutcome, CompactAll;
    assert forall key | key != "payload" :: c.Get(key) == result.Get(key);
    assert c.Get("id") == result.Get("id") && c.Get("change_id") == result.Get("change_id");
    assert c.Get("role") == result.Get("role") && c.Get("result_schema") == result.Get("result_schema");
    if !result.At("payload").At("outcomes").Arr? {
      CompactNothing(result);
    }
  }

  lemma CompactNothing(result: Value)
    ensures CompactAll([], result) == []
  {}

  lemma OutcomeKeepsFields(o: Value, result: Value)
    ensures forall key | key != "input_refs" && key != "freshness_refs" ::
              CompactOutcome(o, result).Get(key) == o.Get(key)
    ensures BasisRefs(CompactOutcome(o, result)) == BasisRefs(o)
    ensures CompactOutcome(o, result).At("status") == o.At("status")
    ensures CompactOutcome(o, result).At("instance_key") == o.At("instance_key")
  {
    var c := CompactOutcome(o, result);
    assert forall key | key != "input_refs" && key != "freshness_refs" :: c.Get(key) == o.Get(key);
    assert c.Get("basis_refs") == o.Get("basis_refs");
    assert c.Get("status") == o.Get("status") && c.Get("instance_key") == o.Get("instance_key");
  }

  /** The compacted form of a Result and one of its outcomes. */
  function Compacted(v: Verification): Verification
    requires CompactResult(v.result).Some?
  {
    Verification(CompactResult(v.result).value, CompactOutcome(v.outcome, v.result))
  }

  /** Compaction keeps the freshness manifest in force for every outcome. */
  lemma CompactionKeepsManifest(v: Verification)
    requires CompactResult(v.result).Some?
    ensures ManifestValue(Compacted(v)) == ManifestValue(v) && Manifest(Compacted(v)) == Manifest(v)
  {
    CompactKeepsFields(v.result);
    var c := CompactResult(v.result).value;
    assert c.Get("freshness_refs") == v.result.Get("freshness_refs");
    assert c.Get("input_refs") == v.result.Get("input_refs");
    hide CompactResult;
  }

  // ----------------------------------------------------- the report on compacted results

  /** Every Result is an object whose payload, if any, is an object. */
  predicate Compactable(results: seq<Value>) {
    forall r | r in results :: CompactResult(r).Some?
  }

  function CompactResults(results: seq<Value>): seq<Value>
    requires Compactable(results)
  {
    seq(|results|, i requires 0 <= i < |results| => CompactResult(results[i]).value)
  }

  function CompactProject(p: Project): Project
    requires Compactable(p.results)
  {
    p.(results := CompactResults(p.results))
  }

  lemma CompactMember(results: seq<Value>, r: Value)
    requires Compactable(results) && r in results
    ensures CompactResult(r).value in CompactResults(results)
  {
    var i :| 0 <= i < |results| && results[i] == r;
    assert CompactResults(results)[i] == CompactResult(r).value;
  }

  lemma OutcomeMember(r: Value, o: Value)
    requires CompactResult(r).Some? && o in Outcomes(r)
    ensures CompactOutcome(o, r) in Outcomes(CompactResult(r).value)
  {
    CompactKeepsFields(r);
    hide CompactResult, CompactOutcome;
    var i :| 0 <= i < |Outcomes(r)| && Outcomes(r)[i] == o;
    assert CompactAll(Outcomes(r), r)[i] == CompactOutcome(o, r);
  }

  /** A Result and outcome of the compacted project come from one of the original project. */
  lemma Original(p: Project, w: Verification) returns (v: Verification)
    requires Compactable(p.results)
    requires w.result in CompactProject(p).results && w.outcome in Outcomes(w.result)
    ensures v.result in p.results && v.outcome in Outcomes(v.result) && Compacted(v) == w
  {
    var i :| 0 <= i < |p.results| && CompactResults(p.results)[i] == w.result;
    var r := p.results[i];
    assert r in p.results;
    CompactKeepsFields(r);
    hide CompactResult, CompactOutcome;
    var k :| 0 <= k < |Outcomes(r)| && CompactAll(Outcomes(r), r)[k] == w.outcome;
    v := Verification(r, Outcomes(r)[k]);
  }

  lemma CompactChecks(p: Project, contract: Value, clause: Value, e: Value, v: Verification)
    requires IdOf(contract).Some? && IdOf(clause).Some? && Compactable(p.results)
    requires v.result in p.results && v.outcome in Outcomes(v.result)
    ensures Checks(CompactProject(p), contract, clause, e, Compacted(v)) <==> Checks(p, contract, clause, e, v)
    ensures Succeeds(e, Compacted(v).outcome) <==> Succeeds(e, v.outcome)
  {
    CompactMember(p.results, v.result);
    CompactSucceeds(p, e, v);
    OutcomeMember(v.result, v.outcome);
    CompactKeepsFields(v.result);
    OutcomeKeepsFields(v.outcome, v.result);
    hide CompactResult, CompactOutcome, EvidenceCovers, Succeeds, Outcomes;
  }

  lemma CompactSucceeds(p: Project, e: Value, v: Verification)
    requires Compactable(p.results) && v.result in p.results && v.outcome in Outcomes(v.result)
    ensures Succeeds(e, Compacted(v).outcome) <==> Succeeds(e, v.outcome)
  {
    CompactMember(p.results, v.result);
    OutcomeKeepsFields(v.outcome, v.result);
    hide CompactResult, CompactOutcome;
  }

  lemma CompactStale(p: Project, sources: seq<Source>, v: Verification, contractId: string, evidenceId: string)
    requires CompactResult(v.result).Some?
    ensures StaleRefs(sources, Compacted(v), contractId, evidenceId) == StaleRefs(sources, v, contractId, evidenceId)
  {
    CompactionKeepsManifest(v);
    hide CompactResult, CompactOutcome, Manifest;
  }

  lemma ChecksParts(p: Project, contract: Value, clause: Value, e: Value, v: Verification)
    requires IdOf(contract).Some? && IdOf(clause).Some? && Checks(p, contract, clause, e, v)
    ensures v.result in p.results && v.outcome in Outcomes(v.result) && IdOf(e).Some? && IdOf(v.result).Some?
  {
    hide EvidenceCovers;
  }

  /** Both projects meet the same pairs, one with original and one with compacted outcomes. */
  ghost predicate Mirrors(p: Project, q: Project, sources: seq<Source>, contract: Value, clause: Value)
    requires IdOf(contract).Some? && IdOf(clause).Some?
  {
    && (forall e, v :: Checks(p, contract, clause, e, v) ==>
          && IdOf(e).Some? && v.result in p.results && CompactResult(v.result).Some?
          && Checks(q, contract, clause, e, Compacted(v))
          && (Succeeds(e, Compacted(v).outcome) <==> Succeeds(e, v.outcome))
          && IdOf(Compacted(v).result) == IdOf(v.result)
          && StaleRefs(sources, Compacted(v), IdOf(contract).value, IdOf(e).value)
             == StaleRefs(sources, v, IdOf(contract).value, IdOf(e).value))
    && (forall e, w :: Checks(q, contract, clause, e, w) ==> w.result in q.results && Traced(p, contract, clause, e, w))
  }

  ghost predicate Traced(p: Project, contract: Value, clause: Value, e: Value, w: Verification)
    requires IdOf(contract).Some? && IdOf(clause).Some?
  {
    exists v :: Checks(p, contract, clause, e, v) && CompactResult(v.result).Some? && Compacted(v) == w
  }

  lemma CompactMirrors(p: Project, sources: seq<Source>, contract: Value, clause: Value)
    requires IdOf(contract).Some? && IdOf(clause).Some? && Compactable(p.results)
    ensures Mirrors(p, CompactProject(p), sources, contract, clause)
  {
    var q := CompactProject(p);
    hide Checks, StaleRefs, Succeeds, CompactResults, Compacted, Outcomes;
    forall e, v | Checks(p, contract, clause, e, v)
      ensures IdOf(e).Some? && v.result in p.results && CompactResult(v.result).Some?
      ensures Checks(q, contract, clause, e, Compacted(v))
      ensures Succeeds(e, Compacted(v).outcome) <==> Succeeds(e, v.outcome)
      ensures IdOf(Compacted(v).result) == IdOf(v.result)
      ensures StaleRefs(sources, Compacted(v), IdOf(contract).value, IdOf(e).value)
              == StaleRefs(sources, v, IdOf(contract).value, IdOf(e).value)
    {
      ChecksParts(p, contract, clause, e, v);
      CompactChecks(p, contract, clause, e, v);
      CompactStale(p, sources, v, IdOf(contract).value, IdOf(e).value);
      CompactedId(v);
    }
    forall e, w | Checks(q, contract, clause, e, w)
      ensures w.result in q.results && Traced(p, contract, clause, e, w)
    {
      ChecksParts(q, contract, clause, e, w);
      var v := Original(p, w);
      CompactChecks(p, contract, clause, e, v);
    }
  }

  lemma CompactedId(v: Verification)
    requires CompactResult(v.result).Some?
    ensures IdOf(Compacted(v).result) == IdOf(v.result)
  {
    CompactKeepsFields(v.result);
    hide CompactResult, CompactOutcome;
  }

  lemma Forward(p: Project, q: Project, sources: seq<Source>, contract: Value, clause: Value, e: Value, v: Verification)
    returns (w: Verification)
    requires IdOf(contract).Some? && IdOf(clause).Some? && Mirrors(p, q, sources, contract, clause)
    requires Checks(p, contract, clause, e, v)
    ensures Checks(q, contract, clause, e, w) && (Succeeds(e, w.outcome) <==> Succeeds(e, v.outcome))
    ensures Fresh(q, sources, contract, clause, e, w) <==> Fresh(p, sources, contract, clause, e, v)
  {
    hide Checks, StaleRefs, Succeeds, CompactResult, Compacted;
    w := Compacted(v);
  }

  lemma Backward(p: Project, q: Project, sources: seq<Source>, contract: Value, clause: Value, e: Value, w: Verification)
    returns (v: Verification)
    requires IdOf(contract).Some? && IdOf(clause).Some? && Mirrors(p, q, sources, contract, clause)
    requires Checks(q, contract, clause, e, w)
    ensures Checks(p, contract, clause, e, v) && (Succeeds(e, w.outcome) <==> Succeeds(e, v.outcome))
    ensures Fresh(q, sources, contract, clause, e, w) <==> Fresh(p, sources, contract, clause, e, v)
  {
    hide Checks, StaleRefs, Succeeds, CompactResult, Compacted;
    assert Traced(p, contract, clause, e, w);
    v :| Checks(p, contract, clause, e, v) && CompactResult(v.result).Some? && Compacted(v) == w;
  }

  lemma MirroredSuccess(p: Project, q: Project, sources: seq<Source>, contract: Value, clause: Value)
    requires IdOf(contract).Some? && IdOf(clause).Some? && Mirrors(p, q, sources, contract, clause)
    ensures HasSuccess(q, sources, contract, clause) <==> HasSuccess(p, sources, contract, clause)
  {
    hide Mirrors, Checks, Fresh, Succeeds;
    if e, v :| Fresh(p, sources, contract, clause, e, v) && Succeeds(e, v.outcome) {
      FreshIsCheck(p, sources, contract, clause, e, v);
      var w := Forward(p, q, sources, contract, clause, e, v);
    }
    if e, w :| Fresh(q, sources, contract, clause, e, w) && Succeeds(e, w.outcome) {
      FreshIsCheck(q, sources, contract, clause, e, w);
      var v := Backward(p, q, sources, contract, clause, e, w);
    }
  }

  lemma MirroredFailure(p: Project, q: Project, sources: seq<Source>, contract: Value, clause: Value)
    requires IdOf(contract).Some? && IdOf(clause).Some? && Mirrors(p, q, sources, contract, clause)
    ensures HasFailure(q, sources, contract, clause) <==> HasFailure(p, sources, contract, clause)
  {
    hide Mirrors, Checks, Fresh, Fails, Succeeds;
    if e, v :| Fresh(p, sources, contract, clause, e, v) && Fails(e) {
      FreshIsCheck(p, sources, contract, clause, e, v);
      var w := Forward(p, q, sources, contract, clause, e, v);
    }
    if e, w :| Fresh(q, sources, contract, clause, e, w) && Fails(e) {
      FreshIsCheck(q, sources, contract, clause, e, w);
      var v := Backward(p, q, sources, contract, clause, e, w);
    }
  }

  lemma MirroredHistory(p: Project, q: Project, sources: seq<Source>, contract: Value, clause: Value)
    requires IdOf(contract).Some? && IdOf(clause).Some? && Mirrors(p, q, sources, contract, clause)
    ensures HasHistory(q, sources, contract, clause) <==> HasHistory(p, sources, contract, clause)
  {
    hide Mirrors, Checks, Fresh, Succeeds;
    if e, v :| Checks(p, contract, clause, e, v) && !Fresh(p, sources, contract, clause, e, v) {
      var w := Forward(p, q, sources, contract, clause, e, v);
    }
    if e, w :| Checks(q, contract, clause, e, w) && !Fresh(q, sources, contract, clause, e, w) {
      var v := Backward(p, q, sources, contract, clause, e, w);
    }
  }

  lemma MirroredStatus(p: Project, q: Project, sources: seq<Source>, contract: Value, clause: Value)
    requires IdOf(contract).Some? && IdOf(clause).Some? && Mirrors(p, q, sources, contract, clause)
    ensures DefinedStatus(q, sources, contract, clause) == DefinedStatus(p, sources, contract, clause)
  {
    MirroredSuccess(p, q, sources, contract, clause);
    MirroredFailure(p, q, sources, contract, clause);
    MirroredHistory(p, q, sources, contract, clause);
    hide Mirrors, HasSuccess, HasFailure, HasHistory;
  }

  lemma MirroredStaleRefs(p: Project, q: Project, sources: seq<Source>, contract: Value, clause: Value, ref: string)
    requires IdOf(contract).Some? && IdOf(clause).Some? && Mirrors(p, q, sources, contract, clause)
    ensures StaleFor(q, sources, contract, clause, ref) <==> StaleFor(p, sources, contract, clause, ref)
  {
    hide Checks, StaleRefs, CompactResult, Compacted;
    if e, v :| Checks(p, contract, clause, e, v) && ref in StaleRefs(sources, v, IdOf(contract).value, IdOf(e).value) {
      assert ref in StaleRefs(sources, Compacted(v), IdOf(contract).value, IdOf(e).value);
    }
    if e, w :| Checks(q, contract, clause, e, w) && ref in StaleRefs(sources, w, IdOf(contract).value, IdOf(e).value) {
      assert Traced(p, contract, clause, e, w);
      var v :| Checks(p, contract, clause, e, v) && CompactResult(v.result).Some? && Compacted(v) == w;
      assert ref in StaleRefs(sources, v, IdOf(contract).value, IdOf(e).value);
    }
  }

  lemma MirroredResults(p: Project, q: Project, sources: seq<Source>, contract: Value, clause: Value)
    requires IdOf(contract).Some? && IdOf(clause).Some? && Mirrors(p, q, sources, contract, clause)
    ensures CheckingResults(q, contract, clause) == CheckingResults(p, contract, clause)
  {
    forall id: string ensures id in CheckingResults(q, contract, clause) <==> id in CheckingResults(p, contract, clause) {
      if id in CheckingResults(p, contract, clause) {
        MirroredResultForward(p, q, sources, contract, clause, id);
      }
      if id in CheckingResults(q, contract, clause) {
        MirroredResultBack(p, q, sources, contract, clause, id);
      }
    }
  }

  lemma MirroredResultForward(p: Project, q: Project, sources: seq<Source>, contract: Value, clause: Value, id: string)
    requires IdOf(contract).Some? && IdOf(clause).Some? && Mirrors(p, q, sources, contract, clause)
    requires id in CheckingResults(p, contract, clause)
    ensures id in CheckingResults(q, contract, clause)
  {
    hide Checks, StaleRefs, Succeeds, CompactResult, Compacted;
    var r :| r in p.results && IdOf(r) == Some(id) && exists e, o :: Checks(p, contract, clause, e, Verification(r, o));
    var e, o :| Checks(p, contract, clause, e, Verification(r, o));
    var w := Compacted(Verification(r, o));
    assert Checks(q, contract, clause, e, w);
    assert w == Verification(w.result, w.outcome);
    assert Checks(q, contract, clause, e, Verification(w.result, w.outcome));
    assert w.result in q.results;
  }

  lemma MirroredResultBack(p: Project, q: Project, sources: seq<Source>, contract: Value, clause: Value, id: string)
    requires IdOf(contract).Some? && IdOf(clause).Some? && Mirrors(p, q, sources, contract, clause)
    requires id in CheckingResults(q, contract, clause)
    ensures id in CheckingResults(p, contract, clause)
  {
    hide Checks, StaleRefs, Succeeds, CompactResult, Compacted;
    var r :| r in q.results && IdOf(r) == Some(id) && exists e, o :: Checks(q, contract, clause, e, Verification(r, o));
    var e, o :| Checks(q, contract, clause, e, Verification(r, o));
    assert Traced(p, contract, clause, e, Verification(r, o));
    var v :| Checks(p, contract, clause, e, v) && CompactResult(v.result).Some? && Compacted(v) == Verification(r, o);
    assert v == Verification(v.result, v.outcome);
    assert Checks(p, contract, clause, e, Verification(v.result, v.outcome));
  }

  /** Compaction changes nothing the definition of health says about a clause. */
  lemma CompactClauseHealth(p: Project, sources: seq<Source>, contract: Value, clause: Value, h: ClauseHealth)
    requires IdOf(contract).Some? && IdOf(clause).Some? && Compactable(p.results)
    ensures Healthy(CompactProject(p), sources, contract, clause, h) <==> Healthy(p, sources, contract, clause, h)
  {
    var q := CompactProject(p);
    CompactMirrors(p, sources, contract, clause);
    MirroredStatus(p, q, sources, contract, clause);
    MirroredResults(p, q, sources, contract, clause);
    forall ref: string ensures StaleFor(q, sources, contract, clause, ref) <==> StaleFor(p, sources, contract, clause, ref) {
      MirroredStaleRefs(p, q, sources, contract, clause, ref);
    }
    SameSupport(p, q, contract, clause);
    hide Mirrors, DefinedStatus, CheckingResults, SupportingRefs, StaleFor;
  }

  lemma SameSupport(p: Project, q: Project, contract: Value, clause: Value)
    requires IdOf(contract).Some? && IdOf(clause).Some? && p.evidence == q.evidence
    ensures SupportingRefs(q, contract, clause) == SupportingRefs(p, contract, clause)
  {
    hide EvidenceCovers;
    assert forall e :: Supports(p, contract, clause, e) <==> Supports(q, contract, clause, e);
  }

  // ------------------------------------------------------ digests and the whole report

  /** The digest of every record, by ID. */
  ghost predicate DigestsOf(known: map<string, Value>, records: seq<Value>) {
    && (forall i | 0 <= i < |records| :: IdOf(records[i]).Some? && Canonical(records[i])
          && Lookup(known, IdOf(records[i]).value) == Some(Digest(records[i])))
  }

  ghost predicate OutsideOf(known: map<string, Value>, records: seq<Value>) {
    forall i | 0 <= i < |records| :: IdOf(records[i]).Some? ==> IdOf(records[i]).value !in known
  }

  lemma {:induction false} UnknownSources(records: seq<Value>, known: map<string, Value>, contracts: bool)
    requires OutsideOf(known, records)
    ensures RecordSources(records, known, contracts) == RecordSources(records, map[], contracts)
  {
    if records != [] {
      UnknownSources(records[..|records| - 1], known, contracts);
    }
  }

  lemma {:induction false} KnownSources(originals: seq<Value>, records: seq<Value>, known: map<string, Value>)
    requires |records| == |originals| && DigestsOf(known, originals)
    requires forall i | 0 <= i < |records| :: IdOf(records[i]) == IdOf(originals[i])
    ensures RecordSources(records, known, false) == RecordSources(originals, map[], false)
  {
    if records != [] {
      KnownSources(originals[..|records| - 1], records[..|records| - 1], known);
    }
  }

  lemma CompactIds(results: seq<Value>)
    requires Compactable(results)
    ensures forall i | 0 <= i < |results| :: IdOf(CompactResults(results)[i]) == IdOf(results[i])
  {
    forall i | 0 <= i < |results| ensures IdOf(CompactResults(results)[i]) == IdOf(results[i]) {
      assert results[i] in results;
      CompactKeepsFields(results[i]);
    }
  }

  /** The digests kept beside the compacted records give the sources of the originals. */
  lemma SameSources(p: Project, known: map<string, Value>)
    requires Compactable(p.results) && DigestsOf(known, p.results) && DigestsOf(known, p.evidence)
    requires OutsideOf(known, p.changes) && OutsideOf(known, p.contracts) && OutsideOf(known, p.decisions)
    ensures Sources(CompactProject(p), known) == Sources(p, map[])
  {
    CompactIds(p.results);
    KnownSources(p.results, CompactResults(p.results), known);
    KnownSources(p.evidence, p.evidence, known);
    UnknownSources(p.changes, known, false);
    UnknownSources(p.contracts, known, true);
    UnknownSources(p.decisions, known, false);
  }

  lemma SameConsulted(p: Project, ref: string)
    requires Compactable(p.results)
    ensures Consulted(CompactProject(p).results, ref) <==> Consulted(p.results, ref)
  {
    var q := CompactProject(p);
    hide CompactProject;
    if v: Verification :| v.result in p.results && Verifying(v.result) && v.outcome in Outcomes(v.result)
                          && Manifest(v).Some? && ref in Manifest(v).value {
      ConsultedForward(p, v, ref);
    }
    if w: Verification :| w.result in q.results && Verifying(w.result) && w.outcome in Outcomes(w.result)
                          && Manifest(w).Some? && ref in Manifest(w).value {
      ConsultedBack(p, w, ref);
    }
  }

  lemma ConsultedForward(p: Project, v: Verification, ref: string)
    requires Compactable(p.results)
    requires v.result in p.results && Verifying(v.result) && v.outcome in Outcomes(v.result)
    requires Manifest(v).Some? && ref in Manifest(v).value
    ensures Consulted(CompactProject(p).results, ref)
  {
    CompactMember(p.results, v.result);
    OutcomeMember(v.result, v.outcome);
    CompactKeepsFields(v.result);
    CompactionKeepsManifest(v);
    hide Manifest, CompactResult, CompactOutcome, Outcomes, Verifying;
    assert Compacted(v).result in CompactProject(p).results;
  }

  lemma ConsultedBack(p: Project, w: Verification, ref: string)
    requires Compactable(p.results)
    requires w.result in CompactProject(p).results && Verifying(w.result) && w.outcome in Outcomes(w.result)
    requires Manifest(w).Some? && ref in Manifest(w).value
    ensures Consulted(p.results, ref)
  {
    var v := Original(p, w);
    CompactKeepsFields(v.result);
    CompactionKeepsManifest(v);
    hide Manifest, CompactResult, CompactOutcome, Outcomes, Verifying, CompactProject;
    assert v.result in p.results;
  }

  /** The Schema Registry gives the compacted form of every Result the report needs the verdict
      it gives the original. */
  ghost predicate VerdictsAgree(p: Project, valid: Registry)
    requires Compactable(p.results)
  {
    forall r | r in p.results && NeededForHealth(p, "result", r) ::
      valid("result", CompactResult(r).value) == valid("result", r)
  }

  /** The Schema Registry as the cached report meets it: Results are judged in compacted form. */
  function OnCompacted(valid: Registry): Registry {
    (kind: string, record: Value) =>
      if kind == "result" && CompactResult(record).Some? then valid(kind, CompactResult(record).value) else valid(kind, record)
  }

  lemma JudgedAlike(p: Project, valid: Registry, kind: string, records: seq<Value>)
    requires kind != "result"
    ensures AllValid(p, OnCompacted(valid), kind, records) <==> AllValid(p, valid, kind, records)
  {
    hide NeededForHealth, CompactResult;
  }

  lemma AgreeingVerdicts(p: Project, valid: Registry, known: map<string, Value>)
    requires Compactable(p.results) && VerdictsAgree(p, valid)
    ensures Reportable(p, OnCompacted(valid), known) <==> Reportable(p, valid, known)
  {
    JudgedAlike(p, valid, "change", p.changes);
    JudgedAlike(p, valid, "contract", p.contracts);
    JudgedAlike(p, valid, "decision", p.decisions);
    JudgedAlike(p, valid, "evidence", p.evidence);
    assert AllValid(p, OnCompacted(valid), "result", p.results) <==> AllValid(p, valid, "result", p.results) by {
      hide NeededForHealth, CompactResult;
    }
    hide AllValid, UniqueIds, Sources, DistinctRefs, ConsultedDigestible, OnCompacted;
  }

  lemma SameNeeds(p: Project, kind: string, record: Value)
    requires Compactable(p.results)
    ensures NeededForHealth(CompactProject(p), kind, record) <==> NeededForHealth(p, kind, record)
  {
    if IdOf(record).Some? {
      SameConsulted(p, IdOf(record).value);
    }
    hide Consulted, CompactProject;
  }

  lemma SameValidity(p: Project, valid: Registry, kind: string, records: seq<Value>)
    requires Compactable(p.results) && kind != "result"
    ensures AllValid(CompactProject(p), valid, kind, records) <==> AllValid(p, OnCompacted(valid), kind, records)
  {
    JudgedAlike(p, valid, kind, records);
    forall record ensures NeededForHealth(CompactProject(p), kind, record) <==> NeededForHealth(p, kind, record) {
      SameNeeds(p, kind, record);
    }
    hide NeededForHealth, OnCompacted;
  }

  lemma CompactNeeds(p: Project, r: Value)
    requires Compactable(p.results) && r in p.results
    ensures NeededForHealth(CompactProject(p), "result", CompactResult(r).value) <==> NeededForHealth(p, "result", r)
  {
    CompactKeepsFields(r);
    SameNeeds(p, "result", CompactResult(r).value);
    hide Consulted, CompactProject, CompactResult, Verifying;
  }

  lemma ResultValidity(p: Project, valid: Registry)
    requires Compactable(p.results)
    ensures AllValid(CompactProject(p), valid, "result", CompactProject(p).results) <==> AllValid(p, OnCompacted(valid), "result", p.results)
  {
    var q := CompactProject(p);
    forall r | r in p.results
      ensures NeededForHealth(q, "result", CompactResult(r).value) <==> NeededForHealth(p, "result", r)
      ensures CompactResult(r).value in q.results
    {
      CompactNeeds(p, r);
      CompactMember(p.results, r);
    }
    hide NeededForHealth, CompactResult;
    forall c | c in q.results ensures exists r | r in p.results :: CompactResult(r).value == c {
      var i :| 0 <= i < |p.results| && CompactResults(p.results)[i] == c;
      assert p.results[i] in p.results;
    }
  }

  lemma SameUniqueIds(xs: seq<Value>, ys: seq<Value>)
    requires |xs| == |ys| && forall i | 0 <= i < |xs| :: IdOf(xs[i]) == IdOf(ys[i])
    ensures UniqueIds(xs) <==> UniqueIds(ys)
  {
    hide IdOf;
  }

  /** A report can be built from the compacted records exactly when it can be built from the
      originals under a registry that judges Results in compacted form, and then it is the same
      report; where the registry judges both forms alike, it is built exactly when the other is. */
  lemma CompactedReportIsTheReport(p: Project, valid: Registry, known: map<string, Value>)
    requires Compactable(p.results)
    requires DigestsOf(known, p.results) && DigestsOf(known, p.evidence)
    requires OutsideOf(known, p.changes) && OutsideOf(known, p.contracts) && OutsideOf(known, p.decisions)
    ensures Reportable(CompactProject(p), valid, known) <==> Reportable(p, OnCompacted(valid), map[])
    ensures VerdictsAgree(p, valid) ==> (Reportable(CompactProject(p), valid, known) <==> Reportable(p, valid, map[]))
    ensures forall r :: Describes(CompactProject(p), known, r) <==> Describes(p, map[], r)
  {
    SameReports(p, known);
    SameReportable(p, valid, known);
    hide *;
    if VerdictsAgree(p, valid) {
      AgreeingVerdicts(p, valid, map[]);
    }
  }

  lemma SameReports(p: Project, known: map<string, Value>)
    requires Compactable(p.results)
    requires DigestsOf(known, p.results) && DigestsOf(known, p.evidence)
    requires OutsideOf(known, p.changes) && OutsideOf(known, p.contracts) && OutsideOf(known, p.decisions)
    ensures forall r :: Describes(CompactProject(p), known, r) <==> Describes(p, map[], r)
  {
    SameSources(p, known);
    var q := CompactProject(p);
    forall site, h ensures HealthyAt(q, Sources(p, map[]), site, h) <==> HealthyAt(p, Sources(p, map[]), site, h) {
      if Named(site) {
        CompactClauseHealth(p, Sources(p, map[]), site.contract, site.clause, h);
      }
    }
    hide HealthyAt, Sources, RefOf, Named, Summarize;
  }

  lemma SameReportable(p: Project, valid: Registry, known: map<string, Value>)
    requires Compactable(p.results)
    requires DigestsOf(known, p.results) && DigestsOf(known, p.evidence)
    requires OutsideOf(known, p.changes) && OutsideOf(known, p.contracts) && OutsideOf(known, p.decisions)
    ensures Reportable(CompactProject(p), valid, known) <==> Reportable(p, OnCompacted(valid), map[])
  {
    SameSources(p, known);
    SameValidity(p, valid, "change", p.changes);
    SameValidity(p, valid, "contract", p.contracts);
    SameValidity(p, valid, "decision", p.decisions);
    SameValidity(p, valid, "evidence", p.evidence);
    ResultValidity(p, valid);
    CompactIds(p.results);
    SameUniqueIds(CompactResults(p.results), p.results);
    forall ref: string ensures Consulted(CompactProject(p).results, ref) <==> Consulted(p.results, ref) {
      SameConsulted(p, ref);
    }
    hide Consulted, AllValid, UniqueIds, Sources, DistinctRefs;
  }

  // ------------------------------------------------------- where transparency ends

  /** For a project that can be reported on, the compacted records can be reported on exactly
      when the Schema Registry accepts the compacted form of every Result the report needs. */
  lemma CompactedReportableIff(p: Project, valid: Registry, known: map<string, Value>)
    requires Compactable(p.results) && Reportable(p, valid, map[])
    requires DigestsOf(known, p.results) && DigestsOf(known, p.evidence)
    requires OutsideOf(known, p.changes) && OutsideOf(known, p.contracts) && OutsideOf(known, p.decisions)
    ensures Reportable(CompactProject(p), valid, known) <==>
            forall r | r in p.results && NeededForHealth(p, "result", r) :: valid("result", CompactResult(r).value)
  {
    SameReportable(p, valid, known);
    JudgedAlike(p, valid, "change", p.changes);
    JudgedAlike(p, valid, "contract", p.contracts);
    JudgedAlike(p, valid, "decision", p.decisions);
    JudgedAlike(p, valid, "evidence", p.evidence);
    assert AllValid(p, OnCompacted(valid), "result", p.results) <==>
           forall r | r in p.results && NeededForHealth(p, "result", r) :: valid("result", CompactResult(r).value) by {
      hide NeededForHealth, CompactResult;
    }
    hide NeededForHealth, CompactResult, CompactProject, UniqueIds, Sources, DistinctRefs, ConsultedDigestible, AllValid, OnCompacted;
  }

  /** A Result whose payload has no outcomes gains a null one, so a registry with closed payloads
      refuses the cached report once an Evidence outcome consults that Result's ID. */
  lemma ConsultedPlainResultBreaksCachedReport(p: Project, valid: Registry, known: map<string, Value>, r: Value)
    requires Compactable(p.results) && r in p.results
    requires IdOf(r).Some? && Consulted(p.results, IdOf(r).value)
    requires r.At("payload").Obj? && r.At("payload").Get("outcomes").None?
    requires forall v :: valid("result", v) ==> v.At("payload").Get("outcomes") != Some(Null)
    ensures !Reportable(CompactProject(p), valid, known)
  {
    var c := CompactResult(r).value;
    assert c.At("payload").Get("outcomes") == Some(Null);
    CompactNeeds(p, r);
    CompactMember(p.results, r);
    hide CompactResult, UniqueIds, Sources, DistinctRefs, ConsultedDigestible, Consulted;
    assert NeededForHealth(p, "result", r);
  }

  /** A report is determined by what it describes: two reports on one project are equal. */
  lemma ReportIsUnique(p: Project, known: map<string, Value>, a: Report, b: Report)
    requires Describes(p, known, a) && Describes(p, known, b)
    ensures a == b
  {
    hide HealthyAt, RefOf, Named, Sources, AllSites, Summarize;
    forall ref: string ensures ref in a.clauses <==> ref in b.clauses {
      if ref in a.clauses {
        var site :| site in AllSites(p.contracts) && Named(site) && RefOf(site) == ref;
      }
      if ref in b.clauses {
        var site :| site in AllSites(p.contracts) && Named(site) && RefOf(site) == ref;
      }
    }
    forall ref | ref in a.clauses ensures a.clauses[ref] == b.clauses[ref] {
      var site :| site in AllSites(p.contracts) && Named(site) && RefOf(site) == ref;
      HealthIsUnique(p, Sources(p, known), site, a.clauses[ref], b.clauses[ref]);
    }
    assert a.clauses == b.clauses;
  }

  lemma HealthIsUnique(p: Project, sources: seq<Source>, site: Site, g: ClauseHealth, h: ClauseHealth)
    requires HealthyAt(p, sources, site, g) && HealthyAt(p, sources, site, h)
    ensures g == h
  {
    hide DefinedStatus, SupportingRefs, CheckingResults, StaleFor, EffectiveMode, EffectiveAppliesTo;
    assert g.staleRefs == h.staleRefs;
  }
}
