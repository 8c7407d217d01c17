/** A project whose cached report fails although the uncached one succeeds: a plain Result without
    outcomes that an Evidence outcome lists in its manifest.
  */
module HealthIndexResidual {
  import opened Json
  import opened HealthRecords
  import opened ContractHealth
  import opened ContractHealthReport
  import opened HealthIndex
  import opened HealthIndexLaws

  /** A Result of another schema, with an empty payload. */
  const PLAIN := Obj(map["id" := Str("r1"), "payload" := Obj(map[])])

  /** An outcome that depends on the plain Result. */
  const OUTCOME := Obj(map["freshness_refs" := Obj(map["r1" := Digest(PLAIN)])])

  const VERIFYING := Obj(map[
    "id" := Str("r2"),
    "result_schema" := Str("result.evidence"),
    "role" := Str("Builder"),
    "payload" := Obj(map["outcomes" := Arr([OUTCOME])])])

  const PROJECT := Project([], [], [], [PLAIN, VERIFYING], [], Null)

  /** A registry whose only demand is that a payload has no null `outcomes`. */
  function NoNullOutcomes(kind: string, record: Value): bool {
    record.At("payload").Get("outcomes") != Some(Null)
  }

  lemma PlainIsConsulted()
    ensures Consulted(PROJECT.results, "r1")
  {
    var v := Verification(VERIFYING, OUTCOME);
    assert VERIFYING == PROJECT.results[1] && OUTCOME == Outcomes(VERIFYING)[0];
    assert v.result in PROJECT.results && Verifying(v.result) && v.outcome in Outcomes(v.result);
    assert Manifest(v) == Some(map["r1" := Digest(PLAIN)]);
  }

  lemma HaveDigests()
    ensures Canonical(PLAIN) && Canonical(VERIFYING)
  {
    assert Canonical(Obj(map[]));
    assert Canonical(Obj(map["r1" := Digest(PLAIN)]));
    assert Canonical(OUTCOME);
    assert Canonical(Arr([OUTCOME]));
    assert Canonical(VERIFYING.At("payload"));
  }

  lemma ResultsHaveSources()
    ensures Sources(PROJECT, map[]) == [RecordSource(PLAIN, map[]), RecordSource(VERIFYING, map[])]
  {
    hide RecordSource;
    var rs := PROJECT.results;
    assert rs[..|rs| - 1] == [PLAIN];
    assert RecordSources(rs, map[], false) == RecordSources([PLAIN], map[], false) + [RecordSource(VERIFYING, map[])];
  }

  lemma ConsultedHaveDigests()
    ensures ConsultedDigestible(PROJECT, Sources(PROJECT, map[]))
  {
    ResultsHaveSources();
    HaveDigests();
    hide Consulted, Canonical, Sources, RecordSources;
    assert IdOf(PLAIN).Some? && IdOf(VERIFYING).Some?;
  }

  lemma UncachedReportWorks()
    ensures Reportable(PROJECT, NoNullOutcomes, map[])
  {
    ConsultedHaveDigests();
    hide Consulted, ConsultedDigestible, Sources;
    assert IdOf(PLAIN) == Some("r1") && IdOf(VERIFYING) == Some("r2");
    assert NoNullOutcomes("result", PLAIN) && NoNullOutcomes("result", VERIFYING);
  }

  lemma HaveCompactedForms()
    ensures Compactable(PROJECT.results)
  {
    hide CompactOutcome;
  }

  /** The uncached report can be built, and the one from compacted records cannot, whatever
      digests are at hand. */
  lemma CachedReportFails(known: map<string, Value>)
    ensures Reportable(PROJECT, NoNullOutcomes, map[])
    ensures Compactable(PROJECT.results) && !Reportable(CompactProject(PROJECT), NoNullOutcomes, known)
  {
    UncachedReportWorks();
    HaveCompactedForms();
    PlainIsConsulted();
    hide Consulted, Compactable, Reportable, NoNullOutcomes, CompactProject;
    assert forall v :: NoNullOutcomes("result", v) ==> v.At("payload").Get("outcomes") != Some(Null) by {
      NullOutcomesRefused();
    }
    assert PLAIN == PROJECT.results[0];
    ConsultedPlainResultBreaksCachedReport(PROJECT, NoNullOutcomes, known, PLAIN);
  }

  lemma NullOutcomesRefused()
    ensures forall v :: NoNullOutcomes("result", v) ==> v.At("payload").Get("outcomes") != Some(Null)
  {}
}
