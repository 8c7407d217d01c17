/** The records Contract Health reads, and the definition of a clause's health that quantifies
    over all Evidence, all Results and all outcomes with every current digest at hand.
  */
module HealthRecords {
  import opened Json

  /** A whole project: one list per record collection, and the repository observation. */
  datatype Project = Project(
    changes: seq<Value>,
    contracts: seq<Value>,
    decisions: seq<Value>,
    results: seq<Value>,
    evidence: seq<Value>,
    repository: Value)

  datatype EvidenceMode = LegacyDirect | Direct | Inherited | Review

  datatype Status = Verified | Stale | Unverified | Failed | InReview

  /** One clause of the report.  The lists the code collects from sorted sets are sets here. */
  datatype ClauseHealth = ClauseHealth(
    contractId: string,
    clauseId: string,
    text: string,
    appliesTo: seq<string>,
    authorityRef: Option<string>,
    mode: EvidenceMode,
    status: Status,
    evidenceRefs: set<string>,
    resultIds: set<string>,
    staleRefs: set<string>)

  /** A Result together with one of its outcomes. */
  datatype Verification = Verification(result: Value, outcome: Value)

  const MISSING_MANIFEST := "missing-freshness-manifest"

  function ClauseRef(contractId: string, clauseId: string): string {
    contractId + "#" + clauseId
  }

  function Clauses(contract: Value): seq<Value> {
    contract.At("clauses").Elements()
  }

  // ------------------------------------------------------------- contract_scope.rs

  function EffectiveAppliesTo(contract: Value, clause: Value): seq<string> {
    if clause.At("applies_to").Arr? then Strings(clause.At("applies_to").items)
    else Strings(contract.At("applies_to").Elements())
  }

  function EffectiveMode(contract: Value, clause: Value): EvidenceMode {
    var declared := if clause.At("evidence_mode").Str? then clause.At("evidence_mode").AsStr()
                    else contract.At("evidence_mode").AsStr();
    match declared
    case Some("direct") => Direct
    case Some("inherited") => Inherited
    case Some("review") => Review
    case _ => LegacyDirect
  }

  // -------------------------------------------------------------- Results and outcomes

  predicate Verifying(result: Value) {
    && result.At("result_schema") == Str("result.evidence")
    && result.At("role") == Str("Builder")
  }

  function Outcomes(result: Value): seq<Value> {
    result.At("payload").At("outcomes").Elements()
  }

  function BasisRefs(outcome: Value): seq<string> {
    Strings(outcome.At("basis_refs").Elements())
  }

  /** The freshness manifest in force for an outcome, as written. */
  function ManifestValue(v: Verification): Option<Value> {
    if v.outcome.Get("freshness_refs").Some? then v.outcome.Get("freshness_refs")
    else if v.result.Get("freshness_refs").Some? then v.result.Get("freshness_refs")
    else v.result.Get("input_refs")
  }

  function Manifest(v: Verification): Option<map<string, Value>> {
    if ManifestValue(v).Some? then ManifestValue(v).value.AsObj() else None
  }

  // ------------------------------------------------------------------------- Evidence

  function CoveredRefs(evidence: Value): seq<string> {
    Strings(evidence.At("contract_clause_refs").Elements())
  }

  predicate Claims(evidence: Value, clauseRef: string) {
    exists claim | claim in evidence.At("claims").Elements() :: claim.At("contract_clause_ref") == Str(clauseRef)
  }

  predicate EvidenceCovers(evidence: Value, clauseRef: string, mode: EvidenceMode) {
    clauseRef in CoveredRefs(evidence) && (mode == Direct ==> Claims(evidence, clauseRef))
  }

  /** `evidence_verifies_outcome` */
  predicate EvidenceVerifies(evidence: Value, outcome: Value) {
    && NonEmpty(evidence.At("git_revision"))
    && NonEmpty(evidence.At("method"))
    && outcome.At("instance_key").Str?
    && outcome.At("instance_key").s in Strings(evidence.At("requirement_instances").Elements())
    && NonEmpty(evidence.At("artifact").At("uri"))
    && Sha256Text(evidence.At("artifact").At("digest"))
    && evidence.At("artifact").At("exit_code") == Int(0)
  }

  predicate Succeeds(evidence: Value, outcome: Value) {
    && evidence.At("outcome") == Str("passed")
    && outcome.At("status") == Str("satisfied")
    && EvidenceVerifies(evidence, outcome)
  }

  predicate Fails(evidence: Value) {
    evidence.At("outcome") == Str("failed") || evidence.At("outcome") == Str("inconclusive")
  }

  // ------------------------------------------------------------------ current digests

  /** One thing the current digest map can bind; a digest is None when it cannot be computed. */
  datatype Source = Bound(ref: string, digest: Option<Value>) | Malformed

  function RecordSource(record: Value, known: map<string, Value>): Source {
    match IdOf(record)
    case None => Malformed
    case Some(id) => Bound(id, if id in known then Some(known[id]) else CanonicalDigest(record))
  }

  function ClauseSource(contract: Value, clause: Value): Source {
    if IdOf(contract).None? || IdOf(clause).None? then Malformed
    else Bound(ClauseRef(IdOf(contract).value, IdOf(clause).value), CanonicalDigest(clause))
  }

  function ArtifactSource(artifact: Value): Source {
    match artifact.At("ref").AsStr()
    case None => Malformed
    case Some(ref) =>
      // The fallback digest is computed even when the artifact carries its own.
      if CanonicalDigest(artifact).None? then Bound(ref, None)
      else if artifact.At("digest").AsText().Some? && artifact.At("digest") != Str("") then Bound(ref, Some(artifact.At("digest")))
      else Bound(ref, CanonicalDigest(artifact))
  }

  function ClauseSources(contract: Value, clauses: seq<Value>): seq<Source> {
    seq(|clauses|, i requires 0 <= i < |clauses| => ClauseSource(contract, clauses[i]))
  }

  function RecordSources(records: seq<Value>, known: map<string, Value>, contracts: bool): seq<Source> {
    if records == [] then []
    else
      var last := records[|records| - 1];
      RecordSources(records[..|records| - 1], known, contracts) + [RecordSource(last, known)]
      + if contracts then ClauseSources(last, Clauses(last)) else []
  }

  function ArtifactSources(artifacts: seq<Value>): seq<Source> {
    seq(|artifacts|, i requires 0 <= i < |artifacts| => ArtifactSource(artifacts[i]))
  }

  /** Everything with a current digest, in the order the code visits it. */
  function Sources(p: Project, known: map<string, Value>): seq<Source> {
    RecordSources(p.changes, known, false) + RecordSources(p.contracts, known, true)
    + RecordSources(p.decisions, known, false) + RecordSources(p.results, known, false)
    + RecordSources(p.evidence, known, false) + ArtifactSources(p.repository.At("artifacts").Elements())
  }

  /** The full digest map: the last binding of a reference wins. */
  function CurrentDigest(sources: seq<Source>, ref: string): Option<Value> {
    if sources == [] then None
    else
      var last := sources[|sources| - 1];
      if last.Bound? && last.ref == ref then last.digest else CurrentDigest(sources[..|sources| - 1], ref)
  }

  // ------------------------------------------------------------- the health of a clause

  /** The manifest entries that differ from the full digest map, and the references the
      manifest had to list but does not. */
  ghost function StaleRefs(sources: seq<Source>, v: Verification, contractId: string, evidenceId: string): set<string> {
    match Manifest(v)
    case None => {MISSING_MANIFEST}
    case Some(manifest) =>
      (set ref | ref in manifest && CurrentDigest(sources, ref) != manifest[ref].AsText())
      + (set ref | ref in {contractId, evidenceId} && ref !in manifest)
  }

  ghost predicate Supports(p: Project, contract: Value, clause: Value, evidence: Value)
    requires IdOf(contract).Some? && IdOf(clause).Some?
  {
    && evidence in p.evidence
    && IdOf(evidence).Some?
    && EvidenceCovers(evidence, ClauseRef(IdOf(contract).value, IdOf(clause).value), EffectiveMode(contract, clause))
  }

  /** The outcome counts for the clause through this Evidence. */
  ghost predicate Checks(p: Project, contract: Value, clause: Value, evidence: Value, v: Verification)
    requires IdOf(contract).Some? && IdOf(clause).Some?
  {
    && Supports(p, contract, clause, evidence)
    && v.result in p.results && Verifying(v.result) && v.outcome in Outcomes(v.result)
    && IdOf(evidence).value in BasisRefs(v.outcome)
    && v.result.At("change_id") == evidence.At("change_id")
    && IdOf(v.result).Some?
  }

  ghost predicate Fresh(p: Project, sources: seq<Source>, contract: Value, clause: Value, evidence: Value, v: Verification)
    requires IdOf(contract).Some? && IdOf(clause).Some?
  {
    && Checks(p, contract, clause, evidence, v)
    && StaleRefs(sources, v, IdOf(contract).value, IdOf(evidence).value) == {}
  }

  lemma FreshIsCheck(p: Project, sources: seq<Source>, contract: Value, clause: Value, e: Value, v: Verification)
    requires IdOf(contract).Some? && IdOf(clause).Some? && Fresh(p, sources, contract, clause, e, v)
    ensures Checks(p, contract, clause, e, v)
  {
    hide Checks, StaleRefs;
  }

  /** Some fresh outcome verifies the clause. */
  ghost predicate HasSuccess(p: Project, sources: seq<Source>, contract: Value, clause: Value)
    requires IdOf(contract).Some? && IdOf(clause).Some?
  {
    exists e, v :: Fresh(p, sources, contract, clause, e, v) && Succeeds(e, v.outcome)
  }

  /** Some fresh outcome rests on failed or inconclusive Evidence. */
  ghost predicate HasFailure(p: Project, sources: seq<Source>, contract: Value, clause: Value)
    requires IdOf(contract).Some? && IdOf(clause).Some?
  {
    exists e, v :: Fresh(p, sources, contract, clause, e, v) && Fails(e)
  }

  /** Some outcome checks the clause against digests that are no longer current. */
  ghost predicate HasHistory(p: Project, sources: seq<Source>, contract: Value, clause: Value)
    requires IdOf(contract).Some? && IdOf(clause).Some?
  {
    exists e, v :: Checks(p, contract, clause, e, v) && !Fresh(p, sources, contract, clause, e, v)
  }

  ghost function DefinedStatus(p: Project, sources: seq<Source>, contract: Value, clause: Value): Status
    requires IdOf(contract).Some? && IdOf(clause).Some?
  {
    if EffectiveMode(contract, clause) == Review then InReview
    else if HasSuccess(p, sources, contract, clause) then Verified
    else if HasFailure(p, sources, contract, clause) then Failed
    else if HasHistory(p, sources, contract, clause) then Stale
    else Unverified
  }

  ghost function SupportingRefs(p: Project, contract: Value, clause: Value): set<string>
    requires IdOf(contract).Some? && IdOf(clause).Some?
  {
    set e | e in p.evidence && Supports(p, contract, clause, e) :: IdOf(e).value
  }

  ghost function CheckingResults(p: Project, contract: Value, clause: Value): set<string>
    requires IdOf(contract).Some? && IdOf(clause).Some?
  {
    set r | r in p.results && IdOf(r).Some? && (exists e, o :: Checks(p, contract, clause, e, Verification(r, o))) :: IdOf(r).value
  }

  ghost predicate StaleFor(p: Project, sources: seq<Source>, contract: Value, clause: Value, ref: string)
    requires IdOf(contract).Some? && IdOf(clause).Some?
  {
    exists e, v :: Checks(p, contract, clause, e, v) && ref in StaleRefs(sources, v, IdOf(contract).value, IdOf(e).value)
  }

  /** What a report must say about a clause, by the definition alone. */
  ghost predicate Healthy(p: Project, sources: seq<Source>, contract: Value, clause: Value, h: ClauseHealth)
    requires IdOf(contract).Some? && IdOf(clause).Some?
  {
    && h.contractId == IdOf(contract).value
    && h.clauseId == IdOf(clause).value
    && h.text == (if clause.At("text").Str? then clause.At("text").s else "")
    && h.appliesTo == EffectiveAppliesTo(contract, clause)
    && h.authorityRef == clause.At("authority_ref").AsStr()
    && h.mode == EffectiveMode(contract, clause)
    && h.status == DefinedStatus(p, sources, contract, clause)
    && h.evidenceRefs == SupportingRefs(p, contract, clause)
    && h.resultIds == CheckingResults(p, contract, clause)
    && (h.status != Stale ==> h.staleRefs == {})
    && (h.status == Stale ==> forall ref :: ref in h.staleRefs <==> StaleFor(p, sources, contract, clause, ref))
  }
}
