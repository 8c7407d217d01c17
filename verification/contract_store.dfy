/** The in-memory Project store of src/application.rs: whole-record compare-and-swap beside the
    clause-scoped merge.  `Apply` is the store as a state machine over requests.
  */
module ContractStore {
  import opened Json
  import opened ContractMerge

  datatype StoreError =
    | SchemaInvalid
    | IdMissing
    | StaleUpdate
    | ExpectedDigestRequired
    | NoDigest
    | DuplicateRecord
    | RecordMissing
    | ResultChanged
    | Unreadable
    | WriteFailed
    | ClauseMerge(cause: MergeError)

  datatype Project = Project(
    contracts: seq<Value>,
    decisions: seq<Value>,
    results: seq<Value>,
    evidence: seq<Value>,
    repository: Value)

  datatype Request =
    | AppendResult(result: Value)
    | ReplaceResult(correction: Value, expectedResultId: string)
    | AddEvidence(item: Value)
    | UpsertDecision(decision: Value, decisionDigest: Option<Value>)
    | UpsertContract(contract: Value, contractDigest: Option<Value>)
    | UpsertContractClauses(patch: Value, clauseDigests: map<string, Value>)
    | UpdateRepository(observed: Value)

  /** The Schema Registry: which values are valid records of a kind. */
  type Registry = (string, Value) -> bool

  // ------------------------------------------------------------------ record lists

  /** The first record whose `id` field equals the given value. */
  function FindRecord(records: seq<Value>, id: Value): Option<Value> {
    if records == [] then None
    else if records[0].At("id") == id then Some(records[0])
    else FindRecord(records[1..], id)
  }

  /** `upsert_record` on one collection: replace the first record with this ID or append. */
  function Upserted(records: seq<Value>, id: string, record: Value): seq<Value> {
    if records == [] then [record]
    else if IdOf(records[0]) == Some(id) then [record] + records[1..]
    else [records[0]] + Upserted(records[1..], id, record)
  }

  predicate HasRecord(records: seq<Value>, id: string) {
    exists i | 0 <= i < |records| :: IdOf(records[i]) == Some(id)
  }

  /** `replace_result` finds the Result by Action and Context. */
  predicate SameAttempt(candidate: Value, result: Value) {
    && candidate.At("action_id").AsStr() == result.At("action_id").AsStr()
    && candidate.At("context_digest").AsText() == result.At("context_digest").AsText()
  }

  function AttemptIndex(results: seq<Value>, result: Value): Option<nat> {
    if results == [] then None
    else if SameAttempt(results[0], result) then Some(0)
    else match AttemptIndex(results[1..], result)
      case None => None
      case Some(i) => Some(i + 1)
  }

  lemma {:induction false} AttemptIndexBound(results: seq<Value>, result: Value)
    ensures AttemptIndex(results, result).Some? ==> AttemptIndex(results, result).value < |results|
  {
    if results != [] {
      AttemptIndexBound(results[1..], result);
    }
  }

  // ------------------------------------------------------------------- update guards

  /** `validate_contract_update`: a Contract both versions of which belong to one Change may be
      replaced blindly; every other replacement names the stored record. */
  function ContractGuard(existing: Option<Value>, proposed: Value, expected: Option<Value>): Option<StoreError> {
    if IdOf(proposed).None? then Some(IdMissing)
    else if existing.None? then (if expected.Some? then Some(StaleUpdate) else None)
    else
      var shared := existing.value.Get("change_id").None? || proposed.Get("change_id").None?;
      if expected.None? then (if shared then Some(ExpectedDigestRequired) else None)
      else if !Canonical(existing.value) then Some(NoDigest)
      else if expected.value != Digest(existing.value) then Some(StaleUpdate)
      else None
  }

  /** `validate_record_update` */
  function RecordGuard(existing: Option<Value>, proposed: Value, expected: Option<Value>): Option<StoreError> {
    if IdOf(proposed).None? then Some(IdMissing)
    else if existing.None? then (if expected.Some? then Some(StaleUpdate) else None)
    else if expected.None? then Some(ExpectedDigestRequired)
    else if !Canonical(existing.value) then Some(NoDigest)
    else if expected.value != Digest(existing.value) then Some(StaleUpdate)
    else None
  }

  function UpsertRecord(valid: Registry, kind: string, records: seq<Value>, record: Value)
    : Result<seq<Value>, StoreError>
  {
    if !valid(kind, record) then Err(SchemaInvalid)
    else if IdOf(record).None? then Err(IdMissing)
    else Ok(Upserted(records, IdOf(record).value, record))
  }

  function Apply(valid: Registry, s: Project, q: Request): Result<Project, StoreError> {
    match q
    case AppendResult(result) =>
      if !valid("result", result) then Err(SchemaInvalid)
      else if IdOf(result).None? then Err(IdMissing)
      else if HasRecord(s.results, IdOf(result).value) then Err(DuplicateRecord)
      else Ok(s.(results := s.results + [result]))
    case ReplaceResult(result, expectedId) =>
      if !valid("result", result) then Err(SchemaInvalid)
      else if result.At("action_id").AsStr().None? || result.At("context_digest").AsText().None? then Err(IdMissing)
      else
        AttemptIndexBound(s.results, result);
        (match AttemptIndex(s.results, result)
         case None => Err(RecordMissing)
         case Some(i) =>
           if IdOf(s.results[i]) != Some(expectedId) then Err(ResultChanged)
           else Ok(s.(results := s.results[i := result])))
    case AddEvidence(item) =>
      if !valid("evidence", item) then Err(SchemaInvalid)
      else if IdOf(item).None? then Err(IdMissing)
      else if HasRecord(s.evidence, IdOf(item).value) then Err(DuplicateRecord)
      else Ok(s.(evidence := s.evidence + [item]))
    case UpsertDecision(decision, expected) =>
      (match RecordGuard(FindRecord(s.decisions, decision.At("id")), decision, expected)
       case Some(e) => Err(e)
       case None =>
         match UpsertRecord(valid, "decision", s.decisions, decision)
         case Err(e) => Err(e)
         case Ok(rs) => Ok(s.(decisions := rs)))
    case UpsertContract(contract, expected) =>
      (match ContractGuard(FindRecord(s.contracts, contract.At("id")), contract, expected)
       case Some(e) => Err(e)
       case None =>
         match UpsertRecord(valid, "contract", s.contracts, contract)
         case Err(e) => Err(e)
         case Ok(rs) => Ok(s.(contracts := rs)))
    case UpsertContractClauses(patch, expected) =>
      if !valid("contract", patch) then Err(SchemaInvalid)
      else
        (match MergeRecord(FindRecord(s.contracts, patch.At("id")), patch, expected)
         case Err(e) => Err(ClauseMerge(e))
         case Ok(merged) =>
           match UpsertRecord(valid, "contract", s.contracts, merged)
           case Err(e) => Err(e)
           case Ok(rs) => Ok(s.(contracts := rs)))
    case UpdateRepository(observed) => Ok(s.(repository := observed))
  }

  /** The store after a request: a refused request changes nothing. */
  function After(valid: Registry, s: Project, q: Request): Project {
    match Apply(valid, s, q)
    case Ok(t) => t
    case Err(_) => s
  }

  function Refusal(r: Result<Project, StoreError>): Option<StoreError> {
    if r.Ok? then None else Some(r.error)
  }

  // ----------------------------------------------------------------------- the class

  class InMemoryProjectStore {
    const valid: Registry
    var contracts: seq<Value>
    var decisions: seq<Value>
    var results: seq<Value>
    var evidence: seq<Value>
    var repository: Value

    constructor (valid: Registry, project: Project)
      ensures this.valid == valid && State() == project
    {
      this.valid := valid;
      contracts, decisions := project.contracts, project.decisions;
      results, evidence := project.results, project.evidence;
      repository := project.repository;
    }

    function State(): Project
      reads this
    {
      Project(contracts, decisions, results, evidence, repository)
    }

    static method FirstRecord(records: seq<Value>, id: Value) returns (r: Option<Value>)
      ensures r == FindRecord(records, id)
    {
      var i := 0;
      while i < |records|
        invariant 0 <= i <= |records|
        invariant FindRecord(records, id) == FindRecord(records[i..], id)
      {
        if records[i].At("id") == id {
          return Some(records[i]);
        }
        i := i + 1;
      }
      return None;
    }

    static method Position(records: seq<Value>, id: string) returns (r: Option<nat>)
      ensures r.None? <==> !HasRecord(records, id)
      ensures r.Some? ==> r.value < |records| && IdOf(records[r.value]) == Some(id)
      ensures r.Some? ==> forall k | 0 <= k < r.value :: IdOf(records[k]) != Some(id)
    {
      for i := 0 to |records|
        invariant forall k | 0 <= k < i :: IdOf(records[k]) != Some(id)
      {
        if IdOf(records[i]) == Some(id) {
          return Some(i);
        }
      }
      return None;
    }

    static method Upsert(valid: Registry, kind: string, records: seq<Value>, record: Value)
      returns (r: Result<seq<Value>, StoreError>)
      ensures r == UpsertRecord(valid, kind, records, record)
    {
      if !valid(kind, record) {
        return Err(SchemaInvalid);
      }
      var id := IdOf(record);
      if id.None? {
        return Err(IdMissing);
      }
      var at := Position(records, id.value);
      UpsertedAt(records, id.value, record, if at.Some? then at.value else |records|);
      if at.Some? {
        return Ok(records[at.value := record]);
      }
      return Ok(records + [record]);
    }

    method AppendResultRecord(result: Value) returns (refused: Option<StoreError>)
      modifies this
      ensures refused == Refusal(Apply(valid, old(State()), AppendResult(result)))
      ensures State() == After(valid, old(State()), AppendResult(result))
    {
      if !valid("result", result) {
        return Some(SchemaInvalid);
      }
      var id := IdOf(result);
      if id.None? {
        return Some(IdMissing);
      }
      var at := Position(results, id.value);
      if at.Some? {
        return Some(DuplicateRecord);
      }
      results := results + [result];
      return None;
    }

    method ReplaceResultRecord(result: Value, expectedId: string) returns (refused: Option<StoreError>)
      modifies this
      ensures refused == Refusal(Apply(valid, old(State()), ReplaceResult(result, expectedId)))
      ensures State() == After(valid, old(State()), ReplaceResult(result, expectedId))
    {
      if !valid("result", result) {
        return Some(SchemaInvalid);
      }
      if result.At("action_id").AsStr().None? || result.At("context_digest").AsText().None? {
        return Some(IdMissing);
      }
      AttemptIndexBound(results, result);
      var i := 0;
      while i < |results| && !SameAttempt(results[i], result)
        invariant 0 <= i <= |results|
        invariant match AttemptIndex(results[i..], result)
                  case None => AttemptIndex(results, result).None?
                  case Some(k) => AttemptIndex(results, result) == Some(i + k)
      {
        i := i + 1;
      }
      if i == |results| {
        return Some(RecordMissing);
      }
      if IdOf(results[i]) != Some(expectedId) {
        return Some(ResultChanged);
      }
      results := results[i := result];
      return None;
    }

    method AddEvidenceRecord(item: Value) returns (refused: Option<StoreError>)
      modifies this
      ensures refused == Refusal(Apply(valid, old(State()), AddEvidence(item)))
      ensures State() == After(valid, old(State()), AddEvidence(item))
    {
      if !valid("evidence", item) {
        return Some(SchemaInvalid);
      }
      var id := IdOf(item);
      if id.None? {
        return Some(IdMissing);
      }
      var at := Position(evidence, id.value);
      if at.Some? {
        return Some(DuplicateRecord);
      }
      evidence := evidence + [item];
      return None;
    }

    method UpsertDecisionRecord(decision: Value, expected: Option<Value>) returns (refused: Option<StoreError>)
      modifies this
      ensures refused == Refusal(Apply(valid, old(State()), UpsertDecision(decision, expected)))
      ensures State() == After(valid, old(State()), UpsertDecision(decision, expected))
    {
      var existing := FirstRecord(decisions, decision.At("id"));
      var guard := RecordGuard(existing, decision, expected);
      if guard.Some? {
        return guard;
      }
      var written := Upsert(valid, "decision", decisions, decision);
      if written.Err? {
        return Some(written.error);
      }
      decisions := written.value;
      return None;
    }

    method UpsertContractRecord(contract: Value, expected: Option<Value>) returns (refused: Option<StoreError>)
      modifies this
      ensures refused == Refusal(Apply(valid, old(State()), UpsertContract(contract, expected)))
      ensures State() == After(valid, old(State()), UpsertContract(contract, expected))
    {
      var existing := FirstRecord(contracts, contract.At("id"));
      var guard := ContractGuard(existing, contract, expected);
      if guard.Some? {
        return guard;
      }
      var written := Upsert(valid, "contract", contracts, contract);
      if written.Err? {
        return Some(written.error);
      }
      contracts := written.value;
      return None;
    }

    method UpsertClauses(patch: Value, expected: map<string, Value>) returns (refused: Option<StoreError>)
      modifies this
      ensures refused == Refusal(Apply(valid, old(State()), UpsertContractClauses(patch, expected)))
      ensures State() == After(valid, old(State()), UpsertContractClauses(patch, expected))
    {
      if !valid("contract", patch) {
        return Some(SchemaInvalid);
      }
      var existing := FirstRecord(contracts, patch.At("id"));
      var merged := MergeContractClauseUpdate(existing, patch, expected);
      if merged.Err? {
        return Some(ClauseMerge(merged.error));
      }
      var written := Upsert(valid, "contract", contracts, merged.value);
      if written.Err? {
        return Some(written.error);
      }
      contracts := written.value;
      return None;
    }

    method UpdateRepositoryValue(observed: Value)
      modifies this
      ensures State() == After(valid, old(State()), UpdateRepository(observed))
    {
      repository := observed;
    }
  }

  lemma {:induction false} UpsertedAt(records: seq<Value>, id: string, record: Value, at: nat)
    requires at <= |records|
    requires forall k | 0 <= k < at :: IdOf(records[k]) != Some(id)
    requires at < |records| ==> IdOf(records[at]) == Some(id)
    ensures Upserted(records, id, record) == if at < |records| then records[at := record] else records + [record]
  {
    if at > 0 {
      UpsertedAt(records[1..], id, record, at - 1);
    }
  }
}
