/** No lost updates: over every run of requests, from any number of clients with arbitrarily
    old copies, a value of a shared Contract disappears only through a request naming it.
  */
module ContractStoreLaws {
  import opened Json
  import opened ContractMerge
  import opened ContractMergeLaws
  import opened ContractStore

  function ContractOf(s: Project, id: string): Option<Value> {
    FindRecord(s.contracts, Str(id))
  }

  function DecisionOf(s: Project, id: string): Option<Value> {
    FindRecord(s.decisions, Str(id))
  }

  function Clauses(s: Project, id: string): seq<Value> {
    match ContractOf(s, id)
    case None => []
    case Some(record) => record.At("clauses").Elements()
  }

  function ClauseOf(s: Project, id: string, clause: string): Option<Value> {
    Find(Clauses(s, id), clause)
  }

  /** A stored Contract that belongs to no single Change. */
  predicate Shared(s: Project, id: string) {
    ContractOf(s, id).Some? && ContractOf(s, id).value.Get("change_id").None?
  }

  /** The request carries the digest of exactly this stored record. */
  predicate NamesRecord(q: Request, id: string, record: Value) {
    q.UpsertContract? && IdOf(q.contract) == Some(id) && q.contractDigest == Some(Digest(record))
  }

  /** The request carries the digest of exactly this stored clause. */
  predicate NamesClause(q: Request, id: string, clause: string, value: Value) {
    q.UpsertContractClauses? && IdOf(q.patch) == Some(id)
    && Lookup(q.clauseDigests, clause) == Some(Digest(value))
  }

  lemma {:induction false} FindAfterUpsert(records: seq<Value>, id: string, record: Value, other: string)
    requires IdOf(record) == Some(id)
    ensures FindRecord(Upserted(records, id, record), Str(other)) ==
            if other == id then Some(record) else FindRecord(records, Str(other))
  {
    if records != [] && IdOf(records[0]) != Some(id) {
      FindAfterUpsert(records[1..], id, record, other);
    }
  }

  lemma {:induction false} FoundRecordHasId(records: seq<Value>, id: string)
    ensures FindRecord(records, Str(id)).Some? ==> IdOf(FindRecord(records, Str(id)).value) == Some(id)
  {
    if records != [] {
      FoundRecordHasId(records[1..], id);
    }
  }

  /** What a request leaves under one Contract ID. */
  lemma ContractAfter(valid: Registry, s: Project, q: Request, id: string)
    ensures ContractOf(After(valid, s, q), id) ==
            if Apply(valid, s, q).Err? then ContractOf(s, id)
            else if q.UpsertContract? && IdOf(q.contract) == Some(id) then Some(q.contract)
            else if q.UpsertContractClauses? && IdOf(q.patch) == Some(id) then
              Some(MergeRecord(ContractOf(s, id), q.patch, q.clauseDigests).value)
            else ContractOf(s, id)
  {
    if Apply(valid, s, q).Ok? {
      match q {
        case UpsertContract(contract, expected) =>
          FindAfterUpsert(s.contracts, IdOf(contract).value, contract, id);
        case UpsertContractClauses(patch, expected) =>
          var own := IdOf(patch).value;
          var stored := ContractOf(s, own);
          assert patch.At("id") == Str(own);
          var merged := MergeRecord(stored, patch, expected).value;
          MergedKeepsId(stored.value, patch, expected);
          FindAfterUpsert(s.contracts, own, merged, id);
        case _ =>
      }
    }
  }

  /** What a request leaves under one Decision ID. */
  lemma DecisionAfter(valid: Registry, s: Project, q: Request, id: string)
    ensures DecisionOf(After(valid, s, q), id) ==
            if Apply(valid, s, q).Ok? && q.UpsertDecision? && IdOf(q.decision) == Some(id) then Some(q.decision)
            else DecisionOf(s, id)
  {
    if Apply(valid, s, q).Ok? && q.UpsertDecision? {
      FindAfterUpsert(s.decisions, IdOf(q.decision).value, q.decision, id);
    }
  }

  lemma MergedKeepsId(stored: Value, patch: Value, base: map<string, Value>)
    requires MergeRecord(Some(stored), patch, base).Ok?
    ensures IdOf(MergeRecord(Some(stored), patch, base).value) == IdOf(patch)
    ensures MergeRecord(Some(stored), patch, base).value.Get("change_id") == stored.Get("change_id")
  {
    MergeRecordMeaning(stored, patch, base);
    var r := MergeRecord(Some(stored), patch, base).value;
    assert (r.fields - {"clauses"}).Keys == (patch.fields - {"clauses"}).Keys;
    assert "id" in patch.fields - {"clauses"};
    assert (patch.fields - {"clauses"})["id"] == patch.fields["id"];
    assert (r.fields - {"clauses"})["id"] == r.fields["id"];
    assert "change_id" in r.fields <==> "change_id" in r.fields - {"clauses"};
    assert "change_id" in stored.fields <==> "change_id" in stored.fields - {"clauses"};
    if "change_id" in r.fields {
      assert r.fields["change_id"] == (r.fields - {"clauses"})["change_id"] == stored.fields["change_id"];
    }
  }

  /** A whole-record write between two versions that belong to a Change needs no digest. */
  predicate ReplacesBlindly(q: Request, id: string, record: Value) {
    && q.UpsertContract? && IdOf(q.contract) == Some(id) && q.contractDigest.None?
    && record.Get("change_id").Some? && q.contract.Get("change_id").Some?
  }

  /** A request that removes or replaces a clause names that clause, or names the whole record that
      holds it; only a Contract that is not shared can also be replaced blindly. */
  lemma OverwriteIsNamed(valid: Registry, s: Project, q: Request, id: string, clause: string)
    requires ClauseOf(s, id, clause).Some?
    requires ClauseOf(After(valid, s, q), id, clause) != ClauseOf(s, id, clause)
    ensures NamesClause(q, id, clause, ClauseOf(s, id, clause).value)
            || NamesRecord(q, id, ContractOf(s, id).value)
            || (ReplacesBlindly(q, id, ContractOf(s, id).value) && !Shared(s, id))
  {
    ContractAfter(valid, s, q, id);
    var record := ContractOf(s, id).value;
    if q.UpsertContractClauses? {
      MergeRecordMeaning(record, q.patch, q.clauseDigests);
      var merged := MergeRecord(Some(record), q.patch, q.clauseDigests).value;
      assert ClauseOf(After(valid, s, q), id, clause) == Find(merged.At("clauses").items, clause);
      assert Decide(record.At("clauses").items, q.patch.At("clauses").items, q.clauseDigests, clause).Ok?;
    } else {
      assert q.UpsertContract?;
      assert ContractGuard(Some(record), q.contract, q.contractDigest).None?;
    }
  }

  /** Everything in a record but its clauses. */
  function Metadata(record: Option<Value>): Option<map<string, Value>> {
    if record.Some? && record.value.Obj? then Some(record.value.fields - {"clauses"}) else None
  }

  /** The metadata of a Contract changes only through the whole-record path, and then the request
      names the stored record; only a Contract that is not shared can also be replaced blindly. */
  lemma MetadataOverwriteIsNamed(valid: Registry, s: Project, q: Request, id: string)
    requires Metadata(ContractOf(s, id)).Some?
    requires Metadata(ContractOf(After(valid, s, q), id)) != Metadata(ContractOf(s, id))
    ensures NamesRecord(q, id, ContractOf(s, id).value)
            || (ReplacesBlindly(q, id, ContractOf(s, id).value) && !Shared(s, id))
  {
    ContractAfter(valid, s, q, id);
    if q.UpsertContractClauses? {
      MergeRecordMeaning(ContractOf(s, id).value, q.patch, q.clauseDigests);
    }
  }

  /** The clause path adds a clause only under an ID that is not stored. */
  lemma AddedOnlyWhenAbsent(valid: Registry, s: Project, q: Request, clause: string)
    requires q.UpsertContractClauses? && IdOf(q.patch).Some? && Apply(valid, s, q).Ok?
    requires clause !in q.clauseDigests && Find(q.patch.At("clauses").Elements(), clause).Some?
    ensures ClauseOf(s, IdOf(q.patch).value, clause).None?
    ensures ClauseOf(After(valid, s, q), IdOf(q.patch).value, clause) ==
            Find(q.patch.At("clauses").Elements(), clause)
  {
    var id := IdOf(q.patch).value;
    ContractAfter(valid, s, q, id);
    var record := ContractOf(s, id).value;
    assert q.patch.At("id") == Str(id);
    MergeRecordMeaning(record, q.patch, q.clauseDigests);
    assert Decide(record.At("clauses").items, q.patch.At("clauses").items, q.clauseDigests, clause).Ok?;
  }

  /** The one way to replace a stored Contract without naming it: exactly when both versions
      belong to a Change. */
  lemma BlindReplacementIff(valid: Registry, s: Project, contract: Value)
    requires IdOf(contract).Some? && valid("contract", contract)
    requires ContractOf(s, IdOf(contract).value).Some?
    ensures Apply(valid, s, UpsertContract(contract, None)).Ok? <==>
            ContractOf(s, IdOf(contract).value).value.Get("change_id").Some? && contract.Get("change_id").Some?
  {
    assert contract.At("id") == Str(IdOf(contract).value);
  }

  // --------------------------------------------------------------------- whole runs

  /** The store after a run of requests. */
  function Run(valid: Registry, s: Project, qs: seq<Request>): Project {
    if qs == [] then s else After(valid, Run(valid, s, qs[..|qs| - 1]), qs[|qs| - 1])
  }

  /** The store after the first `n` requests of a run. */
  function StateAt(valid: Registry, s: Project, qs: seq<Request>, n: nat): Project
    requires n <= |qs|
  {
    Run(valid, s, qs[..n])
  }

  lemma StateStep(valid: Registry, s: Project, qs: seq<Request>, n: nat)
    requires n < |qs|
    ensures StateAt(valid, s, qs, n + 1) == After(valid, StateAt(valid, s, qs, n), qs[n])
  {
    assert qs[..n + 1][..n] == qs[..n];
  }

  /** The last moment at which what held of the store still held. */
  lemma {:induction false} LastMoment(valid: Registry, s: Project, qs: seq<Request>, i: nat, holds: Project -> bool)
    returns (j: nat)
    requires i <= |qs|
    requires holds(StateAt(valid, s, qs, i)) && !holds(StateAt(valid, s, qs, |qs|))
    ensures i <= j < |qs| && !holds(After(valid, StateAt(valid, s, qs, j), qs[j]))
    ensures forall k | i <= k <= j :: holds(StateAt(valid, s, qs, k))
    decreases |qs| - i
  {
    hide StateAt, After;
    assert i != |qs|;
    StateStep(valid, s, qs, i);
    if holds(StateAt(valid, s, qs, i + 1)) {
      j := LastMoment(valid, s, qs, i + 1, holds);
    } else {
      j := i;
    }
  }

  /** A clause value that was stored at some point of a run and is gone at the end was overwritten
      by a request that named this very value, or named the whole record holding it, at the moment
      it was current; only a Contract that was not shared then can also have been replaced blindly. */
  lemma LostClauseWasNamed(valid: Registry, s: Project, qs: seq<Request>, i: nat, id: string, clause: string, value: Value)
    returns (j: nat)
    requires i <= |qs|
    requires ClauseOf(StateAt(valid, s, qs, i), id, clause) == Some(value)
    requires ClauseOf(StateAt(valid, s, qs, |qs|), id, clause) != Some(value)
    ensures i <= j < |qs|
    ensures forall k | i <= k <= j :: ClauseOf(StateAt(valid, s, qs, k), id, clause) == Some(value)
    ensures ContractOf(StateAt(valid, s, qs, j), id).Some?
    ensures var record := ContractOf(StateAt(valid, s, qs, j), id).value;
            || NamesClause(qs[j], id, clause, value)
            || NamesRecord(qs[j], id, record)
            || (ReplacesBlindly(qs[j], id, record) && !Shared(StateAt(valid, s, qs, j), id))
  {
    var holds := (p: Project) => ClauseOf(p, id, clause) == Some(value);
    j := LastMoment(valid, s, qs, i, holds);
    assert holds(StateAt(valid, s, qs, j));
    hide StateAt, After, Find, NamesClause, NamesRecord, ReplacesBlindly, Shared;
    OverwriteIsNamed(valid, StateAt(valid, s, qs, j), qs[j], id, clause);
  }

  /** A Decision that was once stored and is gone later was replaced by a request that carried its
      digest while it was current. */
  lemma LostDecisionWasNamed(valid: Registry, s: Project, qs: seq<Request>, i: nat, id: string, decision: Value)
    returns (j: nat)
    requires i <= |qs|
    requires DecisionOf(StateAt(valid, s, qs, i), id) == Some(decision)
    requires DecisionOf(StateAt(valid, s, qs, |qs|), id) != Some(decision)
    ensures i <= j < |qs|
    ensures forall k | i <= k <= j :: DecisionOf(StateAt(valid, s, qs, k), id) == Some(decision)
    ensures qs[j].UpsertDecision? && IdOf(qs[j].decision) == Some(id) && qs[j].decisionDigest == Some(Digest(decision))
  {
    var holds := (p: Project) => DecisionOf(p, id) == Some(decision);
    j := LastMoment(valid, s, qs, i, holds);
    assert holds(StateAt(valid, s, qs, j));
    hide StateAt;
    DecisionAfter(valid, StateAt(valid, s, qs, j), qs[j], id);
  }

  /** A Result that was once stored and is gone later was replaced by a correction of the same
      Action and Context that gave its ID while it was stored. */
  lemma LostResultWasNamed(valid: Registry, s: Project, qs: seq<Request>, i: nat, result: Value)
    returns (j: nat)
    requires i <= |qs|
    requires result in StateAt(valid, s, qs, i).results
    requires result !in StateAt(valid, s, qs, |qs|).results
    ensures i <= j < |qs|
    ensures forall k | i <= k <= j :: result in StateAt(valid, s, qs, k).results
    ensures qs[j].ReplaceResult? && IdOf(result) == Some(qs[j].expectedResultId) && SameAttempt(result, qs[j].correction)
  {
    var holds := (p: Project) => result in p.results;
    j := LastMoment(valid, s, qs, i, holds);
    assert holds(StateAt(valid, s, qs, j));
    hide StateAt, After;
    ReplacedResult(valid, StateAt(valid, s, qs, j), qs[j], result);
  }

  lemma ReplacedResult(valid: Registry, s: Project, q: Request, result: Value)
    requires result in s.results && result !in After(valid, s, q).results
    ensures q.ReplaceResult? && IdOf(result) == Some(q.expectedResultId) && SameAttempt(result, q.correction)
  {
    var at :| 0 <= at < |s.results| && s.results[at] == result;
    assert at < |After(valid, s, q).results| ==> After(valid, s, q).results[at] != result;
    assert q.ReplaceResult?;
    AttemptIndexIs(s.results, q.correction);
    hide SameAttempt;
    assert AttemptIndex(s.results, q.correction) == Some(at);
  }

  lemma {:induction false} AttemptIndexIs(results: seq<Value>, result: Value)
    ensures AttemptIndex(results, result).Some? ==>
              AttemptIndex(results, result).value < |results|
              && SameAttempt(results[AttemptIndex(results, result).value], result)
  {
    if results != [] {
      AttemptIndexIs(results[1..], result);
    }
  }

  /** Over every run Evidence is only ever added, and no Evidence ID is stored twice. */
  lemma {:induction false} EvidenceIsAppendOnly(valid: Registry, s: Project, qs: seq<Request>)
    requires Indexed(s.evidence)
    ensures s.evidence <= Run(valid, s, qs).evidence && Indexed(Run(valid, s, qs).evidence)
  {
    if qs != [] {
      EvidenceIsAppendOnly(valid, s, qs[..|qs| - 1]);
    }
  }

  /** The correction would leave one Result ID stored twice, or a Result without an ID. */
  predicate SpoilsResultIds(s: Project, q: Request) {
    && q.ReplaceResult? && AttemptIndex(s.results, q.correction).Some?
    && (|| IdOf(q.correction).None?
        || exists j | 0 <= j < |s.results| ::
             j != AttemptIndex(s.results, q.correction).value && IdOf(s.results[j]) == IdOf(q.correction))
  }

  /** Result IDs stay distinct exactly when the accepted request is no correction that takes the
      ID of another Result: nothing in the store looks at the ID of a correction. */
  lemma ResultIdsStayDistinctIff(valid: Registry, s: Project, q: Request)
    requires Indexed(s.results) && Apply(valid, s, q).Ok?
    ensures Indexed(After(valid, s, q).results) <==> !SpoilsResultIds(s, q)
  {
    if q.ReplaceResult? {
      AttemptIndexIs(s.results, q.correction);
      IndexedReplacement(s.results, AttemptIndex(s.results, q.correction).value, q.correction);
    }
  }

  const RESULT1 := Obj(map["id" := Str("r1"), "action_id" := Str("a1"), "context_digest" := Digest(Null)])
  const RESULT2 := Obj(map["id" := Str("r2"), "action_id" := Str("a2"), "context_digest" := Digest(Null)])
  /** A correction of the first Result that bears the ID of the second. */
  const CORRECTION := Obj(map["id" := Str("r2"), "action_id" := Str("a1"), "context_digest" := Digest(Null)])

  /** Concretely: a store that holds two Results accepts the correction, and both then have one ID. */
  lemma CorrectionDuplicatesId(valid: Registry, s: Project)
    requires s.results == [RESULT1, RESULT2] && valid("result", CORRECTION)
    ensures var q := ReplaceResult(CORRECTION, "r1");
            && Indexed(s.results) && Apply(valid, s, q).Ok?
            && After(valid, s, q).results == [CORRECTION, RESULT2] && !Indexed(After(valid, s, q).results)
  {
    assert SameAttempt(RESULT1, CORRECTION);
    assert AttemptIndex(s.results, CORRECTION) == Some(0);
    assert IdOf(CORRECTION) == IdOf(RESULT2) == Some("r2") && IdOf(RESULT1) == Some("r1");
    assert IdOf([CORRECTION, RESULT2][0]) == IdOf([CORRECTION, RESULT2][1]);
  }

  lemma IndexedReplacement(records: seq<Value>, at: nat, record: Value)
    requires Indexed(records) && at < |records|
    ensures Indexed(records[at := record]) <==>
            IdOf(record).Some? && forall j | 0 <= j < |records| && j != at :: IdOf(records[j]) != IdOf(record)
  {
    var later := records[at := record];
    hide IdOf;
    assert forall j | 0 <= j < |records| :: later[j] == if j == at then record else records[j];
    if Indexed(later) {
      forall j | 0 <= j < |records| && j != at ensures IdOf(records[j]) != IdOf(record) {
        assert IdOf(later[j]) != IdOf(later[at]);
      }
      assert IdOf(later[at]).Some?;
    }
  }

  /** A client whose copy of a clause is out of date cannot edit or delete it. */
  lemma StaleEditIsRefused(valid: Registry, s: Project, q: Request, clause: string, copy: Value)
    requires q.UpsertContractClauses? && IdOf(q.patch).Some?
    requires Lookup(q.clauseDigests, clause) == Some(Digest(copy))
    requires ClauseOf(s, IdOf(q.patch).value, clause) != Some(copy)
    requires Find(q.patch.At("clauses").Elements(), clause) != Some(copy)
    ensures Apply(valid, s, q).Err? && After(valid, s, q) == s
  {
    var id := IdOf(q.patch).value;
    assert q.patch.At("id") == Str(id);
    assert Decide(Clauses(s, id), q.patch.At("clauses").Elements(), q.clauseDigests, clause).Err?;
    if ContractOf(s, id).Some? {
      MergeRecordMeaning(ContractOf(s, id).value, q.patch, q.clauseDigests);
    }
  }

  /** The digests a client sends for the clauses of the copy it holds. */
  ghost predicate DigestsOfCopy(base: map<string, Value>, copy: seq<Value>) {
    forall clause: string :: Lookup(base, clause) ==
      if Find(copy, clause).Some? then Some(Digest(Find(copy, clause).value)) else None
  }

  /** However old the copy, a committed clause update is the three-way merge of that copy, the
      client's edit and the current Contract; IDs outside the copy are additions or untouched. */
  lemma CommitIsThreeWayMerge(valid: Registry, s: Project, q: Request, copy: seq<Value>, clause: string)
    requires q.UpsertContractClauses? && IdOf(q.patch).Some? && Apply(valid, s, q).Ok?
    requires DigestsOfCopy(q.clauseDigests, copy)
    requires Canonical(q.patch) && Canonical(Arr(Clauses(s, IdOf(q.patch).value)))
    ensures var id := IdOf(q.patch).value;
            var now, sent, later := ClauseOf(s, id, clause), Find(q.patch.At("clauses").Elements(), clause),
                                  ClauseOf(After(valid, s, q), id, clause);
            if Find(copy, clause).Some? then ThreeWay(now, sent, Find(copy, clause).value) == Some(later)
            else if sent.Some? then now.None? && later == sent
            else later == now
  {
    hide *;
    var id := IdOf(q.patch).value;
    CommittedClause(valid, s, q, clause);
    var cs, sent := Clauses(s, id), q.patch.At("clauses").Elements();
    CanonicalFound(cs, clause);
    CanonicalField(q.patch, "clauses");
    CanonicalFound(sent, clause);
    DecisionOfCopy(cs, sent, q.clauseDigests, copy, clause);
    ClauseIsFound(s, id, clause);
  }

  /** What a committed clause update leaves under one clause ID. */
  lemma CommittedClause(valid: Registry, s: Project, q: Request, clause: string)
    requires q.UpsertContractClauses? && IdOf(q.patch).Some? && Apply(valid, s, q).Ok?
    ensures var id := IdOf(q.patch).value;
            var decision := Decide(Clauses(s, id), q.patch.At("clauses").Elements(), q.clauseDigests, clause);
            decision.Ok? && ClauseOf(After(valid, s, q), id, clause) == decision.value
  {
    var id := IdOf(q.patch).value;
    assert q.patch.At("id") == Str(id);
    ContractAfter(valid, s, q, id);
    var record := ContractOf(s, id).value;
    MergeRecordMeaning(record, q.patch, q.clauseDigests);
    hide MergeOne, MergeRecord, Find, Indexed;
    assert Decide(record.At("clauses").items, q.patch.At("clauses").items, q.clauseDigests, clause).Ok?;
  }

  lemma ClauseIsFound(s: Project, id: string, clause: string)
    ensures ClauseOf(s, id, clause) == Find(Clauses(s, id), clause)
  {}

  lemma CanonicalField(v: Value, key: string)
    requires Canonical(v)
    ensures Canonical(Arr(v.At(key).Elements()))
  {}

  lemma CanonicalFound(cs: seq<Value>, clause: string)
    requires Canonical(Arr(cs))
    ensures Find(cs, clause).Some? ==> Canonical(Find(cs, clause).value)
  {
    FindSome(cs, clause);
    hide Find;
  }

  /** The decision for one ID, seen from the client's copy. */
  lemma DecisionOfCopy(cs: seq<Value>, sent: seq<Value>, base: map<string, Value>, copy: seq<Value>, clause: string)
    requires DigestsOfCopy(base, copy) && Decide(cs, sent, base, clause).Ok?
    requires Find(cs, clause).Some? ==> Canonical(Find(cs, clause).value)
    requires Find(sent, clause).Some? ==> Canonical(Find(sent, clause).value)
    ensures var now, mine, later := Find(cs, clause), Find(sent, clause), Decide(cs, sent, base, clause).value;
            if Find(copy, clause).Some? then ThreeWay(now, mine, Find(copy, clause).value) == Some(later)
            else if mine.Some? then now.None? && later == mine
            else later == now
  {
    hide Canonical, Find, ThreeWay;
    if Find(copy, clause).Some? {
      DigestMergeIsThreeWay(Find(cs, clause), Find(sent, clause), Find(copy, clause).value);
    }
  }
}
