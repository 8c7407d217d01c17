/** The clause-scoped Contract update: `merge_contract_clause_update` and its helpers in
    src/application.rs, and the three-way merge it refines.
  */
module ContractMerge {
  import opened Json

  datatype MergeError =
    | IdNotString
    | NoExpectedDigests
    | MissingRecord
    | NotAnObject
    | MetadataChanged
    | ClausesNotArray
    | ClauseIdNotString
    | DuplicateClauseId
    | MissingClause
    | DigestRequired
    | NotCanonical
    | StaleClause

  // ---------------------------------------------------------------- clause lists

  /** The first clause carrying an ID. */
  function Find(cs: seq<Value>, id: string): Option<Value> {
    if cs == [] then None
    else if IdOf(cs[0]) == Some(id) then Some(cs[0])
    else Find(cs[1..], id)
  }

  predicate Indexed(cs: seq<Value>) {
    && (forall i | 0 <= i < |cs| :: IdOf(cs[i]).Some?)
    && (forall i, j | 0 <= i < j < |cs| :: IdOf(cs[i]) != IdOf(cs[j]))
  }

  /** What `contract_clause_map` reports for a clause list, scanning from the front. */
  function ClauseFault(cs: seq<Value>): Option<MergeError> {
    if cs == [] then None
    else
      var last := cs[|cs| - 1];
      var before := cs[..|cs| - 1];
      if ClauseFault(before).Some? then ClauseFault(before)
      else if IdOf(last).None? then Some(ClauseIdNotString)
      else if Find(before, IdOf(last).value).Some? then Some(DuplicateClauseId)
      else None
  }

  function Ids(cs: seq<Value>): (ids: seq<string>)
    requires Indexed(cs)
    ensures |ids| == |cs|
    ensures forall i | 0 <= i < |cs| :: ids[i] == IdOf(cs[i]).value
  {
    seq(|cs|, i requires 0 <= i < |cs| => IdOf(cs[i]).value)
  }

  lemma {:induction false} FindHit(cs: seq<Value>, i: nat)
    requires Indexed(cs) && i < |cs|
    ensures Find(cs, IdOf(cs[i]).value) == Some(cs[i])
  {
    if i > 0 {
      FindHit(cs[1..], i - 1);
    }
  }

  lemma {:induction false} FindSome(cs: seq<Value>, id: string)
    ensures Find(cs, id).Some? <==> exists i | 0 <= i < |cs| :: IdOf(cs[i]) == Some(id)
    ensures Find(cs, id).Some? ==> Find(cs, id).value in cs && IdOf(Find(cs, id).value) == Some(id)
  {
    if cs != [] {
      FindSome(cs[1..], id);
      if Find(cs, id).Some? && IdOf(cs[0]) != Some(id) {
        var i :| 0 <= i < |cs[1..]| && IdOf(cs[1..][i]) == Some(id);
        assert IdOf(cs[i + 1]) == Some(id);
      }
      if i :| 0 <= i < |cs| && IdOf(cs[i]) == Some(id) {
        if i > 0 {
          assert IdOf(cs[1..][i - 1]) == Some(id);
        }
      }
    }
  }

  lemma {:induction false} FindAppend(cs: seq<Value>, ds: seq<Value>, id: string)
    ensures Find(cs + ds, id) == if Find(cs, id).Some? then Find(cs, id) else Find(ds, id)
  {
    if cs == [] {
      assert cs + ds == ds;
    } else {
      assert (cs + ds)[1..] == cs[1..] + ds;
      FindAppend(cs[1..], ds, id);
    }
  }

  lemma {:induction false} FaultFreeIffIndexed(cs: seq<Value>)
    ensures ClauseFault(cs).None? <==> Indexed(cs)
  {
    if cs != [] {
      var before, last := cs[..|cs| - 1], cs[|cs| - 1];
      FaultFreeIffIndexed(before);
      assert cs == before + [last];
      IndexedAppend(before, last);
    }
  }

  lemma IndexedAppend(cs: seq<Value>, c: Value)
    ensures Indexed(cs + [c]) <==> Indexed(cs) && IdOf(c).Some? && Find(cs, IdOf(c).value).None?
  {
    var all := cs + [c];
    assert forall i | 0 <= i < |cs| :: all[i] == cs[i];
    assert all[|cs|] == c;
    if IdOf(c).Some? {
      FindSome(cs, IdOf(c).value);
    }
    if Indexed(all) {
      assert forall i | 0 <= i < |cs| :: IdOf(all[i]) != IdOf(all[|cs|]);
    }
  }

  /** `contract_clause_map`: the clauses of a Contract by ID. */
  method ContractClauseMap(contract: Value) returns (r: Result<map<string, Value>, MergeError>)
    ensures !contract.At("clauses").Arr? ==> r == Err(ClausesNotArray)
    ensures contract.At("clauses").Arr? ==>
              var cs := contract.At("clauses").items;
              && (r.Ok? <==> Indexed(cs))
              && (r.Err? ==> Some(r.error) == ClauseFault(cs))
              && (r.Ok? ==> forall id :: Lookup(r.value, id) == Find(cs, id))
  {
    var clauses := contract.At("clauses");
    if !clauses.Arr? {
      return Err(ClausesNotArray);
    }
    var cs := clauses.items;
    var byId: map<string, Value> := map[];
    FaultFreeIffIndexed(cs);
    for i := 0 to |cs|
      invariant ClauseFault(cs[..i]).None?
      invariant forall id :: Lookup(byId, id) == Find(cs[..i], id)
    {
      var clause := cs[i];
      var id := IdOf(clause);
      assert cs[..i + 1][..i] == cs[..i];
      if id.None? {
        FirstFaultStays(cs, i + 1);
        return Err(ClauseIdNotString);
      }
      if id.value in byId {
        assert Lookup(byId, id.value).Some?;
        FirstFaultStays(cs, i + 1);
        return Err(DuplicateClauseId);
      }
      assert Lookup(byId, id.value) == None;
      var next := byId[id.value := clause];
      forall x: string ensures Lookup(next, x) == Find(cs[..i + 1], x) {
        assert Lookup(byId, x) == Find(cs[..i], x);
        assert cs[..i + 1] == cs[..i] + [clause];
        FindAppend(cs[..i], [clause], x);
      }
      byId := next;
    }
    assert cs[..|cs|] == cs;
    return Ok(byId);
  }

  lemma {:induction false} FirstFaultStays(cs: seq<Value>, n: nat)
    requires n <= |cs| && ClauseFault(cs[..n]).Some?
    ensures ClauseFault(cs) == ClauseFault(cs[..n])
    decreases |cs| - n
  {
    if n < |cs| {
      assert cs[..n + 1][..n] == cs[..n];
      FirstFaultStays(cs, n + 1);
    } else {
      assert cs[..n] == cs;
    }
  }

  // ------------------------------------------------------- the merge of one clause ID

  /** The decision for one clause ID.  `current` is the stored clause, `sent` the clause in
      the patch and `base` the digest the client expects. */
  function MergeOne(current: Option<Value>, sent: Option<Value>, base: Option<Value>)
    : Result<Option<Value>, MergeError>
  {
    match current
    case None => if base.Some? then Err(MissingClause) else Ok(sent)
    case Some(c) =>
      match sent
      case None =>
        if base.None? then Ok(Some(c))
        else if !Canonical(c) then Err(NotCanonical)
        else if base.value == Digest(c) then Ok(None)
        else Err(StaleClause)
      case Some(p) =>
        if !Canonical(p) then Err(NotCanonical)
        else if base.None? then Err(DigestRequired)
        else if base.value == Digest(p) then Ok(Some(c))
        else if !Canonical(c) then Err(NotCanonical)
        else if base.value == Digest(c) then Ok(Some(p))
        else Err(StaleClause)
  }

  /** The existing clauses after the update, in their order; the first refusal wins. */
  function Survivors(cs: seq<Value>, sent: seq<Value>, base: map<string, Value>)
    : Result<seq<Value>, MergeError>
    requires Indexed(cs)
  {
    if cs == [] then Ok([])
    else
      var before := Survivors(cs[..|cs| - 1], sent, base);
      var c := cs[|cs| - 1];
      var id := IdOf(c).value;
      if before.Err? then before
      else
        match MergeOne(Some(c), Find(sent, id), Lookup(base, id))
        case Err(e) => Err(e)
        case Ok(None) => before
        case Ok(Some(v)) => Ok(before.value + [v])
  }

  /** The clauses of the patch whose IDs are not stored, in their order. */
  function Additions(cs: seq<Value>, sent: seq<Value>): seq<Value>
    requires Indexed(sent)
  {
    if sent == [] then []
    else
      var p := sent[|sent| - 1];
      var before := Additions(cs, sent[..|sent| - 1]);
      if Find(cs, IdOf(p).value).None? then before + [p] else before
  }

  function MergeClauses(cs: seq<Value>, sent: seq<Value>, base: map<string, Value>)
    : Result<seq<Value>, MergeError>
    requires Indexed(cs) && Indexed(sent)
  {
    if exists id | id in base :: Find(cs, id).None? then Err(MissingClause)
    else
      match Survivors(cs, sent, base)
      case Err(e) => Err(e)
      case Ok(kept) => Ok(kept + Additions(cs, sent))
  }

  function MergeRecord(existing: Option<Value>, proposed: Value, base: map<string, Value>)
    : Result<Value, MergeError>
  {
    if IdOf(proposed).None? then Err(IdNotString)
    else if base == map[] then Err(NoExpectedDigests)
    else if existing.None? then Err(MissingRecord)
    else if !existing.value.Obj? || !proposed.Obj? then Err(NotAnObject)
    else if existing.value.fields - {"clauses"} != proposed.fields - {"clauses"} then Err(MetadataChanged)
    else if !existing.value.At("clauses").Arr? then Err(ClausesNotArray)
    else if ClauseFault(existing.value.At("clauses").items).Some? then
      Err(ClauseFault(existing.value.At("clauses").items).value)
    else if !proposed.At("clauses").Arr? then Err(ClausesNotArray)
    else if ClauseFault(proposed.At("clauses").items).Some? then
      Err(ClauseFault(proposed.At("clauses").items).value)
    else
      var cs, sent := existing.value.At("clauses").items, proposed.At("clauses").items;
      FaultFreeIffIndexed(cs);
      FaultFreeIffIndexed(sent);
      match MergeClauses(cs, sent, base)
      case Err(e) => Err(e)
      case Ok(merged) => Ok(Obj(existing.value.fields["clauses" := Arr(merged)]))
  }

  method AssertCurrentClauseDigest(current: Value, expected: Value) returns (r: Option<MergeError>)
    ensures r.None? <==> Canonical(current) && expected == Digest(current)
    ensures r.Some? ==> r.value == if Canonical(current) then StaleClause else NotCanonical
  {
    var digest := CanonicalDigest(current);
    if digest.None? {
      return Some(NotCanonical);
    }
    if digest.value != expected {
      return Some(StaleClause);
    }
    return None;
  }

  /** Every expected clause must still be stored. */
  method CheckExpected(cs: seq<Value>, currentMap: map<string, Value>, base: map<string, Value>)
    returns (ok: bool)
    requires forall id :: Lookup(currentMap, id) == Find(cs, id)
    ensures ok <==> forall id | id in base :: Find(cs, id).Some?
  {
    var keys := base.Keys;
    while keys != {}
      invariant keys <= base.Keys
      invariant forall id | id in base.Keys - keys :: Find(cs, id).Some?
      decreases keys
    {
      var id :| id in keys;
      assert Lookup(currentMap, id) == Find(cs, id);
      if id !in currentMap {
        return false;
      }
      keys := keys - {id};
    }
    return true;
  }

  /** The decision of the first loop for one stored clause: it is kept, replaced, dropped or refused. */
  method MergeExistingClause(current: Value, id: string, proposedMap: map<string, Value>, base: map<string, Value>)
    returns (r: Result<Option<Value>, MergeError>)
    ensures r == MergeOne(Some(current), Lookup(proposedMap, id), Lookup(base, id))
  {
    if id !in proposedMap {
      if id in base {
        var refusal := AssertCurrentClauseDigest(current, base[id]);
        return if refusal.Some? then Err(refusal.value) else Ok(None);
      }
      return Ok(Some(current));
    }
    var patch := proposedMap[id];
    var patchDigest := CanonicalDigest(patch);
    if patchDigest.None? {
      return Err(NotCanonical);
    }
    if id !in base {
      return Err(DigestRequired);
    }
    if patchDigest.value == base[id] {
      // The caller did not edit this clause; a concurrent update is preserved.
      return Ok(Some(current));
    }
    var refusal := AssertCurrentClauseDigest(current, base[id]);
    return if refusal.Some? then Err(refusal.value) else Ok(Some(patch));
  }

  lemma SurvivorsStep(cs: seq<Value>, sent: seq<Value>, base: map<string, Value>, i: nat)
    requires Indexed(cs) && i < |cs| && Survivors(cs[..i], sent, base).Ok?
    ensures IdOf(cs[i]).Some?
    ensures Survivors(cs[..i + 1], sent, base) ==
            match MergeOne(Some(cs[i]), Find(sent, IdOf(cs[i]).value), Lookup(base, IdOf(cs[i]).value))
            case Err(e) => Err(e)
            case Ok(None) => Survivors(cs[..i], sent, base)
            case Ok(Some(v)) => Ok(Survivors(cs[..i], sent, base).value + [v])
  {
    hide MergeOne, Find;
    assert cs[..i + 1][..i] == cs[..i];
  }

  /** The first loop of the merge over the stored clauses. */
  method MergeExisting(cs: seq<Value>, sent: seq<Value>, proposedMap: map<string, Value>, base: map<string, Value>)
    returns (r: Result<seq<Value>, MergeError>)
    requires Indexed(cs)
    requires forall id :: Lookup(proposedMap, id) == Find(sent, id)
    ensures r == Survivors(cs, sent, base)
  {
    var merged: seq<Value> := [];
    assert Survivors(cs[..0], sent, base) == Ok(merged);
    hide MergeOne, Find, Survivors;
    for i := 0 to |cs|
      invariant Survivors(cs[..i], sent, base) == Ok(merged)
    {
      SurvivorsStep(cs, sent, base, i);
      var id := IdOf(cs[i]).value;
      assert Lookup(proposedMap, id) == Find(sent, id);
      var decision := MergeExistingClause(cs[i], id, proposedMap, base);
      match decision
      case Err(e) =>
        FirstRefusalStays(cs, sent, base, i + 1);
        return Err(e);
      case Ok(None) =>
      case Ok(Some(v)) =>
        merged := merged + [v];
    }
    assert cs[..|cs|] == cs;
    return Ok(merged);
  }

  /** The second loop of the merge: clauses with new IDs follow in patch order. */
  method AppendNew(cs: seq<Value>, sent: seq<Value>, currentMap: map<string, Value>, kept: seq<Value>)
    returns (merged: seq<Value>)
    requires Indexed(sent)
    requires forall id :: Lookup(currentMap, id) == Find(cs, id)
    ensures merged == kept + Additions(cs, sent)
  {
    merged := kept;
    for i := 0 to |sent|
      invariant merged == kept + Additions(cs, sent[..i])
    {
      var patch := sent[i];
      var id := IdOf(patch).value;
      assert sent[..i + 1][..i] == sent[..i];
      assert Lookup(currentMap, id) == Find(cs, id);
      if id !in currentMap {
        merged := merged + [patch];
      }
    }
    assert sent[..|sent|] == sent;
  }

  /** `merge_contract_clause_update`, proved against `MergeRecord`. */
  method MergeContractClauseUpdate(existing: Option<Value>, proposed: Value, base: map<string, Value>)
    returns (r: Result<Value, MergeError>)
    ensures r == MergeRecord(existing, proposed, base)
  {
    if IdOf(proposed).None? {
      return Err(IdNotString);
    }
    if base == map[] {
      return Err(NoExpectedDigests);
    }
    if existing.None? {
      return Err(MissingRecord);
    }
    var stored := existing.value;
    if !stored.Obj? || !proposed.Obj? {
      return Err(NotAnObject);
    }
    if stored.fields - {"clauses"} != proposed.fields - {"clauses"} {
      return Err(MetadataChanged);
    }
    var currentMap := ContractClauseMap(stored);
    FaultFreeIffIndexed(stored.At("clauses").Elements());
    if currentMap.Err? {
      return Err(currentMap.error);
    }
    var proposedMap := ContractClauseMap(proposed);
    FaultFreeIffIndexed(proposed.At("clauses").Elements());
    if proposedMap.Err? {
      return Err(proposedMap.error);
    }
    var cs, sent := stored.At("clauses").items, proposed.At("clauses").items;
    var present := CheckExpected(cs, currentMap.value, base);
    if !present {
      return Err(MissingClause);
    }
    var kept := MergeExisting(cs, sent, proposedMap.value, base);
    if kept.Err? {
      return Err(kept.error);
    }
    var merged := AppendNew(cs, sent, currentMap.value, kept.value);
    return Ok(Obj(stored.fields["clauses" := Arr(merged)]));
  }

  lemma {:induction false} FirstRefusalStays(cs: seq<Value>, sent: seq<Value>, base: map<string, Value>, n: nat)
    requires Indexed(cs) && n <= |cs| && Survivors(cs[..n], sent, base).Err?
    ensures Survivors(cs, sent, base) == Survivors(cs[..n], sent, base)
    decreases |cs| - n
  {
    if n < |cs| {
      assert cs[..n + 1][..n] == cs[..n];
      FirstRefusalStays(cs, sent, base, n + 1);
    } else {
      assert cs[..n] == cs;
    }
  }
}
