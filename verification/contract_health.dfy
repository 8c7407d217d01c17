/** The Contract Health engine of src/contract_health.rs: two inverted indexes, a digest map
    restricted to the consulted references, and the clause loop, proved against the
    brute-force definition of HealthRecords.
  */
module ContractHealth {
  import opened Json
  import opened HealthRecords

  datatype HealthError = DuplicateId | IdMissing | SchemaInvalid | NoDigest | DuplicateClauseRef

  type Registry = (string, Value) -> bool

  function Entries<T>(index: map<string, seq<T>>, key: string): seq<T> {
    if key in index then index[key] else []
  }

  method Push<T>(index: map<string, seq<T>>, key: string, item: T) returns (r: map<string, seq<T>>)
    ensures forall k, x :: x in Entries(r, k) <==> x in Entries(index, k) || (k == key && x == item)
  {
    r := index[key := Entries(index, key) + [item]];
  }

  // ------------------------------------------------------------- the inverted indexes

  ghost predicate Cites(results: seq<Value>, v: Verification, evidenceId: string) {
    v.result in results && Verifying(v.result) && v.outcome in Outcomes(v.result) && evidenceId in BasisRefs(v.outcome)
  }

  method IndexOutcome(index: map<string, seq<Verification>>, v: Verification)
    returns (r: map<string, seq<Verification>>)
    ensures forall k, x :: x in Entries(r, k) <==> x in Entries(index, k) || (x == v && k in BasisRefs(v.outcome))
  {
    r := index;
    var refs := BasisRefs(v.outcome);
    for i := 0 to |refs|
      invariant forall k, x :: x in Entries(r, k) <==> x in Entries(index, k) || (x == v && k in refs[..i])
    {
      r := Push(r, refs[i], v);
      assert refs[..i + 1] == refs[..i] + [refs[i]];
    }
    assert refs[..|refs|] == refs;
  }

  method IndexResult(index: map<string, seq<Verification>>, result: Value)
    returns (r: map<string, seq<Verification>>)
    ensures forall k, x: Verification :: x in Entries(r, k) <==>
              x in Entries(index, k) || (x.result == result && x.outcome in Outcomes(result) && k in BasisRefs(x.outcome))
  {
    r := index;
    var outcomes := Outcomes(result);
    for i := 0 to |outcomes|
      invariant forall k, x: Verification :: x in Entries(r, k) <==>
                  x in Entries(index, k) || (x.result == result && x.outcome in outcomes[..i] && k in BasisRefs(x.outcome))
    {
      r := IndexOutcome(r, Verification(result, outcomes[i]));
      assert outcomes[..i + 1] == outcomes[..i] + [outcomes[i]];
    }
    assert outcomes[..|outcomes|] == outcomes;
  }

  /** `verification_outcomes_by_evidence` */
  method VerificationOutcomesByEvidence(results: seq<Value>) returns (index: map<string, seq<Verification>>)
    ensures forall k, v :: v in Entries(index, k) <==> Cites(results, v, k)
  {
    index := map[];
    for i := 0 to |results|
      invariant forall k, v :: v in Entries(index, k) <==> Cites(results[..i], v, k)
    {
      assert results[..i + 1] == results[..i] + [results[i]];
      if Verifying(results[i]) {
        index := IndexResult(index, results[i]);
      }
    }
    assert results[..|results|] == results;
  }

  /** An Evidence record under the ID it was indexed with. */
  datatype Item = Item(id: string, record: Value)

  ghost predicate Covers(evidence: seq<Value>, item: Item, clauseRef: string) {
    item.record in evidence && IdOf(item.record) == Some(item.id) && clauseRef in CoveredRefs(item.record)
  }

  method IndexEvidence(index: map<string, seq<Item>>, item: Item) returns (r: map<string, seq<Item>>)
    ensures forall k, x :: x in Entries(r, k) <==> x in Entries(index, k) || (x == item && k in CoveredRefs(item.record))
  {
    r := index;
    var refs := CoveredRefs(item.record);
    for i := 0 to |refs|
      invariant forall k, x :: x in Entries(r, k) <==> x in Entries(index, k) || (x == item && k in refs[..i])
    {
      r := Push(r, refs[i], item);
      assert refs[..i + 1] == refs[..i] + [refs[i]];
    }
    assert refs[..|refs|] == refs;
  }

  /** `evidence_by_clause` */
  method EvidenceByClause(evidence: seq<Value>) returns (index: map<string, seq<Item>>)
    ensures forall k, x :: x in Entries(index, k) <==> Covers(evidence, x, k)
  {
    index := map[];
    for i := 0 to |evidence|
      invariant forall k, x :: x in Entries(index, k) <==> Covers(evidence[..i], x, k)
    {
      assert evidence[..i + 1] == evidence[..i] + [evidence[i]];
      if IdOf(evidence[i]).Some? {
        index := IndexEvidence(index, Item(IdOf(evidence[i]).value, evidence[i]));
      }
    }
    assert evidence[..|evidence|] == evidence;
  }

  ghost predicate Consulted(results: seq<Value>, ref: string) {
    exists v: Verification :: v.result in results && Verifying(v.result) && v.outcome in Outcomes(v.result)
                              && Manifest(v).Some? && ref in Manifest(v).value
  }

  /** `verification_freshness_refs`: every reference some outcome's manifest lists. */
  method VerificationFreshnessRefs(results: seq<Value>) returns (refs: set<string>)
    ensures forall ref :: ref in refs <==> Consulted(results, ref)
  {
    refs := {};
    for i := 0 to |results|
      invariant forall ref :: ref in refs <==> Consulted(results[..i], ref)
    {
      assert results[..i + 1] == results[..i] + [results[i]];
      var before := refs;
      if Verifying(results[i]) {
        var outcomes := Outcomes(results[i]);
        for j := 0 to |outcomes|
          invariant forall ref :: ref in refs <==> ref in before || exists o | o in outcomes[..j] ::
                      var m := Manifest(Verification(results[i], o)); m.Some? && ref in m.value
        {
          assert outcomes[..j + 1] == outcomes[..j] + [outcomes[j]];
          var manifest := Manifest(Verification(results[i], outcomes[j]));
          if manifest.Some? {
            refs := refs + manifest.value.Keys;
          }
        }
        assert outcomes[..|outcomes|] == outcomes;
      }
      forall ref: string ensures ref in refs <==> Consulted(results[..i + 1], ref) {
        if ref in refs && ref !in before {
          var o :| o in Outcomes(results[i]) && Manifest(Verification(results[i], o)).Some?
                   && ref in Manifest(Verification(results[i], o)).value;
          assert Verification(results[i], o).result in results[..i + 1];
        }
        if v: Verification :| v.result in results[..i + 1] && Verifying(v.result) && v.outcome in Outcomes(v.result)
                              && Manifest(v).Some? && ref in Manifest(v).value {
          if v.result == results[i] {
            assert v == Verification(results[i], v.outcome);
          }
        }
      }
    }
    assert results[..|results|] == results;
  }

  // --------------------------------------------------------- the restricted digest map

  /** The code's digest map as a left-to-right fold over everything that has a digest. */
  function Resolve(digests: map<string, Value>, sources: seq<Source>, required: set<string>)
    : Result<map<string, Value>, HealthError>
  {
    if sources == [] then Ok(digests)
    else
      var before := Resolve(digests, sources[..|sources| - 1], required);
      if before.Err? then before else Take(before.value, sources[|sources| - 1], required)
  }

  function Take(digests: map<string, Value>, source: Source, required: set<string>)
    : Result<map<string, Value>, HealthError>
  {
    match source
    case Malformed => Err(IdMissing)
    case Bound(ref, digest) =>
      if ref !in required then Ok(digests)
      else if digest.None? then Err(NoDigest)
      else Ok(digests[ref := digest.value])
  }

  lemma {:induction false} ResolveConcat(digests: map<string, Value>, xs: seq<Source>, ys: seq<Source>, required: set<string>)
    ensures Resolve(digests, xs + ys, required) ==
            match Resolve(digests, xs, required)
            case Err(e) => Err(e)
            case Ok(m) => Resolve(m, ys, required)
  {
    if ys == [] {
      assert xs + ys == xs;
    } else {
      assert (xs + ys)[..|xs + ys| - 1] == xs + ys[..|ys| - 1];
      ResolveConcat(digests, xs, ys[..|ys| - 1], required);
    }
  }

  lemma ResolveOne(digests: map<string, Value>, source: Source, required: set<string>)
    ensures Resolve(digests, [source], required) == Take(digests, source, required)
  {
    assert [source][..0] == [];
  }

  lemma {:induction false} ResolveErrStays(digests: map<string, Value>, sources: seq<Source>, n: nat, required: set<string>)
    requires n <= |sources| && Resolve(digests, sources[..n], required).Err?
    ensures Resolve(digests, sources, required) == Resolve(digests, sources[..n], required)
  {
    assert sources == sources[..n] + sources[n..];
    ResolveConcat(digests, sources[..n], sources[n..], required);
  }

  method ResolveAll(digests: map<string, Value>, sources: seq<Source>, required: set<string>)
    returns (r: Result<map<string, Value>, HealthError>)
    ensures r == Resolve(digests, sources, required)
  {
    var m := digests;
    for i := 0 to |sources|
      invariant Resolve(digests, sources[..i], required) == Ok(m)
    {
      assert sources[..i + 1][..i] == sources[..i];
      var next := Take(m, sources[i], required);
      if next.Err? {
        ResolveErrStays(digests, sources, i + 1, required);
        return next;
      }
      m := next.value;
    }
    assert sources[..|sources|] == sources;
    return Ok(m);
  }

  method ResolveRecords(digests: map<string, Value>, records: seq<Value>, known: map<string, Value>,
                        contracts: bool, required: set<string>)
    returns (r: Result<map<string, Value>, HealthError>)
    ensures r == Resolve(digests, RecordSources(records, known, contracts), required)
  {
    hide Resolve, Take, RecordSource, RecordSources, ClauseSources, Clauses;
    var m := digests;
    NoRecords(digests, records, known, contracts, required);
    for i := 0 to |records|
      invariant Resolve(digests, RecordSources(records[..i], known, contracts), required) == Ok(m)
    {
      var record := records[i];
      ResolveNextRecord(digests, records, i, known, contracts, required, m);
      var next := Take(m, RecordSource(record, known), required);
      if next.Ok? && contracts {
        next := ResolveAll(next.value, ClauseSources(record, Clauses(record)), required);
      }
      if next.Err? {
        ResolveRecordsErr(digests, records, i + 1, known, contracts, required);
        return next;
      }
      m := next.value;
    }
    assert records[..|records|] == records;
    return Ok(m);
  }

  lemma NoRecords(digests: map<string, Value>, records: seq<Value>, known: map<string, Value>, contracts: bool, required: set<string>)
    ensures Resolve(digests, RecordSources(records[..0], known, contracts), required) == Ok(digests)
  {
    assert records[..0] == [];
  }

  /** One more record: its own digest, then those of its clauses. */
  lemma ResolveNextRecord(digests: map<string, Value>, records: seq<Value>, i: nat, known: map<string, Value>, contracts: bool,
                          required: set<string>, m: map<string, Value>)
    requires i < |records| && Resolve(digests, RecordSources(records[..i], known, contracts), required) == Ok(m)
    ensures Resolve(digests, RecordSources(records[..i + 1], known, contracts), required) ==
            var own := Take(m, RecordSource(records[i], known), required);
            if own.Ok? && contracts then Resolve(own.value, ClauseSources(records[i], Clauses(records[i])), required) else own
  {
    hide Resolve, Take, RecordSource, ClauseSources;
    var record := records[i];
    assert records[..i + 1][..i] == records[..i];
    var before, own := RecordSources(records[..i], known, contracts), [RecordSource(record, known)];
    ResolveConcat(digests, before, own, required);
    ResolveOne(m, RecordSource(record, known), required);
    if contracts {
      ResolveConcat(digests, before + own, ClauseSources(record, Clauses(record)), required);
    } else {
      assert before + own + [] == before + own;
    }
  }

  lemma ResolveRecordsErr(digests: map<string, Value>, records: seq<Value>, n: nat, known: map<string, Value>, contracts: bool, required: set<string>)
    requires n <= |records| && Resolve(digests, RecordSources(records[..n], known, contracts), required).Err?
    ensures Resolve(digests, RecordSources(records, known, contracts), required)
            == Resolve(digests, RecordSources(records[..n], known, contracts), required)
  {
    hide *;
    RecordSourcesPrefix(records, n, known, contracts);
    var head, all := RecordSources(records[..n], known, contracts), RecordSources(records, known, contracts);
    assert all[..|head|] == head;
    ResolveErrStays(digests, all, |head|, required);
  }

  lemma {:induction false} RecordSourcesPrefix(records: seq<Value>, n: nat, known: map<string, Value>, contracts: bool)
    requires n <= |records|
    ensures RecordSources(records[..n], known, contracts) <= RecordSources(records, known, contracts)
    decreases |records| - n
  {
    if n == |records| {
      assert records[..n] == records;
    } else {
      assert records[..n + 1][..n] == records[..n];
      RecordSourcesPrefix(records, n + 1, known, contracts);
    }
  }

  /** `current_artifact_digests`: collection by collection, then the observed artifacts. */
  method CurrentArtifactDigests(p: Project, known: map<string, Value>, required: set<string>)
    returns (r: Result<map<string, Value>, HealthError>)
    ensures r == Resolve(map[], Sources(p, known), required)
  {
    hide *;
    var collections := Collections(p);
    ghost var parts := PartSources(p, known);
    CollectionsAreParts(p, known);
    r := Ok(map[]);
    NoParts(parts, required);
    for i := 0 to |collections|
      invariant r == Resolve(map[], Concat(parts[..i]), required)
    {
      ResolveNextPart(parts, i, required);
      if r.Ok? {
        r := ResolveRecords(r.value, collections[i].0, known, collections[i].1, required);
      }
    }
    PartsAreSources(p, known);
    ResolveNextPart(parts, 5, required);
    assert parts[..6] == parts;
    AllParts(parts);
    if r.Ok? {
      r := ResolveAll(r.value, ArtifactSources(p.repository.At("artifacts").Elements()), required);
    }
  }

  /** The record collections, and which of them hold clauses. */
  function Collections(p: Project): seq<(seq<Value>, bool)> {
    [(p.changes, false), (p.contracts, true), (p.decisions, false), (p.results, false), (p.evidence, false)]
  }

  lemma CollectionsAreParts(p: Project, known: map<string, Value>)
    ensures |Collections(p)| == 5 && |PartSources(p, known)| == 6
    ensures forall i | 0 <= i < 5 :: PartSources(p, known)[i] == RecordSources(Collections(p)[i].0, known, Collections(p)[i].1)
    ensures PartSources(p, known)[5] == ArtifactSources(p.repository.At("artifacts").Elements())
  {
    hide RecordSources, ArtifactSources;
  }

  lemma NoParts(parts: seq<seq<Source>>, required: set<string>)
    ensures Resolve(map[], Concat(parts[..0]), required) == Ok(map[])
  {
    assert parts[..0] == [];
  }

  lemma ResolveNextPart(parts: seq<seq<Source>>, i: nat, required: set<string>)
    requires i < |parts|
    ensures Resolve(map[], Concat(parts[..i + 1]), required) ==
            if Resolve(map[], Concat(parts[..i]), required).Err? then Resolve(map[], Concat(parts[..i]), required)
            else Resolve(Resolve(map[], Concat(parts[..i]), required).value, parts[i], required)
  {
    hide Resolve;
    assert parts[..i + 1][..i] == parts[..i];
    ResolveConcat(map[], Concat(parts[..i]), parts[i], required);
  }

  lemma AllParts(parts: seq<seq<Source>>)
    requires |parts| == 6
    ensures Concat(parts) == Concat(parts[..5]) + parts[5]
  {}

  ghost function PartSources(p: Project, known: map<string, Value>): seq<seq<Source>> {
    [RecordSources(p.changes, known, false), RecordSources(p.contracts, known, true),
     RecordSources(p.decisions, known, false), RecordSources(p.results, known, false),
     RecordSources(p.evidence, known, false), ArtifactSources(p.repository.At("artifacts").Elements())]
  }

  ghost function Concat(parts: seq<seq<Source>>): seq<Source> {
    if parts == [] then [] else Concat(parts[..|parts| - 1]) + parts[|parts| - 1]
  }

  lemma PartsAreSources(p: Project, known: map<string, Value>)
    ensures Concat(PartSources(p, known)[..5]) + PartSources(p, known)[5] == Sources(p, known)
  {
    var parts := PartSources(p, known);
    assert parts[..1][..0] == [] && parts[..2][..1] == parts[..1] && parts[..3][..2] == parts[..2];
    assert parts[..4][..3] == parts[..3] && parts[..5][..4] == parts[..4];
    assert Concat(parts[..1]) == parts[0];
    assert Concat(parts[..2]) == Concat(parts[..1]) + parts[1];
    assert Concat(parts[..3]) == Concat(parts[..2]) + parts[2];
    assert Concat(parts[..4]) == Concat(parts[..3]) + parts[3];
    assert Concat(parts[..5]) == Concat(parts[..4]) + parts[4];
    assert Concat(parts[..5]) == parts[0] + parts[1] + parts[2] + parts[3] + parts[4];
  }

  ghost predicate Digestible(sources: seq<Source>, required: set<string>) {
    forall s | s in sources :: s.Bound? && (s.ref in required ==> s.digest.Some?)
  }

  /** The restricted map agrees with the full one on every required reference. */
  lemma {:induction false} RestrictedMapAgrees(sources: seq<Source>, required: set<string>)
    ensures Resolve(map[], sources, required).Ok? <==> Digestible(sources, required)
    ensures Resolve(map[], sources, required).Ok? ==>
              forall ref | ref in required :: Lookup(Resolve(map[], sources, required).value, ref) == CurrentDigest(sources, ref)
  {
    if sources != [] {
      var before, last := sources[..|sources| - 1], sources[|sources| - 1];
      assert sources == before + [last];
      RestrictedMapAgrees(before, required);
      assert Digestible(sources, required) <==>
             Digestible(before, required) && last.Bound? && (last.ref in required ==> last.digest.Some?);
    }
  }
}
