/** The clause loop and the report of src/contract_health.rs, proved against the brute-force
    definition of HealthRecords.
  */
module ContractHealthReport {
  import opened Json
  import opened HealthRecords
  import opened ContractHealth

  /** What the Evidence seen so far says about one clause. */
  datatype Tally = Tally(ids: set<string>, stale: set<string>, success: bool, failure: bool, historical: bool)

  /** `stale_refs_for_outcome`: against the restricted digest map. */
  function StaleAgainst(current: map<string, Value>, v: Verification, contractId: string, evidenceId: string): set<string> {
    match Manifest(v)
    case None => {MISSING_MANIFEST}
    case Some(manifest) =>
      (set ref | ref in manifest && Lookup(current, ref) != manifest[ref].AsText())
      + (set ref | ref in {contractId, evidenceId} && ref !in manifest)
  }

  predicate Counts(item: Item, v: Verification) {
    v.result.At("change_id") == item.record.At("change_id") && IdOf(v.result).Some?
  }

  /** One Evidence record met with one outcome that cites it. */
  datatype Pair = Pair(item: Item, v: Verification)

  function Mismatches(pair: Pair, current: map<string, Value>, contractId: string): set<string> {
    StaleAgainst(current, pair.v, contractId, pair.item.id)
  }

  /** The tally is exactly what the pairs met so far say. */
  ghost predicate Summary(t: Tally, pairs: set<Pair>, current: map<string, Value>, contractId: string) {
    && (forall id :: id in t.ids <==> exists pair | pair in pairs :: IdOf(pair.v.result) == Some(id))
    && (forall ref :: ref in t.stale <==> exists pair | pair in pairs :: ref in Mismatches(pair, current, contractId))
    && (t.success <==> exists pair | pair in pairs :: Mismatches(pair, current, contractId) == {} && Succeeds(pair.item.record, pair.v.outcome))
    && (t.failure <==> exists pair | pair in pairs :: Mismatches(pair, current, contractId) == {} && Fails(pair.item.record))
    && (t.historical <==> exists pair | pair in pairs :: Mismatches(pair, current, contractId) != {})
  }

  lemma SuccessIsNoFailure(evidence: Value, outcome: Value)
    ensures Succeeds(evidence, outcome) ==> !Fails(evidence)
  {
    hide EvidenceVerifies;
  }

  /** The body of the inner loop. */
  method TallyPair(t: Tally, pair: Pair, current: map<string, Value>, contractId: string, ghost pairs: set<Pair>)
    returns (r: Tally)
    requires Summary(t, pairs, current, contractId) && IdOf(pair.v.result).Some?
    ensures Summary(r, pairs + {pair}, current, contractId)
  {
    hide StaleAgainst, Succeeds, Fails, IdOf;
    SuccessIsNoFailure(pair.item.record, pair.v.outcome);
    r := t.(ids := t.ids + {IdOf(pair.v.result).value});
    var mismatches := Mismatches(pair, current, contractId);
    if mismatches == {} {
      if Succeeds(pair.item.record, pair.v.outcome) {
        r := r.(success := true);
      } else if Fails(pair.item.record) {
        r := r.(failure := true);
      }
    } else {
      r := r.(historical := true, stale := r.stale + mismatches);
    }
    ghost var all := pairs + {pair};
    assert pair in all && forall p :: p in all <==> p in pairs || p == pair;
    assert forall id :: id in r.ids <==> id in t.ids || IdOf(pair.v.result) == Some(id);
    assert forall ref :: ref in r.stale <==> ref in t.stale || ref in mismatches;
  }

  ghost predicate Met(items: seq<Item>, index: map<string, seq<Verification>>, clauseRef: string, mode: EvidenceMode, pair: Pair) {
    && pair.item in items
    && EvidenceCovers(pair.item.record, clauseRef, mode)
    && pair.v in Entries(index, pair.item.id)
    && Counts(pair.item, pair.v)
  }

  /** The pairs of one Evidence record with the outcomes that count for it. */
  ghost function PairsOf(item: Item, vs: seq<Verification>): set<Pair> {
    set v | v in vs && Counts(item, v) :: Pair(item, v)
  }

  /** The inner loop: the outcomes citing one Evidence record. */
  method TallyItem(t: Tally, item: Item, vs: seq<Verification>, current: map<string, Value>, contractId: string,
                   ghost before: set<Pair>)
    returns (r: Tally)
    requires Summary(t, before, current, contractId)
    ensures Summary(r, before + PairsOf(item, vs), current, contractId)
  {
    hide StaleAgainst, Succeeds, Fails, IdOf, Summary, Mismatches;
    r := t;
    assert before + PairsOf(item, vs[..0]) == before;
    for i := 0 to |vs|
      invariant Summary(r, before + PairsOf(item, vs[..i]), current, contractId)
    {
      assert vs[..i + 1] == vs[..i] + [vs[i]];
      if Counts(item, vs[i]) {
        assert before + PairsOf(item, vs[..i + 1]) == (before + PairsOf(item, vs[..i])) + {Pair(item, vs[i])};
        r := TallyPair(r, Pair(item, vs[i]), current, contractId, before + PairsOf(item, vs[..i]));
      } else {
        assert PairsOf(item, vs[..i + 1]) == PairsOf(item, vs[..i]);
      }
    }
    assert vs[..|vs|] == vs;
  }

  /** `clause_health`, over the two indexes and the restricted digest map. */
  method TallyClause(items: seq<Item>, index: map<string, seq<Verification>>, current: map<string, Value>,
                     contractId: string, clauseRef: string, mode: EvidenceMode)
    returns (refs: set<string>, t: Tally, ghost pairs: set<Pair>)
    ensures forall id :: id in refs <==> exists x | x in items :: EvidenceCovers(x.record, clauseRef, mode) && x.id == id
    ensures Summary(t, pairs, current, contractId)
    ensures forall pair :: pair in pairs <==> Met(items, index, clauseRef, mode, pair)
  {
    hide StaleAgainst, Succeeds, Fails, IdOf, Mismatches, EvidenceCovers, Counts;
    refs, t, pairs := {}, Tally({}, {}, false, false, false), {};
    assert Summary(t, pairs, current, contractId);
    hide Summary;
    for i := 0 to |items|
      invariant forall id :: id in refs <==> exists x | x in items[..i] :: EvidenceCovers(x.record, clauseRef, mode) && x.id == id
      invariant Summary(t, pairs, current, contractId)
      invariant forall pair :: pair in pairs <==> Met(items[..i], index, clauseRef, mode, pair)
    {
      var item := items[i];
      assert items[..i + 1] == items[..i] + [item];
      if EvidenceCovers(item.record, clauseRef, mode) {
        refs := refs + {item.id};
        t := TallyItem(t, item, Entries(index, item.id), current, contractId, pairs);
        pairs := pairs + PairsOf(item, Entries(index, item.id));
      }
    }
    assert items[..|items|] == items;
  }

  method ClauseHealthOf(contract: Value, clause: Value, contractId: string, clauseId: string, items: seq<Item>,
                        index: map<string, seq<Verification>>, current: map<string, Value>)
    returns (h: ClauseHealth, ghost t: Tally, ghost pairs: set<Pair>)
    ensures forall id :: id in h.evidenceRefs <==> exists x | x in items ::
              EvidenceCovers(x.record, ClauseRef(contractId, clauseId), EffectiveMode(contract, clause)) && x.id == id
    ensures Summary(t, pairs, current, contractId)
    ensures forall pair :: pair in pairs <==> Met(items, index, ClauseRef(contractId, clauseId), EffectiveMode(contract, clause), pair)
    ensures h.contractId == contractId && h.clauseId == clauseId && h.resultIds == t.ids
    ensures h.text == if clause.At("text").Str? then clause.At("text").s else ""
    ensures h.appliesTo == EffectiveAppliesTo(contract, clause) && h.authorityRef == clause.At("authority_ref").AsStr()
    ensures h.mode == EffectiveMode(contract, clause)
    ensures h.status == if h.mode == Review then InReview else if t.success then Verified
                        else if t.failure then Failed else if t.historical then Stale else Unverified
    ensures h.staleRefs == if h.status == Stale then t.stale else {}
  {
    var mode := EffectiveMode(contract, clause);
    var refs, tally;
    refs, tally, pairs := TallyClause(items, index, current, contractId, ClauseRef(contractId, clauseId), mode);
    t := tally;
    var status := if mode == Review then InReview
                  else if tally.success then Verified
                  else if tally.failure then Failed
                  else if tally.historical then Stale
                  else Unverified;
    h := ClauseHealth(contractId, clauseId, if clause.At("text").Str? then clause.At("text").s else "",
                      EffectiveAppliesTo(contract, clause), clause.At("authority_ref").AsStr(), mode, status, refs, tally.ids,
                      if status == Stale then tally.stale else {});
  }

  // ------------------------------------------------- from the indexes to the definition

  /** The inputs of the clause loop are what the source computes from the project. */
  ghost predicate Prepared(p: Project, sources: seq<Source>, items: seq<Item>, clauseRef: string,
                           index: map<string, seq<Verification>>, current: map<string, Value>) {
    && (forall x :: x in items <==> Covers(p.evidence, x, clauseRef))
    && (forall k, v :: v in Entries(index, k) <==> Cites(p.results, v, k))
    && (forall ref :: Consulted(p.results, ref) ==> Lookup(current, ref) == CurrentDigest(sources, ref))
  }

  /** Every manifest key a cited outcome consults is among the collected references, so the
      restricted map gives the same stale references as the full one. */
  lemma StaleAgainstFull(p: Project, sources: seq<Source>, current: map<string, Value>, v: Verification, contractId: string, evidenceId: string)
    requires forall ref :: Consulted(p.results, ref) ==> Lookup(current, ref) == CurrentDigest(sources, ref)
    requires v.result in p.results && Verifying(v.result) && v.outcome in Outcomes(v.result)
    ensures StaleAgainst(current, v, contractId, evidenceId) == StaleRefs(sources, v, contractId, evidenceId)
  {
    if Manifest(v).Some? {
      forall ref | ref in Manifest(v).value ensures Lookup(current, ref) == CurrentDigest(sources, ref) {
        assert Consulted(p.results, ref);
      }
    }
  }

  /** The pairs the indexes produce are exactly the pairs of the definition. */
  ghost predicate SamePairs(p: Project, sources: seq<Source>, contract: Value, clause: Value, pairs: set<Pair>, current: map<string, Value>)
    requires IdOf(contract).Some? && IdOf(clause).Some?
  {
    && (forall pair | pair in pairs ::
          && Checks(p, contract, clause, pair.item.record, pair.v) && IdOf(pair.item.record) == Some(pair.item.id)
          && Mismatches(pair, current, IdOf(contract).value) == StaleRefs(sources, pair.v, IdOf(contract).value, pair.item.id))
    && (forall e, v :: Checks(p, contract, clause, e, v) ==> Pair(Item(IdOf(e).value, e), v) in pairs)
  }

  lemma IndexesGiveSamePairs(p: Project, sources: seq<Source>, contract: Value, clause: Value, items: seq<Item>,
                             index: map<string, seq<Verification>>, current: map<string, Value>, pairs: set<Pair>)
    requires IdOf(contract).Some? && IdOf(clause).Some?
    requires var ref := ClauseRef(IdOf(contract).value, IdOf(clause).value);
             && Prepared(p, sources, items, ref, index, current)
             && forall pair :: pair in pairs <==> Met(items, index, ref, EffectiveMode(contract, clause), pair)
    ensures SamePairs(p, sources, contract, clause, pairs, current)
  {
    var ref := ClauseRef(IdOf(contract).value, IdOf(clause).value);
    forall pair | pair in pairs
      ensures Checks(p, contract, clause, pair.item.record, pair.v) && IdOf(pair.item.record) == Some(pair.item.id)
      ensures Mismatches(pair, current, IdOf(contract).value) == StaleRefs(sources, pair.v, IdOf(contract).value, pair.item.id)
    {
      assert Covers(p.evidence, pair.item, ref) && Cites(p.results, pair.v, pair.item.id);
      StaleAgainstFull(p, sources, current, pair.v, IdOf(contract).value, pair.item.id);
    }
    forall e, v | Checks(p, contract, clause, e, v) ensures Pair(Item(IdOf(e).value, e), v) in pairs {
      assert Covers(p.evidence, Item(IdOf(e).value, e), ref);
      assert Cites(p.results, v, IdOf(e).value);
    }
  }

  lemma SupportingRefsAgree(p: Project, contract: Value, clause: Value, items: seq<Item>, refs: set<string>)
    requires IdOf(contract).Some? && IdOf(clause).Some?
    requires var ref := ClauseRef(IdOf(contract).value, IdOf(clause).value);
             && (forall x :: x in items <==> Covers(p.evidence, x, ref))
             && forall id :: id in refs <==> exists x | x in items :: EvidenceCovers(x.record, ref, EffectiveMode(contract, clause)) && x.id == id
    ensures refs == SupportingRefs(p, contract, clause)
  {
    var ref := ClauseRef(IdOf(contract).value, IdOf(clause).value);
    forall id: string ensures id in refs <==> id in SupportingRefs(p, contract, clause) {
      if id in SupportingRefs(p, contract, clause) {
        var e :| e in p.evidence && Supports(p, contract, clause, e) && IdOf(e).value == id;
        assert Covers(p.evidence, Item(id, e), ref);
        assert Item(id, e) in items;
      }
    }
  }

  lemma ResultIdsAgree(p: Project, sources: seq<Source>, contract: Value, clause: Value, pairs: set<Pair>, current: map<string, Value>, t: Tally)
    requires IdOf(contract).Some? && IdOf(clause).Some?
    requires SamePairs(p, sources, contract, clause, pairs, current) && Summary(t, pairs, current, IdOf(contract).value)
    ensures t.ids == CheckingResults(p, contract, clause)
  {
    forall id: string ensures id in t.ids <==> id in CheckingResults(p, contract, clause) {
      if id in t.ids {
        var pair :| pair in pairs && IdOf(pair.v.result) == Some(id);
        assert Checks(p, contract, clause, pair.item.record, Verification(pair.v.result, pair.v.outcome));
      }
      if id in CheckingResults(p, contract, clause) {
        var r :| r in p.results && IdOf(r) == Some(id) && exists e, o :: Checks(p, contract, clause, e, Verification(r, o));
        var e, o :| Checks(p, contract, clause, e, Verification(r, o));
        assert Pair(Item(IdOf(e).value, e), Verification(r, o)) in pairs;
      }
    }
  }

  /** Every check of the definition is among the pairs, with the same stale references. */
  lemma PairOfCheck(p: Project, sources: seq<Source>, contract: Value, clause: Value, pairs: set<Pair>, current: map<string, Value>,
                    e: Value, v: Verification)
    returns (pair: Pair)
    requires IdOf(contract).Some? && IdOf(clause).Some?
    requires SamePairs(p, sources, contract, clause, pairs, current) && Checks(p, contract, clause, e, v)
    ensures pair in pairs && pair.v == v && pair.item.record == e && IdOf(e) == Some(pair.item.id)
    ensures Mismatches(pair, current, IdOf(contract).value) == StaleRefs(sources, v, IdOf(contract).value, pair.item.id)
    ensures Fresh(p, sources, contract, clause, e, v) <==> Mismatches(pair, current, IdOf(contract).value) == {}
  {
    hide Mismatches, StaleRefs;
    pair := Pair(Item(IdOf(e).value, e), v);
  }

  lemma CheckOfPair(p: Project, sources: seq<Source>, contract: Value, clause: Value, pairs: set<Pair>, current: map<string, Value>, pair: Pair)
    requires IdOf(contract).Some? && IdOf(clause).Some?
    requires SamePairs(p, sources, contract, clause, pairs, current) && pair in pairs
    ensures Checks(p, contract, clause, pair.item.record, pair.v) && IdOf(pair.item.record) == Some(pair.item.id)
    ensures Mismatches(pair, current, IdOf(contract).value) == StaleRefs(sources, pair.v, IdOf(contract).value, pair.item.id)
    ensures Fresh(p, sources, contract, clause, pair.item.record, pair.v) <==> Mismatches(pair, current, IdOf(contract).value) == {}
  {
    hide Mismatches, StaleRefs;
  }

  lemma SuccessAgrees(p: Project, sources: seq<Source>, contract: Value, clause: Value, pairs: set<Pair>, current: map<string, Value>, t: Tally)
    requires IdOf(contract).Some? && IdOf(clause).Some?
    requires SamePairs(p, sources, contract, clause, pairs, current) && Summary(t, pairs, current, IdOf(contract).value)
    ensures t.success <==> HasSuccess(p, sources, contract, clause)
  {
    hide SamePairs, Checks, Fresh, Mismatches, Succeeds, Fails, StaleRefs;
    if t.success {
      var pair :| pair in pairs && Mismatches(pair, current, IdOf(contract).value) == {} && Succeeds(pair.item.record, pair.v.outcome);
      CheckOfPair(p, sources, contract, clause, pairs, current, pair);
    }
    if HasSuccess(p, sources, contract, clause) {
      var e, v :| Fresh(p, sources, contract, clause, e, v) && Succeeds(e, v.outcome);
      FreshIsCheck(p, sources, contract, clause, e, v);
      var pair := PairOfCheck(p, sources, contract, clause, pairs, current, e, v);
    }
  }

  lemma FailureAgrees(p: Project, sources: seq<Source>, contract: Value, clause: Value, pairs: set<Pair>, current: map<string, Value>, t: Tally)
    requires IdOf(contract).Some? && IdOf(clause).Some?
    requires SamePairs(p, sources, contract, clause, pairs, current) && Summary(t, pairs, current, IdOf(contract).value)
    ensures t.failure <==> HasFailure(p, sources, contract, clause)
  {
    hide SamePairs, Checks, Fresh, Mismatches, Succeeds, Fails, StaleRefs;
    if t.failure {
      var pair :| pair in pairs && Mismatches(pair, current, IdOf(contract).value) == {} && Fails(pair.item.record);
      CheckOfPair(p, sources, contract, clause, pairs, current, pair);
    }
    if HasFailure(p, sources, contract, clause) {
      var e, v :| Fresh(p, sources, contract, clause, e, v) && Fails(e);
      FreshIsCheck(p, sources, contract, clause, e, v);
      var pair := PairOfCheck(p, sources, contract, clause, pairs, current, e, v);
    }
  }

  lemma HistoryAgrees(p: Project, sources: seq<Source>, contract: Value, clause: Value, pairs: set<Pair>, current: map<string, Value>, t: Tally)
    requires IdOf(contract).Some? && IdOf(clause).Some?
    requires SamePairs(p, sources, contract, clause, pairs, current) && Summary(t, pairs, current, IdOf(contract).value)
    ensures t.historical <==> HasHistory(p, sources, contract, clause)
  {
    hide SamePairs, Checks, Fresh, Mismatches, Succeeds, Fails, StaleRefs;
    if t.historical {
      var pair :| pair in pairs && Mismatches(pair, current, IdOf(contract).value) != {};
      CheckOfPair(p, sources, contract, clause, pairs, current, pair);
    }
    if HasHistory(p, sources, contract, clause) {
      var e, v :| Checks(p, contract, clause, e, v) && !Fresh(p, sources, contract, clause, e, v);
      var pair := PairOfCheck(p, sources, contract, clause, pairs, current, e, v);
    }
  }

  lemma StatusAgrees(p: Project, sources: seq<Source>, contract: Value, clause: Value, pairs: set<Pair>, current: map<string, Value>, t: Tally)
    requires IdOf(contract).Some? && IdOf(clause).Some?
    requires SamePairs(p, sources, contract, clause, pairs, current) && Summary(t, pairs, current, IdOf(contract).value)
    ensures t.success <==> HasSuccess(p, sources, contract, clause)
    ensures t.failure <==> HasFailure(p, sources, contract, clause)
    ensures t.historical <==> HasHistory(p, sources, contract, clause)
  {
    hide *;
    SuccessAgrees(p, sources, contract, clause, pairs, current, t);
    FailureAgrees(p, sources, contract, clause, pairs, current, t);
    HistoryAgrees(p, sources, contract, clause, pairs, current, t);
  }

  lemma StaleCheck(p: Project, sources: seq<Source>, contract: Value, clause: Value, ref: string) returns (e: Value, v: Verification)
    requires IdOf(contract).Some? && IdOf(clause).Some? && StaleFor(p, sources, contract, clause, ref)
    ensures Checks(p, contract, clause, e, v) && IdOf(e).Some?
    ensures ref in StaleRefs(sources, v, IdOf(contract).value, IdOf(e).value)
  {
    hide StaleRefs;
    e, v :| Checks(p, contract, clause, e, v) && ref in StaleRefs(sources, v, IdOf(contract).value, IdOf(e).value);
  }

  lemma StaleRefsAgree(p: Project, sources: seq<Source>, contract: Value, clause: Value, pairs: set<Pair>, current: map<string, Value>, t: Tally)
    requires IdOf(contract).Some? && IdOf(clause).Some?
    requires SamePairs(p, sources, contract, clause, pairs, current) && Summary(t, pairs, current, IdOf(contract).value)
    ensures forall ref :: ref in t.stale <==> StaleFor(p, sources, contract, clause, ref)
  {
    hide SamePairs, Checks, Fresh, Mismatches, Succeeds, Fails, StaleRefs;
    forall ref: string ensures ref in t.stale <==> StaleFor(p, sources, contract, clause, ref) {
      if ref in t.stale {
        var pair :| pair in pairs && ref in Mismatches(pair, current, IdOf(contract).value);
        CheckOfPair(p, sources, contract, clause, pairs, current, pair);
      }
      if StaleFor(p, sources, contract, clause, ref) {
        var e, v := StaleCheck(p, sources, contract, clause, ref);
        var pair := PairOfCheck(p, sources, contract, clause, pairs, current, e, v);
        assert ref in Mismatches(pair, current, IdOf(contract).value);
      }
    }
  }

  // ------------------------------------------------------------------------- the report

  /** A clause where it stands in the project. */
  datatype Site = Site(contract: Value, clause: Value)

  datatype ReportSummary = ReportSummary(total: nat, verified: nat, stale: nat, unverified: nat, failed: nat, review: nat)

  /** The report; its clause list, sorted by a unique clause reference, is a map here. */
  datatype Report = Report(revision: Option<string>, summary: ReportSummary, clauses: map<string, ClauseHealth>)

  function Sites(contract: Value, clauses: seq<Value>): seq<Site> {
    seq(|clauses|, i requires 0 <= i < |clauses| => Site(contract, clauses[i]))
  }

  /** Every clause of every Contract, in order. */
  function AllSites(contracts: seq<Value>): seq<Site> {
    if contracts == [] then []
    else AllSites(contracts[..|contracts| - 1]) + Sites(contracts[|contracts| - 1], Clauses(contracts[|contracts| - 1]))
  }

  predicate Named(site: Site) {
    IdOf(site.contract).Some? && IdOf(site.clause).Some?
  }

  function RefOf(site: Site): string
    requires Named(site)
  {
    ClauseRef(IdOf(site.contract).value, IdOf(site.clause).value)
  }

  ghost predicate DistinctRefs(sites: seq<Site>) {
    && (forall site | site in sites :: Named(site))
    && (forall i, j | 0 <= i < j < |sites| :: RefOf(sites[i]) != RefOf(sites[j]))
  }

  predicate UniqueIds(records: seq<Value>) {
    && (forall i | 0 <= i < |records| :: IdOf(records[i]).Some?)
    && (forall i, j | 0 <= i < j < |records| :: IdOf(records[i]) != IdOf(records[j]))
  }

  /** Which records the report needs to be valid. */
  ghost predicate NeededForHealth(p: Project, kind: string, record: Value) {
    || kind == "contract" || kind == "evidence"
    || (IdOf(record).Some? && Consulted(p.results, IdOf(record).value))
    || (kind == "result" && Verifying(record))
  }

  ghost predicate AllValid(p: Project, valid: Registry, kind: string, records: seq<Value>) {
    forall record | record in records :: NeededForHealth(p, kind, record) ==> valid(kind, record)
  }

  ghost predicate ConsultedDigestible(p: Project, sources: seq<Source>) {
    forall s | s in sources :: s.Bound? && (Consulted(p.results, s.ref) ==> s.digest.Some?)
  }

  /** Exactly the projects a report can be built for. */
  ghost predicate Reportable(p: Project, valid: Registry, known: map<string, Value>) {
    && UniqueIds(p.changes) && UniqueIds(p.contracts) && UniqueIds(p.decisions) && UniqueIds(p.results) && UniqueIds(p.evidence)
    && AllValid(p, valid, "change", p.changes) && AllValid(p, valid, "contract", p.contracts)
    && AllValid(p, valid, "decision", p.decisions) && AllValid(p, valid, "result", p.results)
    && AllValid(p, valid, "evidence", p.evidence)
    && ConsultedDigestible(p, Sources(p, known))
    && DistinctRefs(AllSites(p.contracts))
  }

  function CountStatus(clauses: map<string, ClauseHealth>, status: Status): nat {
    |set ref | ref in clauses && clauses[ref].status == status|
  }

  function Summarize(clauses: map<string, ClauseHealth>): ReportSummary {
    ReportSummary(|clauses|, CountStatus(clauses, Verified), CountStatus(clauses, Stale), CountStatus(clauses, Unverified),
             CountStatus(clauses, Failed), CountStatus(clauses, InReview))
  }

  ghost predicate HealthyAt(p: Project, sources: seq<Source>, site: Site, h: ClauseHealth) {
    Named(site) && Healthy(p, sources, site.contract, site.clause, h)
  }

  /** The report has one entry for each clause, and each says what the definition says. */
  ghost predicate Describes(p: Project, known: map<string, Value>, r: Report) {
    && (forall site | site in AllSites(p.contracts) :: Named(site) && RefOf(site) in r.clauses
          && HealthyAt(p, Sources(p, known), site, r.clauses[RefOf(site)]))
    && (forall ref | ref in r.clauses :: exists site | site in AllSites(p.contracts) :: Named(site) && RefOf(site) == ref)
    && r.summary == Summarize(r.clauses)
    && r.revision == p.repository.At("revision").AsStr()
  }

  method ValidateUniqueIds(records: seq<Value>) returns (ok: bool)
    ensures ok <==> UniqueIds(records)
  {
    var seen: set<string> := {};
    for i := 0 to |records|
      invariant UniqueIds(records[..i])
      invariant forall id :: id in seen <==> exists k | 0 <= k < i :: IdOf(records[k]) == Some(id)
    {
      var id := IdOf(records[i]);
      if id.None? {
        return false;
      }
      if id.value in seen {
        return false;
      }
      seen := seen + {id.value};
    }
    assert records[..|records|] == records;
    return true;
  }

  method ValidateRecords(p: Project, valid: Registry, kind: string, records: seq<Value>, refs: set<string>)
    returns (ok: bool)
    requires forall ref :: ref in refs <==> Consulted(p.results, ref)
    ensures ok <==> AllValid(p, valid, kind, records)
  {
    hide Consulted;
    for i := 0 to |records|
      invariant AllValid(p, valid, kind, records[..i])
    {
      var record := records[i];
      assert records[..i + 1] == records[..i] + [record];
      var needed := kind == "contract" || kind == "evidence"
                    || (IdOf(record).Some? && IdOf(record).value in refs)
                    || (kind == "result" && Verifying(record));
      if needed && !valid(kind, record) {
        return false;
      }
    }
    assert records[..|records|] == records;
    return true;
  }

  lemma {:induction false} AllSitesPrefix(contracts: seq<Value>, n: nat)
    requires n <= |contracts|
    ensures AllSites(contracts[..n]) <= AllSites(contracts)
    decreases |contracts| - n
  {
    if n == |contracts| {
      assert contracts[..n] == contracts;
    } else {
      assert contracts[..n + 1][..n] == contracts[..n];
      AllSitesPrefix(contracts, n + 1);
    }
  }

  lemma {:induction false} SitesHaveSources(contracts: seq<Value>, known: map<string, Value>)
    ensures forall site | site in AllSites(contracts) ::
              ClauseSource(site.contract, site.clause) in RecordSources(contracts, known, true)
  {
    if contracts != [] {
      var last := contracts[|contracts| - 1];
      SitesHaveSources(contracts[..|contracts| - 1], known);
      forall site | site in Sites(last, Clauses(last))
        ensures ClauseSource(site.contract, site.clause) in ClauseSources(last, Clauses(last))
      {
        var i :| 0 <= i < |Clauses(last)| && site == Sites(last, Clauses(last))[i];
        assert ClauseSources(last, Clauses(last))[i] == ClauseSource(site.contract, site.clause);
      }
    }
  }

  lemma SitesNamed(p: Project, known: map<string, Value>)
    requires ConsultedDigestible(p, Sources(p, known))
    ensures forall site | site in AllSites(p.contracts) :: Named(site)
  {
    hide Consulted;
    SitesHaveSources(p.contracts, known);
    forall site | site in AllSites(p.contracts) ensures Named(site) {
      assert ClauseSource(site.contract, site.clause) in Sources(p, known);
    }
  }

  /** One clause of the report. */
  method ReportClause(p: Project, known: map<string, Value>, site: Site, evidenceIndex: map<string, seq<Item>>,
                      index: map<string, seq<Verification>>, current: map<string, Value>)
    returns (h: ClauseHealth)
    requires Named(site) && Indexes(p, known, evidenceIndex, index, current)
    ensures HealthyAt(p, Sources(p, known), site, h)
  {
    hide Covers, Cites, Consulted, Summary, SamePairs, HasSuccess, HasFailure, HasHistory, StaleFor, SupportingRefs, CheckingResults, Met;
    var items := Entries(evidenceIndex, RefOf(site));
    ghost var t, pairs;
    h, t, pairs := ClauseHealthOf(site.contract, site.clause, IdOf(site.contract).value, IdOf(site.clause).value, items, index, current);
    ghost var sources := Sources(p, known);
    assert Prepared(p, sources, items, RefOf(site), index, current);
    IndexesGiveSamePairs(p, sources, site.contract, site.clause, items, index, current, pairs);
    SupportingRefsAgree(p, site.contract, site.clause, items, h.evidenceRefs);
    ResultIdsAgree(p, sources, site.contract, site.clause, pairs, current, t);
    StatusAgrees(p, sources, site.contract, site.clause, pairs, current, t);
    StaleRefsAgree(p, sources, site.contract, site.clause, pairs, current, t);
  }

  /** What both clause loops need of the indexes and the digest map. */
  ghost predicate Indexes(p: Project, known: map<string, Value>, evidenceIndex: map<string, seq<Item>>,
                          index: map<string, seq<Verification>>, current: map<string, Value>) {
    && (forall k, x :: x in Entries(evidenceIndex, k) <==> Covers(p.evidence, x, k))
    && (forall k, v :: v in Entries(index, k) <==> Cites(p.results, v, k))
    && (forall ref :: Consulted(p.results, ref) ==> Lookup(current, ref) == CurrentDigest(Sources(p, known), ref))
  }

  lemma RepeatedInPrefix(xs: seq<Site>, site: Site, all: seq<Site>)
    requires xs + [site] <= all && Named(site)
    requires exists i | 0 <= i < |xs| :: Named(xs[i]) && RefOf(xs[i]) == RefOf(site)
    ensures !DistinctRefs(all)
  {
    hide RefOf;
    var i :| 0 <= i < |xs| && Named(xs[i]) && RefOf(xs[i]) == RefOf(site);
    assert all[i] == xs[i] && all[|xs|] == site;
  }

  /** The clauses of one Contract, added to those of the Contracts before it. */
  method ReportContract(p: Project, known: map<string, Value>, sites: seq<Site>, evidenceIndex: map<string, seq<Item>>,
                        index: map<string, seq<Verification>>, current: map<string, Value>,
                        before: map<string, ClauseHealth>, ghost done: seq<Site>)
    returns (r: Option<map<string, ClauseHealth>>)
    requires forall site | site in sites :: Named(site)
    requires Indexes(p, known, evidenceIndex, index, current)
    requires DistinctRefs(done) && Complete(p, known, done, before)
    ensures r.Some? <==> DistinctRefs(done + sites)
    ensures r.Some? ==> Complete(p, known, done + sites, r.value)
  {
    hide Indexes, HealthyAt, RefOf, DistinctRefs, Complete, Named;
    var clauses := before;
    assert done + sites[..0] == done;
    for k := 0 to |sites|
      invariant DistinctRefs(done + sites[..k]) && Complete(p, known, done + sites[..k], clauses)
    {
      var site := sites[k];
      assert site in sites;
      ghost var sofar := done + sites[..k];
      assert done + sites[..k + 1] == sofar + [site];
      var ref := RefOf(site);
      if ref in clauses {
        RepeatedRef(p, known, sofar, clauses, site);
        assert sofar + [site] <= done + sites;
        RepeatedInPrefix(sofar, site, done + sites);
        return None;
      }
      var h := ReportClause(p, known, site, evidenceIndex, index, current);
      CompleteExtend(p, known, sofar, clauses, site, h);
      clauses := clauses[ref := h];
    }
    assert done + sites[..|sites|] == done + sites;
    return Some(clauses);
  }

  lemma PrefixRefs(xs: seq<Site>, all: seq<Site>)
    requires xs <= all && DistinctRefs(all)
    ensures DistinctRefs(xs)
  {
    hide RefOf;
    assert forall i | 0 <= i < |xs| :: xs[i] == all[i];
  }

  /** The clauses of all Contracts, refusing a repeated clause reference. */
  method ReportClauses(p: Project, known: map<string, Value>, evidenceIndex: map<string, seq<Item>>,
                       index: map<string, seq<Verification>>, current: map<string, Value>)
    returns (r: Option<map<string, ClauseHealth>>)
    requires forall site | site in AllSites(p.contracts) :: Named(site)
    requires Indexes(p, known, evidenceIndex, index, current)
    ensures r.Some? <==> DistinctRefs(AllSites(p.contracts))
    ensures r.Some? ==> Complete(p, known, AllSites(p.contracts), r.value)
  {
    var clauses: map<string, ClauseHealth> := map[];
    assert p.contracts[..0] == [];
    assert DistinctRefs([]) && Complete(p, known, [], clauses);
    hide Indexes, HealthyAt, RefOf, DistinctRefs, Complete, Named, AllSites, Sites, Clauses;
    for i := 0 to |p.contracts|
      invariant DistinctRefs(AllSites(p.contracts[..i])) && Complete(p, known, AllSites(p.contracts[..i]), clauses)
    {
      var contract := p.contracts[i];
      var sites := Sites(contract, Clauses(contract));
      SitesOfNext(p.contracts, i);
      var next := ReportContract(p, known, sites, evidenceIndex, index, current, clauses, AllSites(p.contracts[..i]));
      if next.None? {
        if DistinctRefs(AllSites(p.contracts)) {
          PrefixRefs(AllSites(p.contracts[..i + 1]), AllSites(p.contracts));
        }
        return None;
      }
      clauses := next.value;
    }
    assert p.contracts[..|p.contracts|] == p.contracts;
    return Some(clauses);
  }

  lemma SitesOfNext(contracts: seq<Value>, i: nat)
    requires i < |contracts|
    ensures var sites := Sites(contracts[i], Clauses(contracts[i]));
            && AllSites(contracts[..i + 1]) == AllSites(contracts[..i]) + sites
            && AllSites(contracts[..i + 1]) <= AllSites(contracts)
            && forall site | site in sites :: site in AllSites(contracts)
  {
    assert contracts[..i + 1][..i] == contracts[..i];
    AllSitesPrefix(contracts, i + 1);
  }

  ghost predicate Complete(p: Project, known: map<string, Value>, sites: seq<Site>, clauses: map<string, ClauseHealth>) {
    && (forall site | site in sites :: Named(site) && RefOf(site) in clauses
          && HealthyAt(p, Sources(p, known), site, clauses[RefOf(site)]))
    && (forall ref | ref in clauses :: exists site | site in sites :: Named(site) && RefOf(site) == ref)
  }

  lemma CompleteExtend(p: Project, known: map<string, Value>, done: seq<Site>, clauses: map<string, ClauseHealth>, site: Site, h: ClauseHealth)
    requires DistinctRefs(done) && Complete(p, known, done, clauses)
    requires Named(site) && RefOf(site) !in clauses && HealthyAt(p, Sources(p, known), site, h)
    ensures DistinctRefs(done + [site]) && Complete(p, known, done + [site], clauses[RefOf(site) := h])
  {
    hide HealthyAt, RefOf;
    var later := clauses[RefOf(site) := h];
    forall ref | ref in later ensures exists s | s in done + [site] :: Named(s) && RefOf(s) == ref {
      if ref == RefOf(site) {
        assert site in done + [site];
      } else {
        var s :| s in done && Named(s) && RefOf(s) == ref;
        assert s in done + [site];
      }
    }
  }

  lemma RepeatedRef(p: Project, known: map<string, Value>, done: seq<Site>, clauses: map<string, ClauseHealth>, site: Site)
    requires Complete(p, known, done, clauses) && Named(site) && RefOf(site) in clauses
    ensures exists i | 0 <= i < |done| :: Named(done[i]) && RefOf(done[i]) == RefOf(site)
  {
    hide HealthyAt, RefOf;
  }

  /** `build_contract_health_report_with_digests`: it succeeds exactly on reportable projects and
      then says of every clause what the brute-force definition says. */
  method BuildContractHealthReport(p: Project, valid: Registry, known: map<string, Value>)
    returns (r: Result<Report, HealthError>)
    ensures r.Ok? <==> Reportable(p, valid, known)
    ensures r.Ok? ==> Describes(p, known, r.value)
  {
    hide HealthyAt, Consulted, Covers, Cites, Digestible, UniqueIds, AllValid;
    var collections := [p.changes, p.contracts, p.decisions, p.results, p.evidence];
    var kinds := ["change", "contract", "decision", "result", "evidence"];
    for i := 0 to 5
      invariant forall k | 0 <= k < i :: UniqueIds(collections[k])
    {
      var unique := ValidateUniqueIds(collections[i]);
      if !unique {
        return Err(DuplicateId);
      }
    }
    var index := VerificationOutcomesByEvidence(p.results);
    var required := VerificationFreshnessRefs(p.results);
    for i := 0 to 5
      invariant forall k | 0 <= k < i :: AllValid(p, valid, kinds[k], collections[k])
    {
      var ok := ValidateRecords(p, valid, kinds[i], collections[i], required);
      if !ok {
        return Err(SchemaInvalid);
      }
    }
    assert collections == [p.changes, p.contracts, p.decisions, p.results, p.evidence];
    assert UniqueIds(collections[0]) && UniqueIds(collections[1]) && UniqueIds(collections[2]) && UniqueIds(collections[3]);
    assert AllValid(p, valid, kinds[0], collections[0]) && AllValid(p, valid, kinds[1], collections[1]);
    assert AllValid(p, valid, kinds[2], collections[2]) && AllValid(p, valid, kinds[3], collections[3]);
    assert AllValid(p, valid, kinds[4], collections[4]);
    var current := CurrentArtifactDigests(p, known, required);
    RequiredIsConsulted(p, known, required);
    if current.Err? {
      return Err(current.error);
    }
    var evidenceIndex := EvidenceByClause(p.evidence);
    SitesNamed(p, known);
    var clauses := ReportClauses(p, known, evidenceIndex, index, current.value);
    if clauses.None? {
      return Err(DuplicateClauseRef);
    }
    return Ok(Report(p.repository.At("revision").AsStr(), Summarize(clauses.value), clauses.value));
  }

  lemma RequiredIsConsulted(p: Project, known: map<string, Value>, required: set<string>)
    requires forall ref :: ref in required <==> Consulted(p.results, ref)
    ensures Resolve(map[], Sources(p, known), required).Ok? <==> ConsultedDigestible(p, Sources(p, known))
    ensures Resolve(map[], Sources(p, known), required).Ok? ==>
              forall ref :: Consulted(p.results, ref) ==>
                Lookup(Resolve(map[], Sources(p, known), required).value, ref) == CurrentDigest(Sources(p, known), ref)
  {
    hide Consulted;
    RestrictedMapAgrees(Sources(p, known), required);
  }
}
