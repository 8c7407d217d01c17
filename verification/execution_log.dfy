/** The execution log of src/execution_log.rs: attempts joined with their completions, beside the
    Results that measure themselves.  The starts and completions are gathered in maps by attempt, each
    started attempt becomes one entry, Results that no succeeded attempt names are added, the list is
    sorted by start and the totals are known only where every entry reports the value being summed up.
  */
module ExecutionLog {
  import opened Json
  import opened Sorting
  import opened ExecutionRecord
  import opened ExecutionRecordLaws

  const U64: nat := 0x1_0000_0000_0000_0000

  datatype Entry = Entry(
    executionId: Option<string>, resultId: Option<string>, actionId: string, role: string, resultSchema: string,
    contextBytes: nat, status: Option<string>, runner: Option<Runner>, measures: Measures, model: Option<string>,
    startedAt: Option<string>, completedAt: Option<string>, threadId: Option<string>, exitCode: Option<int>, errorCode: Option<string>)

  const UNMEASURED := Measures(None, None, None, None, None, None, None, None, None)

  // --------------------------------------------------------------------- attempt entries

  function StatusText(status: Status): string {
    match status
    case Succeeded => "succeeded"
    case Failed => "failed"
    case Interrupted => "interrupted"
    case Stale => "stale"
  }

  /** The entry of an attempt: its start, and what its completion reports if there is one. */
  function RunnerEntry(id: string, s: Started, c: Option<Completion>): Entry {
    Entry(Some(id), if c.Some? then c.value.resultId else None, s.actionId, s.role, s.resultSchema, s.contextBytes,
          if c.Some? then Some(StatusText(c.value.status)) else None, Some(s.runner),
          if c.Some? then c.value.measures else UNMEASURED,
          if c.Some? then c.value.model else None, s.startedAt, if c.Some? then c.value.completedAt else None,
          if c.Some? then c.value.threadId else None, if c.Some? then c.value.exitCode else None,
          if c.Some? then c.value.errorCode else None)
  }

  function LastStart(events: seq<Event>, id: string): Option<Started> {
    if events == [] then None
    else
      var e := events[|events| - 1];
      if e.Start? && e.started.executionId == id then Some(e.started) else LastStart(events[..|events| - 1], id)
  }

  function LastCompletion(events: seq<Event>, id: string): Option<Completion> {
    if events == [] then None
    else
      var e := events[|events| - 1];
      if e.Complete? && e.executionId == id then Some(e.completion) else LastCompletion(events[..|events| - 1], id)
  }

  /** One entry per started attempt, in the order of the IDs. */
  ghost predicate AttemptEntries(entries: seq<Entry>, events: seq<Event>) {
    && (forall i | 0 <= i < |entries| :: IsAttempt(entries[i], events))
    && (forall i, j | 0 <= i < j < |entries| ::
          entries[i].executionId != entries[j].executionId
          && StringLe(entries[i].executionId.value, entries[j].executionId.value))
    && (forall id | LastStart(events, id).Some? :: exists i :: 0 <= i < |entries| && entries[i].executionId == Some(id))
  }

  /** The entry of an attempt is made of its last start and its last completion. */
  predicate IsAttempt(e: Entry, events: seq<Event>) {
    && e.executionId.Some? && LastStart(events, e.executionId.value).Some?
    && e == RunnerEntry(e.executionId.value, LastStart(events, e.executionId.value).value, LastCompletion(events, e.executionId.value))
  }

  method JoinEvents(events: seq<Event>) returns (starts: map<string, Started>, completions: map<string, Completion>)
    ensures forall id :: Lookup(starts, id) == LastStart(events, id)
    ensures forall id :: Lookup(completions, id) == LastCompletion(events, id)
  {
    starts, completions := map[], map[];
    for i := 0 to |events|
      invariant forall id :: Lookup(starts, id) == LastStart(events[..i], id)
      invariant forall id :: Lookup(completions, id) == LastCompletion(events[..i], id)
    {
      assert events[..i + 1][..i] == events[..i];
      match events[i]
      case Start(started) => starts := starts[started.executionId := started];
      case Complete(id, completion) => completions := completions[id := completion];
    }
    assert events[..|events|] == events;
  }

  /** `runner_entries` */
  method RunnerEntries(events: seq<Event>) returns (entries: seq<Entry>)
    ensures AttemptEntries(entries, events)
  {
    hide StringLe, LastStart, LastCompletion;
    var starts, completions := JoinEvents(events);
    StringOrder();
    var order := SortedElements(starts.Keys, StringLe);
    SetElements(order, starts.Keys);
    entries := [];
    for i := 0 to |order|
      invariant |entries| == i
      invariant forall k | 0 <= k < i :: entries[k].executionId == Some(order[k]) && IsAttempt(entries[k], events)
    {
      hide TotalOrder, TotalPreorder, Sorted;
      assert order[i] in order;
      assert Lookup(starts, order[i]) == LastStart(events, order[i]);
      entries := entries + [RunnerEntry(order[i], starts[order[i]], Lookup(completions, order[i]))];
    }
    forall id: string | LastStart(events, id).Some? ensures exists i :: 0 <= i < |entries| && entries[i].executionId == Some(id) {
      assert Lookup(starts, id) == LastStart(events, id);
      assert id in order;
      var i :| 0 <= i < |order| && order[i] == id;
      assert entries[i].executionId == Some(id);
    }
  }

  // ---------------------------------------------------------------------- Result entries

  /** `as_u64` */
  function Number(v: Value): Option<nat> {
    if v.Int? && 0 <= v.n < U64 then Some(v.n) else None
  }

  /** `result_entry`: a Result with an execution block that says what it ran. */
  function ResultEntry(result: Value): Option<Entry> {
    var execution := result.At("execution");
    if !execution.Obj? || !result.At("action_id").Str? || !result.At("role").Str? || !result.At("result_schema").Str?
       || Number(execution.At("context_bytes")).None? then None
    else Some(Entry(None, result.At("id").AsStr(), result.At("action_id").s, result.At("role").s, result.At("result_schema").s,
                    Number(execution.At("context_bytes")).value, Some("result-recorded"), None,
                    Measures(Number(execution.At("duration_ms")), Number(execution.At("input_tokens")), None, None,
                             Number(execution.At("output_tokens")), None, None,
                             Number(execution.At("tool_calls")), Number(execution.At("retries"))),
                    execution.At("model").AsStr(), execution.At("started_at").AsStr(), execution.At("completed_at").AsStr(),
                    None, None, None))
  }

  /** A Result that a succeeded attempt names is measured by that attempt. */
  predicate Kept(result: Value, named: set<string>) {
    !result.At("id").Str? || result.At("id").s !in named
  }

  function ResultEntries(results: seq<Value>, named: set<string>): seq<Entry> {
    if results == [] then []
    else
      var last := results[|results| - 1];
      ResultEntries(results[..|results| - 1], named)
      + if Kept(last, named) && ResultEntry(last).Some? then [ResultEntry(last).value] else []
  }

  /** The Results that succeeded attempts name. */
  predicate Names(entries: seq<Entry>, id: string) {
    exists e | e in entries :: e.status == Some("succeeded") && e.resultId == Some(id)
  }

  method MeasuredElsewhere(entries: seq<Entry>) returns (named: set<string>)
    ensures forall id :: id in named <==> Names(entries, id)
  {
    named := {};
    for i := 0 to |entries|
      invariant forall id :: id in named <==> Names(entries[..i], id)
    {
      assert entries[..i + 1] == entries[..i] + [entries[i]];
      assert forall e :: e in entries[..i + 1] <==> e in entries[..i] || e == entries[i];
      if entries[i].status == Some("succeeded") && entries[i].resultId.Some? {
        named := named + {entries[i].resultId.value};
      }
    }
    assert entries[..|entries|] == entries;
  }

  // ----------------------------------------------------------------------------- totals

  function Total(values: seq<Option<nat>>): nat
    requires forall v | v in values :: v.Some?
  {
    if values == [] then 0
    else
      assert forall v | v in values[..|values| - 1] :: v in values;
      assert values[|values| - 1] in values;
      Total(values[..|values| - 1]) + values[|values| - 1].value
  }

  /** `sum_known`: a total is known exactly when every entry reports the value; the 64-bit sum wraps. */
  method SumKnown(values: seq<Option<nat>>) returns (sum: Option<nat>)
    ensures sum.Some? <==> forall v | v in values :: v.Some?
    ensures sum.Some? ==> sum.value == Total(values) % U64
  {
    var known := 0;
    for i := 0 to |values|
      invariant forall v | v in values[..i] :: v.Some?
      invariant known == Total(values[..i]) % U64
    {
      assert values[..i + 1] == values[..i] + [values[i]] && values[..i + 1][..i] == values[..i];
      if values[i].None? {
        assert values[i] in values;
        return None;
      }
      WrapLate(Total(values[..i]), values[i].value);
      known := (known + values[i].value) % U64;
    }
    assert values[..|values|] == values;
    return Some(known);
  }

  /** The whole-number measurements that are totalled. */
  datatype Field = Duration | InputTokens | CacheCreation | CachedInput | OutputTokens | Reasoning | ToolCalls | Retries

  const FIELDS := {Duration, InputTokens, CacheCreation, CachedInput, OutputTokens, Reasoning, ToolCalls, Retries}

  function Reported(m: Measures, field: Field): Option<nat> {
    match field
    case Duration => m.duration
    case InputTokens => m.inputTokens
    case CacheCreation => m.cacheCreation
    case CachedInput => m.cachedInput
    case OutputTokens => m.outputTokens
    case Reasoning => m.reasoning
    case ToolCalls => m.toolCalls
    case Retries => m.retries
  }

  datatype Log = Log(
    entries: seq<Entry>, contextBytes: nat, totals: map<Field, Option<nat>>, cost: Option<real>, withoutTokens: nat, incomplete: nat)

  function Column(entries: seq<Entry>, field: Field): seq<Option<nat>> {
    seq(|entries|, i requires 0 <= i < |entries| => Reported(entries[i].measures, field))
  }

  function CountIncomplete(entries: seq<Entry>): nat {
    if entries == [] then 0
    else
      var e := entries[|entries| - 1];
      CountIncomplete(entries[..|entries| - 1]) + if e.executionId.Some? && e.status.None? then 1 else 0
  }

  ghost predicate Known(total: Option<nat>, entries: seq<Entry>, field: Field) {
    && (total.Some? <==> forall e | e in entries :: Reported(e.measures, field).Some?)
    && (total.Some? ==> (forall v | v in Column(entries, field) :: v.Some?) && total.value == Total(Column(entries, field)) % U64)
  }

  /** One known or unknown total. */
  method TotalOf(entries: seq<Entry>, field: Field) returns (total: Option<nat>)
    ensures Known(total, entries, field)
  {
    hide Reported;
    var column := Column(entries, field);
    total := SumKnown(column);
    assert forall i | 0 <= i < |entries| :: column[i] == Reported(entries[i].measures, field) && column[i] in column;
    assert (forall v | v in column :: v.Some?) <==> forall e | e in entries :: Reported(e.measures, field).Some?;
  }

  method Totals(entries: seq<Entry>) returns (totals: map<Field, Option<nat>>)
    ensures totals.Keys == FIELDS && forall field | field in totals :: Known(totals[field], entries, field)
  {
    hide Known;
    totals := map[];
    var rest := FIELDS;
    while rest != {}
      invariant rest <= FIELDS && totals.Keys == FIELDS - rest
      invariant forall field | field in totals :: Known(totals[field], entries, field)
      decreases rest
    {
      var field :| field in rest;
      var total := TotalOf(entries, field);
      totals := totals[field := total];
      rest := rest - {field};
    }
  }

  predicate AllReportCost(entries: seq<Entry>) {
    forall e | e in entries :: e.measures.cost.Some?
  }

  function CostSum(entries: seq<Entry>): real
    requires AllReportCost(entries)
  {
    if entries == [] then 0.0
    else
      assert entries == entries[..|entries| - 1] + [entries[|entries| - 1]];
      CostSum(entries[..|entries| - 1]) + entries[|entries| - 1].measures.cost.value
  }

  /** `sum_known_f64` on exact numbers. */
  method TotalCost(entries: seq<Entry>) returns (total: Option<real>)
    ensures total.Some? <==> AllReportCost(entries)
    ensures total.Some? ==> total.value == CostSum(entries)
  {
    var sum := 0.0;
    for i := 0 to |entries|
      invariant AllReportCost(entries[..i]) && sum == CostSum(entries[..i])
    {
      assert entries[..i + 1] == entries[..i] + [entries[i]] && entries[..i + 1][..i] == entries[..i];
      if entries[i].measures.cost.None? {
        assert entries[i] in entries;
        return None;
      }
      sum := sum + entries[i].measures.cost.value;
    }
    assert entries[..|entries|] == entries;
    return Some(sum);
  }

  function ContextBytes(entries: seq<Entry>): nat {
    if entries == [] then 0 else ContextBytes(entries[..|entries| - 1]) + entries[|entries| - 1].contextBytes
  }

  function CountWithoutTokens(entries: seq<Entry>): nat {
    if entries == [] then 0
    else
      var m := entries[|entries| - 1].measures;
      CountWithoutTokens(entries[..|entries| - 1]) + if m.inputTokens.None? || m.outputTokens.None? then 1 else 0
  }

  /** Wrapping at each step is wrapping at the end. */
  lemma WrapLate(sum: nat, n: nat)
    ensures (sum % U64 + n) % U64 == (sum + n) % U64
  {
    var q := sum / U64;
    assert sum + n == (sum % U64 + n) + q * U64;
  }

  method Count(entries: seq<Entry>) returns (contextBytes: nat, withoutTokens: nat, incomplete: nat)
    ensures contextBytes == ContextBytes(entries) % U64
    ensures withoutTokens == CountWithoutTokens(entries) && incomplete == CountIncomplete(entries)
  {
    contextBytes, withoutTokens, incomplete := 0, 0, 0;
    for i := 0 to |entries|
      invariant contextBytes == ContextBytes(entries[..i]) % U64
      invariant withoutTokens == CountWithoutTokens(entries[..i]) && incomplete == CountIncomplete(entries[..i])
    {
      assert entries[..i + 1][..i] == entries[..i];
      var e := entries[i];
      WrapLate(ContextBytes(entries[..i]), e.contextBytes);
      contextBytes := (contextBytes + e.contextBytes) % U64;
      if e.measures.inputTokens.None? || e.measures.outputTokens.None? {
        withoutTokens := withoutTokens + 1;
      }
      if e.executionId.Some? && e.status.None? {
        incomplete := incomplete + 1;
      }
    }
    assert entries[..|entries|] == entries;
  }

  // ------------------------------------------------------------------------------- order

  /** Entries are ordered by start time, then by Action, then by attempt. */
  predicate EntryLe(a: Entry, b: Entry) {
    if a.startedAt != b.startedAt then OptionLe(a.startedAt, b.startedAt)
    else if a.actionId != b.actionId then StringLe(a.actionId, b.actionId)
    else OptionLe(a.executionId, b.executionId)
  }

  lemma EntryOrder()
    ensures TotalPreorder(EntryLe)
  {
    StringOrder();
    hide StringLe;
    OptionOrder();
    hide OptionLe;
  }

  // --------------------------------------------------------------------------- the report

  /** The entries of a log before they are sorted: those of the Results that no succeeded attempt
      names, then those of the attempts. */
  ghost predicate Joined(all: seq<Entry>, results: seq<Value>, events: seq<Event>) {
    exists attempts, named ::
      && AttemptEntries(attempts, events)
      && (forall id :: id in named <==> Names(attempts, id))
      && all == ResultEntries(results, named) + attempts
  }

  method CollectEntries(results: seq<Value>, events: seq<Event>) returns (all: seq<Entry>)
    ensures Joined(all, results, events)
  {
    hide ResultEntry, Names, AttemptEntries;
    var attempts := RunnerEntries(events);
    var named := MeasuredElsewhere(attempts);
    var entries: seq<Entry> := [];
    for i := 0 to |results|
      invariant entries == ResultEntries(results[..i], named)
    {
      assert results[..i + 1][..i] == results[..i];
      if Kept(results[i], named) {
        var entry := ResultEntry(results[i]);
        if entry.Some? {
          entries := entries + [entry.value];
        }
      }
    }
    assert results[..|results|] == results;
    all := entries + attempts;
  }

  /** `build_with_events`: the joined entries, sorted, and their totals. */
  method BuildWithEvents(results: seq<Value>, events: seq<Event>) returns (log: Log)
    ensures Sorted(log.entries, EntryLe)
    ensures exists all :: Joined(all, results, events) && multiset(log.entries) == multiset(all)
    ensures log.totals.Keys == FIELDS && forall field | field in log.totals :: Known(log.totals[field], log.entries, field)
    ensures log.cost.Some? <==> AllReportCost(log.entries)
    ensures log.cost.Some? ==> log.cost.value == CostSum(log.entries)
    ensures log.contextBytes == ContextBytes(log.entries) % U64
    ensures log.withoutTokens == CountWithoutTokens(log.entries) && log.incomplete == CountIncomplete(log.entries)
  {
    var all := CollectEntries(results, events);
    EntryOrder();
    SortIsSorted(all, EntryLe);
    hide Joined, EntryLe, Sort, Sorted, Known, AllReportCost, ContextBytes, CountWithoutTokens, CountIncomplete, CostSum;
    var entries := Sort(all, EntryLe);
    var totals := Totals(entries);
    var cost := TotalCost(entries);
    var bytes, withoutTokens, incomplete := Count(entries);
    return Log(entries, bytes, totals, cost, withoutTokens, incomplete);
  }
}
