/** The fail-closed binder of src/git_repository.rs: it turns physical observations into facts
    through reviewed bindings, or into coverage gaps.
  */
module Binder {
  import opened Json

  datatype ObservationKind = DbWrite | MessagePublish | OtherMethodCall

  datatype Observation = Observation(kind: ObservationKind, symbol: string, resource: string, method_: string, line: nat)

  datatype BindingRecord = BindingRecord(logicalRef: string, owner: string, authority: string)

  datatype ResourceRecord = ResourceRecord(logicalRefs: map<string, string>, owner: string, authority: string)

  datatype MethodRecord = MethodRecord(factKinds: seq<string>, owner: string, authority: string)

  datatype Bindings = Bindings(
    symbols: map<string, BindingRecord>,
    resources: map<string, ResourceRecord>,
    methods: map<string, MethodRecord>)

  datatype FactBinding = FactBinding(binding: string, factField: string)

  /** The Signal Catalog's repository fact kinds, by ID. */
  type Catalog = map<string, seq<FactBinding>>

  datatype Gap = Gap(kind: string, ref: Option<string>, reason: string)

  /** A fact with the two fields its kind declares; the reference lists are sorted sets. */
  datatype Fact = Fact(kind: string, fields: map<string, string>, evidence: set<string>, authorities: set<string>, owners: set<string>)

  // ------------------------------------------------------------------ symbol names

  function LastPair(s: string): Option<nat>
    ensures LastPair(s).Some? ==> LastPair(s).value + 2 <= |s|
  {
    if |s| < 2 then None
    else if s[|s| - 2..] == "::" then Some(|s| - 2)
    else LastPair(s[..|s| - 1])
  }

  function LastMark(s: string): Option<nat>
    ensures LastMark(s).Some? ==> LastMark(s).value < |s|
  {
    if s == "" then None
    else if s[|s| - 1] in {'.', '#'} then Some(|s| - 1)
    else LastMark(s[..|s| - 1])
  }

  /** `unqualified_symbol` */
  function Unqualified(symbol: string): string {
    if LastPair(symbol).Some? then symbol[LastPair(symbol).value + 2..]
    else if LastMark(symbol).Some? then symbol[LastMark(symbol).value + 1..]
    else symbol
  }

  /** The qualified symbols observed under a short name. */
  function Qualified(observations: seq<Observation>, short: string): set<string> {
    set o | o in observations && Unqualified(o.symbol) == short :: o.symbol
  }

  lemma QualifiedPush(os: seq<Observation>, o: Observation)
    ensures forall short :: Qualified(os + [o], short) == if short == Unqualified(o.symbol) then Qualified(os, short) + {o.symbol} else Qualified(os, short)
  {
    hide Unqualified;
  }

  /** `symbol_aliases` */
  method SymbolAliases(observations: seq<Observation>) returns (aliases: map<string, set<string>>)
    ensures forall short :: short in aliases <==> Qualified(observations, short) != {}
    ensures forall short | short in aliases :: aliases[short] == Qualified(observations, short)
  {
    hide Unqualified;
    aliases := map[];
    for i := 0 to |observations|
      invariant forall short :: (if short in aliases then aliases[short] else {}) == Qualified(observations[..i], short)
      invariant forall short | short in aliases :: aliases[short] != {}
    {
      var o := observations[i];
      var short := Unqualified(o.symbol);
      assert observations[..i + 1] == observations[..i] + [o];
      QualifiedPush(observations[..i], o);
      hide Qualified;
      aliases := aliases[short := (if short in aliases then aliases[short] else {}) + {o.symbol}];
    }
    assert observations[..|observations|] == observations;
  }

  // ----------------------------------------------------------------- fact definitions

  function ResourceBindings(bindings: seq<FactBinding>): seq<FactBinding> {
    if bindings == [] then []
    else if bindings[0].binding != "operation" then [bindings[0]] + ResourceBindings(bindings[1..])
    else ResourceBindings(bindings[1..])
  }

  function OperationBinding(bindings: seq<FactBinding>): Option<FactBinding> {
    if bindings == [] then None
    else if bindings[0].binding == "operation" then Some(bindings[0])
    else OperationBinding(bindings[1..])
  }

  /** `source_fact_bindings`: the operation binding and the one other binding. */
  function SourceFactBindings(bindings: seq<FactBinding>): Option<(FactBinding, FactBinding)> {
    if OperationBinding(bindings).Some? && |ResourceBindings(bindings)| == 1
    then Some((OperationBinding(bindings).value, ResourceBindings(bindings)[0])) else None
  }

  // ------------------------------------------------------------------------ binding

  function MethodKey(resource: string, method_: string): string {
    resource + "." + method_
  }

  /** The symbol record an observation resolves to: its own, or that of its short name when the
      short name is not ambiguous in the artifact. */
  function ResolveSymbol(o: Observation, b: Bindings, observations: seq<Observation>): Option<BindingRecord> {
    if o.symbol in b.symbols then Some(b.symbols[o.symbol])
    else if |Qualified(observations, Unqualified(o.symbol))| == 1 then Lookup(b.symbols, Unqualified(o.symbol))
    else None
  }

  /** The fact kinds of a call; None for another call without a method binding. */
  function FactKinds(o: Observation, b: Bindings): Option<seq<string>> {
    match o.kind
    case DbWrite => Some(["db_write"])
    case MessagePublish => Some(["message_publish"])
    case OtherMethodCall =>
      match Lookup(b.methods, MethodKey(o.resource, o.method_))
      case None => None
      case Some(m) => Some(m.factKinds)
  }

  /** A fact kind can be produced on a resource: the catalog gives it an operation and one
      other binding, and the resource has a logical reference for that binding. */
  predicate Producible(catalog: Catalog, kind: string, refs: map<string, string>) {
    && kind in catalog
    && SourceFactBindings(catalog[kind]).Some?
    && SourceFactBindings(catalog[kind]).value.1.binding in refs
  }

  predicate IsOperation(logicalRef: string) {
    "operation." <= logicalRef
  }

  /** When an observation is bound, by meaning: everything it needs is declared. */
  ghost predicate Bindable(o: Observation, b: Bindings, observations: seq<Observation>, catalog: Catalog) {
    && ResolveSymbol(o, b, observations).Some?
    && IsOperation(ResolveSymbol(o, b, observations).value.logicalRef)
    && o.resource in b.resources
    && FactKinds(o, b).Some?
    && forall kind | kind in FactKinds(o, b).value :: Producible(catalog, kind, b.resources[o.resource].logicalRefs)
  }

  /** The fact for one kind of a bindable observation. */
  function FactOf(kind: string, o: Observation, ref: string, symbol: BindingRecord, b: Bindings, catalog: Catalog): Fact
    requires o.resource in b.resources && Producible(catalog, kind, b.resources[o.resource].logicalRefs)
  {
    var resource := b.resources[o.resource];
    var (operation, target) := SourceFactBindings(catalog[kind]).value;
    var m := Lookup(b.methods, MethodKey(o.resource, o.method_));
    var extra := if m.Some? then {m.value.authority} else {};
    Fact(kind, map[operation.factField := symbol.logicalRef][target.factField := resource.logicalRefs[target.binding]],
         {ref, symbol.authority, resource.authority} + extra,
         {symbol.authority, resource.authority} + extra,
         {symbol.owner, resource.owner} + if m.Some? then {m.value.owner} else {})
  }

  ghost predicate FactsFor(facts: seq<Fact>, kinds: seq<string>, o: Observation, ref: string, symbol: BindingRecord, b: Bindings, catalog: Catalog) {
    && |facts| == |kinds|
    && o.resource in b.resources
    && forall i | 0 <= i < |kinds| :: Producible(catalog, kinds[i], b.resources[o.resource].logicalRefs)
                                     && facts[i] == FactOf(kinds[i], o, ref, symbol, b, catalog)
  }

  function Text(n: nat): string {
    if n < 10 then [['0', '1', '2', '3', '4', '5', '6', '7', '8', '9'][n]] else Text(n / 10) + Text(n % 10)
  }

  /** The loop over fact kinds: it stops at the first kind that cannot be produced. */
  method ResolveKinds(kinds: seq<string>, o: Observation, ref: string, symbol: BindingRecord, b: Bindings, catalog: Catalog)
    returns (r: Result<seq<Fact>, Gap>)
    requires o.resource in b.resources
    ensures r.Ok? <==> forall kind | kind in kinds :: Producible(catalog, kind, b.resources[o.resource].logicalRefs)
    ensures r.Ok? ==> FactsFor(r.value, kinds, o, ref, symbol, b, catalog)
    ensures r.Err? ==> r.error.kind in {"unsupported-observation", "invalid-binding"} && r.error.ref == Some(ref) && r.error.reason != ""
  {
    hide SourceFactBindings, FactOf;
    var refs := b.resources[o.resource].logicalRefs;
    var facts: seq<Fact> := [];
    for i := 0 to |kinds|
      invariant forall kind | kind in kinds[..i] :: Producible(catalog, kind, refs)
      invariant FactsFor(facts, kinds[..i], o, ref, symbol, b, catalog)
    {
      var kind := kinds[i];
      assert kinds[..i + 1] == kinds[..i] + [kind];
      assert kind in kinds;
      if kind !in catalog {
        assert !Producible(catalog, kind, refs);
        return Err(Gap("unsupported-observation", Some(ref),
                       "repository fact kind " + kind + " is not defined by the Signal Catalog"));
      }
      var pair := SourceFactBindings(catalog[kind]);
      if pair.None? {
        return Err(Gap("unsupported-observation", Some(ref),
                       "repository fact kind " + kind + " cannot be generated from a source method call"));
      }
      if pair.value.1.binding !in refs {
        return Err(Gap("invalid-binding", Some(ref),
                       "resource " + o.resource + " has no " + pair.value.1.binding + " logical ref required by " + kind));
      }
      facts := facts + [FactOf(kind, o, ref, symbol, b, catalog)];
    }
    assert kinds[..|kinds|] == kinds;
    return Ok(facts);
  }

  /** Why an observation is not bound, by the first requirement it misses. */
  ghost predicate GapFor(gap: Gap, o: Observation, ref: string, b: Bindings, observations: seq<Observation>, catalog: Catalog) {
    && gap.ref == Some(ref) && gap.reason != ""
    && (ResolveSymbol(o, b, observations).None? ==>
          gap.kind == if |Qualified(observations, Unqualified(o.symbol))| > 1 && Unqualified(o.symbol) in b.symbols
                      then "ambiguous-symbol-binding" else "unmapped-observation")
    && (ResolveSymbol(o, b, observations).Some? && o.resource !in b.resources ==> gap.kind == "unmapped-observation")
    && (ResolveSymbol(o, b, observations).Some? && o.resource in b.resources ==>
          && (FactKinds(o, b).None? ==> gap.kind == "unsupported-observation")
          && (FactKinds(o, b).Some? && !IsOperation(ResolveSymbol(o, b, observations).value.logicalRef) ==> gap.kind == "invalid-binding")
          && gap.kind in {"unsupported-observation", "invalid-binding"})
  }

  /** `bind_observation`: the facts and gaps pushed for one observation. */
  method BindObservation(o: Observation, ref: string, b: Bindings, aliases: map<string, set<string>>,
                         ghost observations: seq<Observation>, catalog: Catalog, facts: seq<Fact>, gaps: seq<Gap>)
    returns (facts': seq<Fact>, gaps': seq<Gap>)
    requires o in observations
    requires forall short :: short in aliases <==> Qualified(observations, short) != {}
    requires forall short | short in aliases :: aliases[short] == Qualified(observations, short)
    ensures Bindable(o, b, observations, catalog) ==>
              && gaps' == gaps && |facts'| == |facts| + |FactKinds(o, b).value| && facts'[..|facts|] == facts
              && FactsFor(facts'[|facts|..], FactKinds(o, b).value, o, ref, ResolveSymbol(o, b, observations).value, b, catalog)
    ensures !Bindable(o, b, observations, catalog) ==>
              && facts' == facts && |gaps'| == |gaps| + 1 && gaps'[..|gaps|] == gaps
              && GapFor(gaps'[|gaps|], o, ref, b, observations, catalog)
  {
    hide Unqualified, FactOf, Producible, Text;
    facts', gaps' := facts, gaps;
    var short := Unqualified(o.symbol);
    assert o.symbol in Qualified(observations, short);
    assert short in aliases;
    var symbol: Option<BindingRecord> :=
      if o.symbol in b.symbols then Some(b.symbols[o.symbol])
      else if |aliases[short]| == 1 then Lookup(b.symbols, short) else None;
    if symbol.None? {
      if |aliases[short]| > 1 && short in b.symbols {
        gaps' := gaps + [Gap("ambiguous-symbol-binding", Some(ref), "symbol binding " + short + " matches multiple physical symbols")];
        return;
      }
      gaps' := gaps + [Gap("unmapped-observation", Some(ref),
                           "function " + o.symbol + " at line " + Text(o.line) + " has no symbol binding")];
      return;
    }
    if o.resource !in b.resources {
      gaps' := gaps + [Gap("unmapped-observation", Some(ref),
                           "resource " + o.resource + " at line " + Text(o.line) + " has no resource binding")];
      return;
    }
    var kinds := FactKinds(o, b);
    if kinds.None? {
      gaps' := gaps + [Gap("unsupported-observation", Some(ref),
                           "bound resource " + o.resource + " uses unsupported method " + o.method_ + " at line " + Text(o.line))];
      return;
    }
    if !IsOperation(symbol.value.logicalRef) {
      gaps' := gaps + [Gap("invalid-binding", Some(ref), "symbol " + o.symbol + " must map to an operation.* logical ref")];
      return;
    }
    var resolved := ResolveKinds(kinds.value, o, ref, symbol.value, b, catalog);
    if resolved.Err? {
      gaps' := gaps + [resolved.error];
      return;
    }
    facts' := facts + resolved.value;
    assert facts'[|facts|..] == resolved.value;
  }
}
