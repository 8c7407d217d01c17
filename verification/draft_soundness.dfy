/** The draft validator is sound for the binder: bindings it accepts are readable and cover the
    observed calls, except for other calls whose own symbol is not bound.
  */
module DraftSoundness {
  import opened Json
  import opened Binder
  import opened BindingRecords
  import opened DraftValidation
  import opened DraftReport
  import opened Observer

  function KindText(kind: ObservationKind): string {
    match kind
    case DbWrite => "db_write"
    case MessagePublish => "message_publish"
    case OtherMethodCall => "other_method_call"
  }

  predicate Records(item: Value, o: Observation) {
    && item.At("kind") == Str(KindText(o.kind))
    && item.At("symbol") == Str(o.symbol) && item.At("resource") == Str(o.resource) && item.At("method") == Str(o.method_)
  }

  /** The inventory lists exactly these observations, in order. */
  ghost predicate Lists(inventory: Value, os: seq<Observation>) {
    var items := inventory.At("observations").Elements();
    |items| == |os| && forall i | 0 <= i < |os| :: Records(items[i], os[i])
  }

  /** What detection guarantees about its output: method names hold no dot, and a framework
      candidate's key is made of its own resource and such a method. */
  ghost predicate DetectedNames(inventory: Value, os: seq<Observation>) {
    && (forall o | o in os :: '.' !in o.method_)
    && (forall c | c in inventory.At("framework_candidates").Elements() && c.At("binding_key").Str? ::
          exists r, m :: c.At("resource") == Str(r) && '.' !in m && c.At("binding_key").s == MethodKey(r, m))
  }

  /** The catalog defines source fact kinds only, writes on data and publishes on integrations. */
  ghost predicate SourceCatalog(catalog: Catalog) {
    && "" !in catalog
    && (forall kind | kind in catalog :: SourceFactBindings(catalog[kind]).Some?)
    && "db_write" in catalog && SourceFactBindings(catalog["db_write"]).value.1.binding == "data"
    && "message_publish" in catalog && SourceFactBindings(catalog["message_publish"]).value.1.binding == "integration"
  }

  /** Observed names and accepted Decision IDs are not empty. */
  predicate NamesGiven(inventory: Value, accepted: set<string>) {
    "" !in StringSet(inventory.At("symbols")) && "" !in StringSet(inventory.At("resources")) && "" !in accepted
  }

  // --------------------------------------------------------------------- dotted keys

  lemma NoDotAfter(r: string, m: string)
    requires '.' !in m
    ensures forall i | |r| < i < |MethodKey(r, m)| :: MethodKey(r, m)[i] != '.'
  {
    forall i | |r| < i < |MethodKey(r, m)| ensures MethodKey(r, m)[i] != '.' {
      assert MethodKey(r, m)[i] == m[i - |r| - 1];
    }
  }

  /** With dot-free method names a `resource.method` key determines both parts. */
  lemma KeyDeterminesParts(r1: string, m1: string, r2: string, m2: string)
    requires '.' !in m1 && '.' !in m2
    requires MethodKey(r1, m1) == MethodKey(r2, m2)
    ensures r1 == r2 && m1 == m2
  {
    var key := MethodKey(r1, m1);
    NoDotAfter(r1, m1);
    NoDotAfter(r2, m2);
    assert key[|r1|] == '.' && key[|r2|] == '.';
    assert |r1| == |r2|;
    assert key[..|r1|] == r1 && key[..|r2|] == r2;
    assert key[|r1| + 1..] == m1 && key[|r2| + 1..] == m2;
  }

  // ------------------------------------------------------------------------ parsing

  lemma GoodSymbolParses(physical: string, record: Value, observed: set<string>, accepted: set<string>)
    requires GoodSymbol(physical, record, observed, accepted) && "" !in observed && "" !in accepted
    ensures physical != "" && ParseSymbol(record).Some? && IsOperation(ParseSymbol(record).value.logicalRef)
  {}

  lemma GoodResourceParses(physical: string, record: Value, observed: set<string>, accepted: set<string>)
    requires GoodResource(physical, record, observed, accepted) && "" !in observed && "" !in accepted
    ensures physical != "" && ParseResource(record).Some?
    ensures ParseResource(record).value.logicalRefs.Keys == GoodBindings(record) != {}
  {
    var refs := record.At("logical_refs").fields;
    assert refs.Keys != {};
    var some :| some in refs;
    assert GoodLogicalRef(some, refs[some]);
    assert FieldsOf(record.At("logical_refs")) == refs;
    assert some in GoodBindings(record);
  }

  lemma GoodMethodParses(physical: string, record: Value, candidates: map<string, Value>, bound: set<string>,
                         refs: map<string, set<string>>, accepted: set<string>, catalog: Catalog)
    requires GoodMethod(physical, record, candidates, bound, refs, accepted, catalog)
    requires "" !in accepted && SourceCatalog(catalog) && '.' in physical
    ensures ParseMethod(physical, record, catalog).Some?
    ensures forall kind | kind in ParseMethod(physical, record, catalog).value.factKinds :: Str(kind) in record.At("fact_kinds").items
  {
    hide SourceFactBindings;
    var kinds := record.At("fact_kinds").items;
    forall i | 0 <= i < |kinds| ensures NonEmpty(kinds[i]) && kinds[i].s in catalog {
      assert GoodKind(kinds[i], candidates[physical].At("resource").AsStr(), refs, catalog);
    }
    assert UniqueStrings(kinds);
    var parsed := ParseKinds(record).value;
    forall kind | kind in parsed ensures kind in catalog && SourceFactBindings(catalog[kind]).Some? && Str(kind) in kinds {
      var i :| 0 <= i < |parsed| && parsed[i] == kind;
      assert kinds[i] == Str(kind);
    }
  }

  /** The candidates the draft offers for a key carry that key's resource. */
  lemma CandidateKeepsResource(inventory: Value, os: seq<Observation>, key: string)
    requires Lists(inventory, os) && DetectedNames(inventory, os)
    requires CandidateFor(inventory.At("framework_candidates").Elements(), inventory.At("observations").Elements(), key).Some?
    ensures var c := CandidateFor(inventory.At("framework_candidates").Elements(), inventory.At("observations").Elements(), key).value;
            exists r, m :: c.At("resource") == Str(r) && '.' !in m && key == MethodKey(r, m)
  {
    var framework, items := inventory.At("framework_candidates").Elements(), inventory.At("observations").Elements();
    if LastCandidate(framework, key).Some? {
      LastIsMember(framework, key);
    } else {
      var i := OfferIsMember(items, key);
      assert Records(items[i], os[i]) && os[i] in os;
      assert key == MethodKey(os[i].resource, os[i].method_);
      assert OfferedBy(items[i]).At("resource") == Str(os[i].resource);
    }
  }

  lemma {:induction false} LastIsMember(framework: seq<Value>, key: string)
    requires LastCandidate(framework, key).Some?
    ensures LastCandidate(framework, key).value in framework
    ensures LastCandidate(framework, key).value.At("binding_key") == Str(key)
  {
    if framework[|framework| - 1].At("binding_key") != Str(key) {
      LastIsMember(framework[..|framework| - 1], key);
    }
  }

  lemma {:induction false} OfferIsMember(items: seq<Value>, key: string) returns (i: nat)
    requires FirstOffer(items, key).Some?
    ensures i < |items| && Offers(items[i], key) && FirstOffer(items, key).value == OfferedBy(items[i])
  {
    var before := items[..|items| - 1];
    if FirstOffer(before, key).Some? {
      i := OfferIsMember(before, key);
    } else {
      i := |items| - 1;
    }
  }

  lemma CandidateKeyHasDot(inventory: Value, os: seq<Observation>, candidates: map<string, Value>, key: string)
    requires Lists(inventory, os) && DetectedNames(inventory, os)
    requires CandidatesOf(candidates, inventory) && key in candidates
    ensures '.' in key
    ensures exists r, m :: candidates[key].At("resource") == Str(r) && '.' !in m && key == MethodKey(r, m)
  {
    hide CandidateFor, Lists, DetectedNames;
    assert Lookup(candidates, key) == CandidateFor(inventory.At("framework_candidates").Elements(), inventory.At("observations").Elements(), key);
    CandidateKeepsResource(inventory, os, key);
    var r, m :| candidates[key].At("resource") == Str(r) && '.' !in m && key == MethodKey(r, m);
    assert key[|r|] == '.';
  }

  /** Bindings the validator accepts are accepted by the binder's own parser. */
  lemma GoodBindingsParse(bindings: Value, inventory: Value, os: seq<Observation>, accepted: set<string>, catalog: Catalog)
    requires GoodBindingMaps(bindings, inventory, accepted, catalog)
    requires Lists(inventory, os) && DetectedNames(inventory, os) && SourceCatalog(catalog) && NamesGiven(inventory, accepted)
    ensures ParseBindings(bindings, catalog).Some?
  {
    hide GoodSymbol, GoodResource, GoodMethod, ParseSymbol, ParseResource, ParseMethod, SourceCatalog, Lists, DetectedNames, StringSet, AllUsed;
    var symbols, resources, methods := bindings.At("symbols").fields, bindings.At("resources").fields, bindings.At("methods").fields;
    forall k | k in symbols ensures k != "" && ParseSymbol(symbols[k]).Some? {
      GoodSymbolParses(k, symbols[k], StringSet(inventory.At("symbols")), accepted);
    }
    forall k | k in resources ensures k != "" && ParseResource(resources[k]).Some? {
      GoodResourceParses(k, resources[k], StringSet(inventory.At("resources")), accepted);
    }
    var candidates :| CandidatesOf(candidates, inventory)
                      && GoodMethods(bindings.At("methods"), candidates, symbols.Keys, RefMap(bindings.At("resources")), accepted, catalog);
    forall k | k in methods ensures ParseMethod(k, methods[k], catalog).Some? {
      MethodIsOffered(k, methods[k], candidates, symbols.Keys, RefMap(bindings.At("resources")), accepted, catalog);
      CandidateKeyHasDot(inventory, os, candidates, k);
      GoodMethodParses(k, methods[k], candidates, symbols.Keys, RefMap(bindings.At("resources")), accepted, catalog);
    }
  }

  lemma MethodIsOffered(physical: string, record: Value, candidates: map<string, Value>, bound: set<string>,
                        refs: map<string, set<string>>, accepted: set<string>, catalog: Catalog)
    requires GoodMethod(physical, record, candidates, bound, refs, accepted, catalog)
    ensures physical in candidates
  {
    hide GoodRecord, GoodKinds;
  }

  // ---------------------------------------------------------------------- soundness

  lemma {:induction false} ResourceBindingsMember(bindings: seq<FactBinding>)
    ensures forall b | b in ResourceBindings(bindings) :: b in bindings && b.binding != "operation"
  {
    if bindings != [] {
      ResourceBindingsMember(bindings[1..]);
    }
  }

  lemma ParsedParts(bindings: Value, catalog: Catalog)
    requires ParseBindings(bindings, catalog).Some?
    ensures var b := ParseBindings(bindings, catalog).value;
            && b.symbols.Keys == FieldsOf(bindings.At("symbols")).Keys
            && b.resources.Keys == FieldsOf(bindings.At("resources")).Keys
            && b.methods.Keys == FieldsOf(bindings.At("methods")).Keys
            && (forall k | k in b.symbols :: Some(b.symbols[k]) == ParseSymbol(FieldsOf(bindings.At("symbols"))[k]))
            && (forall k | k in b.resources :: Some(b.resources[k]) == ParseResource(FieldsOf(bindings.At("resources"))[k]))
            && (forall k | k in b.methods :: Some(b.methods[k]) == ParseMethod(k, FieldsOf(bindings.At("methods"))[k], catalog))
  {
    hide ParseSymbol, ParseResource, ParseMethod;
  }

  /** Every parsed symbol is an operation, and every parsed resource carries exactly the usable
      logical bindings the validator saw. */
  lemma ParsedAsValidated(bindings: Value, inventory: Value, accepted: set<string>, catalog: Catalog)
    requires GoodBindingMaps(bindings, inventory, accepted, catalog) && NamesGiven(inventory, accepted)
    requires ParseBindings(bindings, catalog).Some?
    ensures var b := ParseBindings(bindings, catalog).value;
            && (forall k | k in b.symbols :: IsOperation(b.symbols[k].logicalRef))
            && b.resources.Keys == RefMap(bindings.At("resources")).Keys
            && (forall k | k in b.resources :: b.resources[k].logicalRefs.Keys == RefMap(bindings.At("resources"))[k])
  {
    ParsedParts(bindings, catalog);
    hide GoodSymbol, GoodResource, ParseSymbol, ParseResource, ParseMethod, ParseBindings, StringSet, AllUsed, GoodMethods, GoodBindings, IsOperation;
    var b := ParseBindings(bindings, catalog).value;
    var symbols, resources := FieldsOf(bindings.At("symbols")), FieldsOf(bindings.At("resources"));
    forall k | k in b.symbols ensures IsOperation(b.symbols[k].logicalRef) {
      GoodSymbolParses(k, symbols[k], StringSet(inventory.At("symbols")), accepted);
    }
    forall k | k in b.resources
      ensures b.resources[k].logicalRefs.Keys == GoodBindings(resources[k]) != {}
    {
      GoodResourceParses(k, resources[k], StringSet(inventory.At("resources")), accepted);
    }
  }

  /** What soundness assumes: a good artifact, its listed observations and the guarantees of
      detection and of the catalog. */
  ghost predicate Reviewed(bindings: Value, inventory: Value, os: seq<Observation>, accepted: set<string>, catalog: Catalog) {
    && GoodBindingMaps(bindings, inventory, accepted, catalog)
    && Lists(inventory, os) && DetectedNames(inventory, os) && SourceCatalog(catalog) && NamesGiven(inventory, accepted)
  }

  lemma BuiltInIsCovered(bindings: Value, inventory: Value, os: seq<Observation>, accepted: set<string>, catalog: Catalog, o: Observation)
    requires Reviewed(bindings, inventory, os, accepted, catalog) && o in os && o.kind != OtherMethodCall
    ensures var refs := RefMap(bindings.At("resources"));
            && o.symbol in FieldsOf(bindings.At("symbols"))
            && o.resource in refs && (if o.kind == DbWrite then "data" else "integration") in refs[o.resource]
  {
    var item := ItemOf(inventory, os, o);
    BuiltInIsGood(bindings, inventory, accepted, catalog, item);
    hide RefMap, SourceCatalog, DetectedNames, NamesGiven, Lists, GoodBindingMaps;
    BuiltInNeeds(item, o, FieldsOf(bindings.At("symbols")).Keys, RefMap(bindings.At("resources")));
    hide Records, GoodBuiltIn;
  }

  lemma BuiltInNeeds(item: Value, o: Observation, bound: set<string>, refs: map<string, set<string>>)
    requires Records(item, o) && o.kind != OtherMethodCall && GoodBuiltIn(item, bound, refs)
    ensures o.symbol in bound
    ensures o.resource in refs && (if o.kind == DbWrite then "data" else "integration") in refs[o.resource]
  {}

  lemma BuiltInIsGood(bindings: Value, inventory: Value, accepted: set<string>, catalog: Catalog, item: Value)
    requires GoodBindingMaps(bindings, inventory, accepted, catalog) && item in inventory.At("observations").Elements()
    ensures GoodBuiltIn(item, FieldsOf(bindings.At("symbols")).Keys, RefMap(bindings.At("resources")))
  {
    hide GoodSymbols, GoodResources, GoodMethods, AllUsed, GoodOther, GoodBuiltIn, RefMap, CandidatesOf;
  }

  /** A built-in call on a bound symbol and resource needs only the resource's logical binding. */
  lemma BoundBuiltIn(o: Observation, b: Bindings, os: seq<Observation>, catalog: Catalog)
    requires o.kind != OtherMethodCall && o.symbol in b.symbols && IsOperation(b.symbols[o.symbol].logicalRef)
    requires o.resource in b.resources && SourceCatalog(catalog)
    requires (if o.kind == DbWrite then "data" else "integration") in b.resources[o.resource].logicalRefs
    ensures Bindable(o, b, os, catalog)
  {
    hide SourceFactBindings, IsOperation, Unqualified;
  }

  lemma ResolvedIsBound(b: Bindings, o: Observation, os: seq<Observation>)
    requires forall k | k in b.symbols :: IsOperation(b.symbols[k].logicalRef)
    requires ResolveSymbol(o, b, os).Some?
    ensures IsOperation(ResolveSymbol(o, b, os).value.logicalRef)
  {
    hide IsOperation, Unqualified;
  }

  /** A valid draft leaves no gap for any write or publish. */
  lemma BuiltInCallsAreBound(bindings: Value, inventory: Value, os: seq<Observation>, accepted: set<string>, catalog: Catalog, o: Observation)
    requires Reviewed(bindings, inventory, os, accepted, catalog)
    requires o in os && o.kind != OtherMethodCall
    ensures ParseBindings(bindings, catalog).Some?
    ensures Bindable(o, ParseBindings(bindings, catalog).value, os, catalog)
  {
    GoodBindingsParse(bindings, inventory, os, accepted, catalog);
    ParsedParts(bindings, catalog);
    ParsedAsValidated(bindings, inventory, accepted, catalog);
    BuiltInIsCovered(bindings, inventory, os, accepted, catalog, o);
    hide ParseBindings, GoodBindingMaps, Lists, DetectedNames, NamesGiven, RefMap, SourceCatalog, IsOperation, Bindable, ParseSymbol, ParseResource, ParseMethod;
    BoundBuiltIn(o, ParseBindings(bindings, catalog).value, os, catalog);
  }

  /** A bound resource's other call has a method binding whose every kind can be produced. */
  lemma OtherIsClassified(bindings: Value, inventory: Value, os: seq<Observation>, accepted: set<string>, catalog: Catalog, o: Observation)
    requires Reviewed(bindings, inventory, os, accepted, catalog)
    requires o in os && o.kind == OtherMethodCall && o.resource in RefMap(bindings.At("resources"))
    ensures MethodKey(o.resource, o.method_) in FieldsOf(bindings.At("methods"))
  {
    var item := ItemOf(inventory, os, o);
    hide GoodSymbols, GoodResources, GoodMethods, AllUsed, GoodBuiltIn, RefMap, SourceCatalog, DetectedNames, NamesGiven, Lists, CandidatesOf;
    assert GoodOther(item, FieldsOf(bindings.At("methods")), RefMap(bindings.At("resources")));
  }

  lemma ItemOf(inventory: Value, os: seq<Observation>, o: Observation) returns (item: Value)
    requires Lists(inventory, os) && o in os
    ensures item in inventory.At("observations").Elements() && Records(item, o)
  {
    hide Records;
    var i :| 0 <= i < |os| && os[i] == o;
    item := inventory.At("observations").Elements()[i];
  }

  lemma MethodCandidates(bindings: Value, inventory: Value, accepted: set<string>, catalog: Catalog, key: string)
    returns (candidates: map<string, Value>)
    requires GoodBindingMaps(bindings, inventory, accepted, catalog) && key in FieldsOf(bindings.At("methods"))
    ensures CandidatesOf(candidates, inventory)
    ensures GoodMethod(key, FieldsOf(bindings.At("methods"))[key], candidates, FieldsOf(bindings.At("symbols")).Keys,
                       RefMap(bindings.At("resources")), accepted, catalog)
  {
    hide GoodMethod, CandidatesOf, RefMap, GoodSymbols, GoodResources, AllUsed, GoodBuiltIn, GoodOther;
    candidates :| CandidatesOf(candidates, inventory)
                  && GoodMethods(bindings.At("methods"), candidates, FieldsOf(bindings.At("symbols")).Keys,
                                 RefMap(bindings.At("resources")), accepted, catalog);
  }

  lemma OtherKindsProducible(bindings: Value, inventory: Value, os: seq<Observation>, accepted: set<string>, catalog: Catalog, o: Observation)
    requires Reviewed(bindings, inventory, os, accepted, catalog)
    requires o in os && o.kind == OtherMethodCall && o.resource in RefMap(bindings.At("resources"))
    ensures ParseBindings(bindings, catalog).Some?
    ensures var b := ParseBindings(bindings, catalog).value;
            && FactKinds(o, b).Some? && o.resource in b.resources
            && forall kind | kind in FactKinds(o, b).value :: Producible(catalog, kind, b.resources[o.resource].logicalRefs)
  {
    GoodBindingsParse(bindings, inventory, os, accepted, catalog);
    ParsedParts(bindings, catalog);
    ParsedAsValidated(bindings, inventory, accepted, catalog);
    OtherIsClassified(bindings, inventory, os, accepted, catalog, o);
    var refs, methods := RefMap(bindings.At("resources")), FieldsOf(bindings.At("methods"));
    var key := MethodKey(o.resource, o.method_);
    var candidates := MethodCandidates(bindings, inventory, accepted, catalog, key);
    hide ParseBindings, GoodBindingMaps, RefMap, ParseSymbol, ParseResource, ParseMethod, GoodMethod, SourceFactBindings, MethodKey,
         Lists, DetectedNames, SourceCatalog, CandidatesOf, IsOperation;
    var b := ParseBindings(bindings, catalog).value;
    CandidateResource(inventory, os, candidates, o, key, methods[key], FieldsOf(bindings.At("symbols")).Keys, refs, accepted, catalog);
    forall kind | kind in b.methods[key].factKinds
      ensures Producible(catalog, kind, b.resources[o.resource].logicalRefs)
    {
      KindProducible(methods[key], candidates, FieldsOf(bindings.At("symbols")).Keys, refs, accepted, catalog, key, o.resource, kind);
      ResourceBindingsMember(catalog[kind]);
    }
  }

  lemma CandidateResource(inventory: Value, os: seq<Observation>, candidates: map<string, Value>, o: Observation, key: string,
                          record: Value, bound: set<string>, refs: map<string, set<string>>, accepted: set<string>, catalog: Catalog)
    requires Lists(inventory, os) && DetectedNames(inventory, os) && CandidatesOf(candidates, inventory)
    requires o in os && key == MethodKey(o.resource, o.method_)
    requires GoodMethod(key, record, candidates, bound, refs, accepted, catalog)
    ensures key in candidates && candidates[key].At("resource") == Str(o.resource)
    ensures '.' in key
  {
    MethodIsOffered(key, record, candidates, bound, refs, accepted, catalog);
    CandidateKeyHasDot(inventory, os, candidates, key);
    hide GoodMethod, CandidatesOf;
    var r, m :| candidates[key].At("resource") == Str(r) && '.' !in m && key == MethodKey(r, m);
    KeyDeterminesParts(r, m, o.resource, o.method_);
  }

  lemma KindProducible(record: Value, candidates: map<string, Value>, bound: set<string>, refs: map<string, set<string>>,
                       accepted: set<string>, catalog: Catalog, key: string, resource: string, kind: string)
    requires GoodMethod(key, record, candidates, bound, refs, accepted, catalog)
    requires SourceCatalog(catalog) && "" !in accepted && '.' in key
    requires candidates[key].At("resource") == Str(resource)
    requires ParseMethod(key, record, catalog).Some? && kind in ParseMethod(key, record, catalog).value.factKinds
    ensures kind in catalog && SourceFactBindings(catalog[kind]).Some?
    ensures resource in refs && SourceFactBindings(catalog[kind]).value.1.binding in refs[resource]
  {
    GoodMethodParses(key, record, candidates, bound, refs, accepted, catalog);
    hide GoodRecord, ParseMethod;
    var kinds := record.At("fact_kinds").items;
    var i :| 0 <= i < |kinds| && kinds[i] == Str(kind);
    assert GoodKind(kinds[i], Some(resource), refs, catalog);
    ResourceBindingsMember(catalog[kind]);
    assert SourceFactBindings(catalog[kind]).value.1 in ResourceBindings(catalog[kind]);
  }

  /** Under a valid draft another call on a bound resource is bound exactly when its own symbol
      resolves: the validator looks at one candidate symbol per `resource.method` key only. */
  lemma OtherCallsAreBoundIff(bindings: Value, inventory: Value, os: seq<Observation>, accepted: set<string>, catalog: Catalog, o: Observation)
    requires Reviewed(bindings, inventory, os, accepted, catalog)
    requires o in os && o.kind == OtherMethodCall && o.resource in FieldsOf(bindings.At("resources"))
    ensures ParseBindings(bindings, catalog).Some?
    ensures var b := ParseBindings(bindings, catalog).value;
            Bindable(o, b, os, catalog) <==> ResolveSymbol(o, b, os).Some?
  {
    GoodBindingsParse(bindings, inventory, os, accepted, catalog);
    ParsedParts(bindings, catalog);
    ParsedAsValidated(bindings, inventory, accepted, catalog);
    OtherKindsProducible(bindings, inventory, os, accepted, catalog, o);
    hide Reviewed, ParseBindings, RefMap, ParseSymbol, ParseResource, ParseMethod, Producible, FactKinds, IsOperation, ResolveSymbol;
    var b := ParseBindings(bindings, catalog).value;
    if ResolveSymbol(o, b, os).Some? {
      ResolvedIsBound(b, o, os);
    }
  }

  /** A valid draft covers its artifact exactly when every other call on a bound resource comes
      from a symbol that resolves; writes and publishes never stand in the way. */
  lemma ValidDraftCoversArtifactIff(bindings: Value, inventory: Value, os: seq<Observation>, accepted: set<string>, catalog: Catalog,
                                    ref: string, path: string)
    requires Reviewed(bindings, inventory, os, accepted, catalog)
    ensures ParseBindings(bindings, catalog).Some?
    ensures var b := ParseBindings(bindings, catalog).value;
            FullyCovered(Declaration(ref, path, b, Supported(false, Parsed(os))), catalog) <==>
              forall o | o in os && o.kind == OtherMethodCall && o.resource in b.resources :: ResolveSymbol(o, b, os).Some?
  {
    GoodBindingsParse(bindings, inventory, os, accepted, catalog);
    ParsedParts(bindings, catalog);
    hide Reviewed, ParseBindings, Bindable, ResolveSymbol, ParseSymbol, ParseResource, ParseMethod;
    var b := ParseBindings(bindings, catalog).value;
    forall o | o in os && !Skipped(o, b)
      ensures Bindable(o, b, os, catalog) <==> (o.kind == OtherMethodCall ==> ResolveSymbol(o, b, os).Some?)
    {
      if o.kind == OtherMethodCall {
        OtherCallsAreBoundIff(bindings, inventory, os, accepted, catalog, o);
      } else {
        BuiltInCallsAreBound(bindings, inventory, os, accepted, catalog, o);
      }
    }
  }

  // ------------------------------------------------------------- from the whole report

  /** In a draft without issues every observed artifact has a binding artifact that was held
      against it. */
  lemma GoodDraftIsReviewed(draft: Value, current: Value, decisions: seq<Value>, catalog: Catalog, i: nat, os: seq<Observation>)
    returns (artifact: Value)
    requires GoodDraft(draft, current, decisions, catalog) && i < |draft.At("artifacts").items|
    requires var inventory := draft.At("artifacts").items[i];
             Lists(inventory, os) && DetectedNames(inventory, os) && SourceCatalog(catalog) && NamesGiven(inventory, Accepted(decisions))
    ensures artifact in draft.At("binding_artifacts").items
    ensures artifact.At("path") == draft.At("artifacts").items[i].At("path")
    ensures Reviewed(artifact.At("bindings"), draft.At("artifacts").items[i], os, Accepted(decisions), catalog)
  {
    hide GoodBindingMaps, Lists, DetectedNames, SourceCatalog, NamesGiven, GoodTop, UpToDate, Accepted;
    var observed, bound := draft.At("artifacts").items, draft.At("binding_artifacts").items;
    var inventory := observed[i];
    assert NonEmpty(inventory.At("path"));
    var path := inventory.At("path").s;
    assert PathOf(observed[i], path);
    FindPathSome(observed, path);
    FindPathSome(bound, path);
    OnlyOneAt(observed, i, path);
    assert RetainedAt(bound, observed, path) && GoodAt(bound, observed, path, Accepted(decisions), catalog);
    artifact := FindPath(bound, path).value;
  }

  lemma OnlyOneAt(items: seq<Value>, i: nat, path: string)
    requires GoodPaths(items) && i < |items| && PathOf(items[i], path)
    ensures FindPath(items, path) == Some(items[i])
  {
    FindPathSome(items, path);
    var found := FindPath(items, path).value;
    var k :| 0 <= k < |items| && items[k] == found;
    if k < i {
      assert items[k].At("path") != items[i].At("path");
    } else if i < k {
      assert items[i].At("path") != items[k].At("path");
    }
  }

  /** A draft the report finds no issue with covers each observed artifact, except for other calls
      on bound resources whose own symbol does not resolve. */
  lemma ValidDraftCoversInventory(draft: Value, current: Value, decisions: seq<Value>, catalog: Catalog, i: nat, os: seq<Observation>)
    returns (artifact: Value)
    requires GoodDraft(draft, current, decisions, catalog) && i < |draft.At("artifacts").items|
    requires var inventory := draft.At("artifacts").items[i];
             Lists(inventory, os) && DetectedNames(inventory, os) && SourceCatalog(catalog) && NamesGiven(inventory, Accepted(decisions))
    ensures artifact in draft.At("binding_artifacts").items
    ensures artifact.At("path") == draft.At("artifacts").items[i].At("path")
    ensures ParseBindings(artifact.At("bindings"), catalog).Some?
    ensures var b := ParseBindings(artifact.At("bindings"), catalog).value;
            forall ref, path ::
              FullyCovered(Declaration(ref, path, b, Supported(false, Parsed(os))), catalog) <==>
                forall o | o in os && o.kind == OtherMethodCall && o.resource in b.resources :: ResolveSymbol(o, b, os).Some?
  {
    hide Reviewed, ParseBindings, FullyCovered, ResolveSymbol, Lists, DetectedNames, SourceCatalog, NamesGiven;
    artifact := GoodDraftIsReviewed(draft, current, decisions, catalog, i, os);
    forall ref: string, path: string
      ensures ParseBindings(artifact.At("bindings"), catalog).Some?
      ensures var b := ParseBindings(artifact.At("bindings"), catalog).value;
              FullyCovered(Declaration(ref, path, b, Supported(false, Parsed(os))), catalog) <==>
                forall o | o in os && o.kind == OtherMethodCall && o.resource in b.resources :: ResolveSymbol(o, b, os).Some?
    {
      ValidDraftCoversArtifactIff(artifact.At("bindings"), draft.At("artifacts").items[i], os, Accepted(decisions), catalog, ref, path);
    }
    ValidDraftCoversArtifactIff(artifact.At("bindings"), draft.At("artifacts").items[i], os, Accepted(decisions), catalog, "", "");
  }
}
