/** The residual case of draft validation, with concrete records: two symbols call the same method
    of a bound resource and only the first symbol is bound.  The validator looks up one candidate
    symbol per `resource.method` key, so it accepts the bindings; the binder still reports a gap.
  */
module DraftResidual {
  import opened Json
  import opened Binder
  import opened BindingRecords
  import opened DraftValidation
  import opened DraftReport
  import opened DraftSoundness

  const FIRST := Observation(OtherMethodCall, "a", "r", "m", 1)
  const SECOND := Observation(OtherMethodCall, "b", "r", "m", 2)
  const ITEM1 := Obj(map["kind" := Str("other_method_call"), "symbol" := Str("a"), "resource" := Str("r"), "method" := Str("m")])
  const ITEM2 := Obj(map["kind" := Str("other_method_call"), "symbol" := Str("b"), "resource" := Str("r"), "method" := Str("m")])

  const INVENTORY := Obj(map[
    "symbols" := Arr([Str("a"), Str("b")]),
    "resources" := Arr([Str("r")]),
    "observations" := Arr([ITEM1, ITEM2])])

  const REFS := map["data" := Str("data.x")]
  const SYMBOL := Obj(map["logical_ref" := Str("operation.x"), "owner" := Str("t"), "authority_ref" := Str("d")])
  const RESOURCE := Obj(map["logical_refs" := Obj(REFS), "owner" := Str("t"), "authority_ref" := Str("d")])
  const METHOD := Obj(map["fact_kinds" := Arr([Str("db_write")]), "owner" := Str("t"), "authority_ref" := Str("d")])

  const SYMBOLS := map["a" := SYMBOL]
  const RESOURCES := map["r" := RESOURCE]
  const METHODS := map["r.m" := METHOD]
  const BINDINGS := Obj(map["symbols" := Obj(SYMBOLS), "resources" := Obj(RESOURCES), "methods" := Obj(METHODS)])
  const WRITE := [FactBinding("operation", "op"), FactBinding("data", "store")]
  const PUBLISH := [FactBinding("operation", "op"), FactBinding("integration", "topic")]
  const CATALOG: Catalog := map["db_write" := WRITE, "message_publish" := PUBLISH]

  lemma Key()
    ensures MethodKey("r", "m") == "r.m"
  {
    assert "r" + "." + "m" == "r.m";
  }

  lemma RecordsAreGood()
    ensures GoodRecord(SYMBOL, SYMBOL_FIELDS, {"d"}) && GoodRecord(RESOURCE, RESOURCE_FIELDS, {"d"}) && GoodRecord(METHOD, METHOD_FIELDS, {"d"})
  {
    assert SYMBOL.fields.Keys == SYMBOL_FIELDS;
    assert RESOURCE.fields.Keys == RESOURCE_FIELDS;
    assert METHOD.fields.Keys == METHOD_FIELDS;
  }

  lemma Observed()
    ensures StringSet(INVENTORY.At("symbols")) == {"a", "b"} && StringSet(INVENTORY.At("resources")) == {"r"}
  {
    StringsMember([Str("r")], "r");
    forall s: string ensures s in Strings([Str("a"), Str("b")]) <==> s in {"a", "b"} {
      StringsMember([Str("a"), Str("b")], s);
    }
    forall s: string ensures s in Strings([Str("r")]) <==> s in {"r"} {
      StringsMember([Str("r")], s);
    }
  }

  lemma SymbolIsGood()
    ensures GoodSymbol("a", SYMBOL, {"a", "b"}, {"d"})
  {
    RecordsAreGood();
    hide GoodRecord;
    assert "operation." <= "operation.x";
  }

  lemma ResourceIsGood()
    ensures GoodResource("r", RESOURCE, {"r"}, {"d"}) && GoodBindings(RESOURCE) == {"data"}
  {
    RecordsAreGood();
    hide GoodRecord;
    assert "data" + "." == "data.";
    assert "data." <= "data.x";
    assert "data" in REFS && REFS["data"] == Str("data.x");
    assert RESOURCE.At("logical_refs") == Obj(REFS);
    assert FieldsOf(RESOURCE.At("logical_refs")) == REFS;
    assert GoodLogicalRef("data", REFS["data"]);
    assert forall b | b in REFS :: b == "data";
  }

  lemma MethodIsGood(candidates: map<string, Value>)
    requires "r.m" in candidates && candidates["r.m"].At("symbol") == Str("a") && candidates["r.m"].At("resource") == Str("r")
    ensures GoodMethod("r.m", METHOD, candidates, {"a"}, map["r" := {"data"}], {"d"}, CATALOG)
  {
    RecordsAreGood();
    hide GoodRecord;
    assert METHOD.At("fact_kinds") == Arr([Str("db_write")]);
    assert CATALOG["db_write"] == WRITE;
    assert GoodKind(Str("db_write"), Some("r"), map["r" := {"data"}], CATALOG);
  }

  lemma Items()
    ensures INVENTORY.At("observations") == Arr([ITEM1, ITEM2]) && INVENTORY.At("framework_candidates").Elements() == []
    ensures KeyOf(ITEM1) == KeyOf(ITEM2) == "r.m" && IsOther(ITEM1) && IsOther(ITEM2)
    ensures OfferedBy(ITEM1).At("symbol") == Str("a") && OfferedBy(ITEM1).At("resource") == Str("r")
  {
    Key();
  }

  lemma OffersTheFirst()
    returns (candidates: map<string, Value>)
    ensures CandidatesOf(candidates, INVENTORY)
    ensures "r.m" in candidates && candidates["r.m"] == OfferedBy(ITEM1)
  {
    Items();
    hide KeyOf, OfferedBy, IsOther;
    candidates := map["r.m" := OfferedBy(ITEM1)];
    assert Offers(ITEM1, "r.m");
    assert [ITEM1, ITEM2][..1] == [ITEM1] && [ITEM1][..0] == [];
    forall key: string ensures Lookup(candidates, key) == CandidateFor([], [ITEM1, ITEM2], key) {
      assert FirstOffer([ITEM1], key) == if key == "r.m" then Some(OfferedBy(ITEM1)) else None;
    }
  }

  lemma BindingParts()
    ensures BINDINGS.At("symbols") == Obj(SYMBOLS) && BINDINGS.At("resources") == Obj(RESOURCES) && BINDINGS.At("methods") == Obj(METHODS)
    ensures HasExactly(BINDINGS, BINDING_FIELDS)
    ensures RefMap(Obj(RESOURCES)) == map["r" := {"data"}] && SYMBOLS.Keys == {"a"}
  {
    hide RefMap;
    assert BINDINGS.fields.Keys == BINDING_FIELDS;
    RefsAreBound();
  }

  lemma RefsAreBound()
    ensures RefMap(Obj(RESOURCES)) == map["r" := {"data"}]
  {
    ResourceIsGood();
    hide GoodBindings, GoodResource;
    assert RESOURCES["r"] == RESOURCE && FieldsOf(Obj(RESOURCES)) == RESOURCES;
  }

  lemma EverythingIsUsed()
    ensures AllUsed([ITEM1, ITEM2], [], METHODS, {"a"}, map["r" := {"data"}])
  {
    Items();
    hide KeyOf, IsOther;
    assert ITEM1 in [ITEM1, ITEM2] && Uses(ITEM1, false, METHODS) && ITEM1.At("symbol") == Str("a") && ITEM1.At("resource") == Str("r");
    assert InUse("a", "symbol", [ITEM1, ITEM2], [], METHODS);
    assert InUse("r", "resource", [ITEM1, ITEM2], [], METHODS);
  }

  lemma CallsAreGood()
    ensures forall o | o in [ITEM1, ITEM2] :: GoodBuiltIn(o, {"a"}, map["r" := {"data"}]) && GoodOther(o, METHODS, map["r" := {"data"}])
  {
    Items();
    hide KeyOf;
  }

  /** The validator accepts the bindings. */
  lemma Accepted()
    ensures GoodBindingMaps(BINDINGS, INVENTORY, {"d"}, CATALOG)
  {
    hide GoodSymbols, GoodResources, GoodMethods, CandidatesOf, RefMap, AllUsed, GoodBuiltIn, GoodOther, StringSet, HasExactly, OfferedBy,
         KeyOf, IsOther, BINDINGS, INVENTORY, SYMBOLS, RESOURCES, METHODS, CATALOG, ITEM1, ITEM2, BINDING_FIELDS, FieldsOf, GoodSymbol, GoodResource, GoodMethod, GoodBindings,
         SYMBOL, RESOURCE, METHOD, Offers, CandidateFor, FirstOffer;
    BindingParts();
    Observed();
    SymbolIsGood();
    ResourceIsGood();
    Items();
    EverythingIsUsed();
    CallsAreGood();
    var candidates := OffersTheFirst();
    MethodIsGood(candidates);
    MapsAreGood(candidates);
    FieldsAreMaps();
  }

  lemma FieldsAreMaps()
    ensures FieldsOf(Obj(SYMBOLS)) == SYMBOLS && FieldsOf(Obj(METHODS)) == METHODS
  {}

  lemma MapsAreGood(candidates: map<string, Value>)
    requires GoodMethod("r.m", METHOD, candidates, {"a"}, map["r" := {"data"}], {"d"}, CATALOG)
    ensures GoodSymbols(Obj(SYMBOLS), {"a", "b"}, {"d"}) && GoodResources(Obj(RESOURCES), {"r"}, {"d"})
    ensures GoodMethods(Obj(METHODS), candidates, {"a"}, map["r" := {"data"}], {"d"}, CATALOG)
  {
    SymbolIsGood();
    ResourceIsGood();
    hide GoodSymbol, GoodResource, GoodMethod, SYMBOL, RESOURCE, METHOD, CATALOG;
  }

  lemma Names()
    ensures Unqualified("b") == "b"
    ensures Qualified([FIRST, SECOND], "b") == {"b"}
  {
    assert Unqualified("a") == "a" && Unqualified("b") == "b";
    hide Unqualified;
    assert forall o :: o in [FIRST, SECOND] <==> o == FIRST || o == SECOND;
    assert SECOND in [FIRST, SECOND];
  }

  lemma CatalogIsSound()
    ensures SourceCatalog(CATALOG)
  {
    assert WRITE[0].binding == "operation" && WRITE[1..] == [FactBinding("data", "store")];
    assert PUBLISH[0].binding == "operation" && PUBLISH[1..] == [FactBinding("integration", "topic")];
    assert ResourceBindings(WRITE) == [FactBinding("data", "store")];
    assert ResourceBindings(PUBLISH) == [FactBinding("integration", "topic")];
    assert SourceFactBindings(WRITE).Some? && SourceFactBindings(PUBLISH).Some?;
    assert CATALOG["db_write"] == WRITE && CATALOG["message_publish"] == PUBLISH;
  }

  lemma InventoryListsBoth()
    ensures Lists(INVENTORY, [FIRST, SECOND]) && DetectedNames(INVENTORY, [FIRST, SECOND]) && NamesGiven(INVENTORY, {"d"})
  {
    Items();
    Observed();
    assert Records(ITEM1, FIRST) && Records(ITEM2, SECOND);
  }

  /** All assumptions of the soundness results hold, yet the second caller is not bound. */
  lemma AcceptedYetUnbound()
    ensures Reviewed(BINDINGS, INVENTORY, [FIRST, SECOND], {"d"}, CATALOG)
    ensures ParseBindings(BINDINGS, CATALOG).Some?
    ensures SECOND.resource in ParseBindings(BINDINGS, CATALOG).value.resources
    ensures !Bindable(SECOND, ParseBindings(BINDINGS, CATALOG).value, [FIRST, SECOND], CATALOG)
  {
    hide *;
    Accepted();
    InventoryListsBoth();
    CatalogIsSound();
    EverythingReviewed();
    GoodBindingsParse(BINDINGS, INVENTORY, [FIRST, SECOND], {"d"}, CATALOG);
    OnlyFirstSymbol();
    SecondIsUnbound(ParseBindings(BINDINGS, CATALOG).value);
  }

  lemma EverythingReviewed()
    requires GoodBindingMaps(BINDINGS, INVENTORY, {"d"}, CATALOG) && SourceCatalog(CATALOG)
    requires Lists(INVENTORY, [FIRST, SECOND]) && DetectedNames(INVENTORY, [FIRST, SECOND]) && NamesGiven(INVENTORY, {"d"})
    ensures Reviewed(BINDINGS, INVENTORY, [FIRST, SECOND], {"d"}, CATALOG)
  {
    hide GoodBindingMaps, SourceCatalog, DetectedNames, NamesGiven, Lists;
  }

  lemma OnlyFirstSymbol()
    requires ParseBindings(BINDINGS, CATALOG).Some?
    ensures ParseBindings(BINDINGS, CATALOG).value.symbols.Keys == {"a"}
    ensures "r" in ParseBindings(BINDINGS, CATALOG).value.resources
  {
    ParsedParts(BINDINGS, CATALOG);
    BindingParts();
    hide ParseBindings, ParseSymbol, ParseResource, ParseMethod, HasExactly, RefMap, BINDINGS;
    assert FieldsOf(Obj(SYMBOLS)) == SYMBOLS && "r" in FieldsOf(Obj(RESOURCES));
  }

  lemma SecondIsUnbound(b: Bindings)
    requires b.symbols.Keys == {"a"} && "r" in b.resources
    ensures SECOND.resource in b.resources && !Bindable(SECOND, b, [FIRST, SECOND], CATALOG)
  {
    Names();
    hide Unqualified, Qualified, CATALOG;
    assert ResolveSymbol(SECOND, b, [FIRST, SECOND]).None?;
  }
}
