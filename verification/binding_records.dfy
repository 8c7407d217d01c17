/** Reading reviewed bindings from a manifest: the binding-map parsers of src/git_repository.rs. */
module BindingRecords {
  import opened Json
  import opened Binder

  predicate HasExactly(v: Value, names: set<string>) {
    v.Obj? && v.fields.Keys == names
  }

  const SYMBOL_FIELDS := {"logical_ref", "owner", "authority_ref"}
  const RESOURCE_FIELDS := {"logical_refs", "owner", "authority_ref"}
  const METHOD_FIELDS := {"fact_kinds", "owner", "authority_ref"}
  const SINGLE_KIND_FIELDS := {"kind", "owner", "authority_ref"}
  const BINDING_FIELDS := {"symbols", "resources", "methods"}

  /** `binding_map` for one record. */
  function ParseSymbol(record: Value): Option<BindingRecord> {
    if HasExactly(record, SYMBOL_FIELDS) && NonEmpty(record.At("logical_ref")) && NonEmpty(record.At("owner"))
       && NonEmpty(record.At("authority_ref"))
    then Some(BindingRecord(record.At("logical_ref").s, record.At("owner").s, record.At("authority_ref").s))
    else None
  }

  predicate LogicalRefOf(binding: string, ref: Value) {
    NonEmpty(ref) && binding != "" && binding + "." <= ref.s
  }

  /** `logical_ref_map` */
  function ParseLogicalRefs(v: Value): Option<map<string, string>> {
    if v.Obj? && v.fields != map[] && forall binding | binding in v.fields :: LogicalRefOf(binding, v.fields[binding])
    then Some(map binding | binding in v.fields :: v.fields[binding].s)
    else None
  }

  function FirstDot(s: string): Option<nat> {
    if s == "" then None
    else if s[0] == '.' then Some(0)
    else match FirstDot(s[1..])
      case None => None
      case Some(i) => Some(i + 1)
  }

  lemma {:induction false} FirstDotBound(s: string)
    ensures FirstDot(s).Some? ==> FirstDot(s).value < |s|
  {
    if s != "" {
      FirstDotBound(s[1..]);
    }
  }

  /** `resource_binding_map` for one record, in its current and its older form. */
  function ParseResource(record: Value): Option<ResourceRecord> {
    if !record.Obj? || !NonEmpty(record.At("owner")) || !NonEmpty(record.At("authority_ref")) then None
    else if "logical_refs" in record.fields then
      if !HasExactly(record, RESOURCE_FIELDS) || ParseLogicalRefs(record.At("logical_refs")).None? then None
      else Some(ResourceRecord(ParseLogicalRefs(record.At("logical_refs")).value, record.At("owner").s, record.At("authority_ref").s))
    else
      if !HasExactly(record, SYMBOL_FIELDS) || !NonEmpty(record.At("logical_ref")) || FirstDot(record.At("logical_ref").s).None? then None
      else
        var ref := record.At("logical_ref").s;
        FirstDotBound(ref);
        Some(ResourceRecord(map[ref[..FirstDot(ref).value] := ref], record.At("owner").s, record.At("authority_ref").s))
  }

  predicate UniqueStrings(vs: seq<Value>) {
    && (forall i | 0 <= i < |vs| :: NonEmpty(vs[i]))
    && (forall i, j | 0 <= i < j < |vs| :: vs[i] != vs[j])
  }

  /** The fact kinds a method record declares. */
  function ParseKinds(record: Value): Option<seq<string>> {
    if !record.Obj? then None
    else if "fact_kinds" in record.fields then
      var kinds := record.At("fact_kinds");
      if HasExactly(record, METHOD_FIELDS) && kinds.Arr? && kinds.items != [] && UniqueStrings(kinds.items)
      then Some(seq(|kinds.items|, i requires 0 <= i < |kinds.items| => kinds.items[i].s))
      else None
    else if HasExactly(record, SINGLE_KIND_FIELDS) && NonEmpty(record.At("kind")) then Some([record.At("kind").s])
    else None
  }

  /** `method_binding_map` for one record. */
  function ParseMethod(physical: string, record: Value, catalog: Catalog): Option<MethodRecord> {
    if '.' !in physical || ParseKinds(record).None? then None
    else if exists kind | kind in ParseKinds(record).value :: kind !in catalog || SourceFactBindings(catalog[kind]).None? then None
    else if !NonEmpty(record.At("owner")) || !NonEmpty(record.At("authority_ref")) then None
    else Some(MethodRecord(ParseKinds(record).value, record.At("owner").s, record.At("authority_ref").s))
  }

  /** `artifact_bindings` */
  function ParseBindings(v: Value, catalog: Catalog): Option<Bindings> {
    if !HasExactly(v, BINDING_FIELDS) || !v.At("symbols").Obj? || !v.At("resources").Obj? || !v.At("methods").Obj? then None
    else
      var symbols, resources, methods := v.At("symbols").fields, v.At("resources").fields, v.At("methods").fields;
      if (exists k | k in symbols :: k == "" || ParseSymbol(symbols[k]).None?)
         || (exists k | k in resources :: k == "" || ParseResource(resources[k]).None?)
         || (exists k | k in methods :: ParseMethod(k, methods[k], catalog).None?) then None
      else Some(Bindings(map k | k in symbols :: ParseSymbol(symbols[k]).value,
                         map k | k in resources :: ParseResource(resources[k]).value,
                         map k | k in methods :: ParseMethod(k, methods[k], catalog).value))
  }
}
