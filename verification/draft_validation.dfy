/** The draft validator of src/binding_draft_validation.rs: independent checks that push issues
    onto one list.  Every check says exactly when it adds none.
  */
module DraftValidation {
  import opened Json
  import opened Binder
  import opened BindingRecords

  datatype Issue = Issue(kind: string, artifactRef: Option<string>, reason: string)

  const DRAFT_FIELDS := {"schema_version", "kind", "analysis_roots", "base_observation_digest",
                         "source_digests", "artifacts", "binding_artifacts", "next"}
  const ARTIFACT_FIELDS := {"ref", "path", "language", "bindings"}

  // ------------------------------------------------------------------ small readers

  /** `string_set` */
  function StringSet(v: Value): set<string> {
    set s | s in Strings(v.Elements())
  }

  function StrOr(v: Value, default_: string): string {
    if v.Str? then v.s else default_
  }

  predicate IsOther(observation: Value) {
    observation.At("kind") == Str("other_method_call")
  }

  predicate IsBuiltIn(observation: Value) {
    observation.At("kind") == Str("db_write") || observation.At("kind") == Str("message_publish")
  }

  /** The logical binding a built-in call needs on its resource. */
  function RequiredBinding(observation: Value): string {
    if observation.At("kind") == Str("db_write") then "data" else "integration"
  }

  function KeyOf(observation: Value): string {
    MethodKey(StrOr(observation.At("resource"), ""), StrOr(observation.At("method"), ""))
  }

  function FieldsOf(v: Value): map<string, Value> {
    if v.Obj? then v.fields else map[]
  }

  // ----------------------------------------------------------------- record checks

  /** A binding record whose fields, owner and authority are in order. */
  predicate GoodRecord(record: Value, fields: set<string>, accepted: set<string>) {
    && HasExactly(record, fields)
    && NonEmpty(record.At("owner"))
    && record.At("authority_ref").Str? && record.At("authority_ref").s in accepted
  }

  /** `exact_fields`: one issue for every unexpected and every missing field. */
  method ExactFields(actual: set<string>, expected: set<string>, what: string, ref: Option<string>, issues: seq<Issue>)
    returns (out: seq<Issue>)
    ensures issues <= out && (out == issues <==> actual == expected)
    ensures |out| == |issues| + |actual - expected| + |expected - actual|
  {
    out := issues;
    var extra := actual - expected;
    while extra != {}
      invariant issues <= out && |out| + |extra| == |issues| + |actual - expected|
    {
      var field :| field in extra;
      out := out + [Issue("invalid-field", ref, what + " has unexpected field: " + field)];
      extra := extra - {field};
    }
    var missing := expected - actual;
    while missing != {}
      invariant issues <= out && |out| + |missing| == |issues| + |actual - expected| + |expected - actual|
    {
      var field :| field in missing;
      out := out + [Issue("invalid-field", ref, what + " is missing field: " + field)];
      missing := missing - {field};
    }
    assert |actual - expected| == 0 && |expected - actual| == 0 ==> actual == expected by {
      if |actual - expected| == 0 && |expected - actual| == 0 {
        assert actual - expected == {} && expected - actual == {};
        assert forall x :: x in actual <==> x in expected;
      }
    }
  }

  /** `validate_record_fields` */
  method ValidateRecordFields(record: Value, fields: set<string>, what: string, accepted: set<string>, ref: Option<string>, issues: seq<Issue>)
    returns (out: seq<Issue>)
    ensures issues <= out && (out == issues <==> GoodRecord(record, fields, accepted))
  {
    if !record.Obj? {
      return issues + [Issue("invalid-binding", ref, what + " Binding must be an object")];
    }
    out := ExactFields(record.fields.Keys, fields, what, ref, issues);
    if !NonEmpty(record.At("owner")) {
      out := out + [Issue("incomplete-binding", ref, what + " requires a non-empty owner")];
    }
    if !record.At("authority_ref").Str? {
      out := out + [Issue("incomplete-binding", ref, what + " requires an authority_ref")];
    } else if record.At("authority_ref").s !in accepted {
      out := out + [Issue("unaccepted-binding-authority", ref, what + " authority is not an accepted Decision")];
    }
  }

  // ------------------------------------------------------------------------ symbols

  predicate OperationRef(v: Value) {
    v.Str? && IsOperation(v.s) && |v.s| > 10
  }

  predicate GoodSymbol(physical: string, record: Value, observed: set<string>, accepted: set<string>) {
    physical in observed && GoodRecord(record, SYMBOL_FIELDS, accepted) && OperationRef(record.At("logical_ref"))
  }

  predicate GoodSymbols(v: Value, observed: set<string>, accepted: set<string>) {
    v.Obj? && forall physical | physical in v.fields :: GoodSymbol(physical, v.fields[physical], observed, accepted)
  }

  /** `validate_symbols` */
  method ValidateSymbols(v: Value, observed: set<string>, accepted: set<string>, ref: Option<string>, issues: seq<Issue>)
    returns (bound: set<string>, out: seq<Issue>)
    ensures bound == FieldsOf(v).Keys
    ensures issues <= out && (out == issues <==> GoodSymbols(v, observed, accepted))
  {
    if !v.Obj? {
      return {}, issues + [Issue("invalid-binding", ref, "symbol bindings must be an object")];
    }
    hide GoodRecord, OperationRef;
    out := issues;
    var rest := v.fields.Keys;
    while rest != {}
      invariant rest <= v.fields.Keys && issues <= out
      invariant out == issues <==> forall k | k in v.fields.Keys - rest :: GoodSymbol(k, v.fields[k], observed, accepted)
      decreases rest
    {
      var physical :| physical in rest;
      var record := v.fields[physical];
      if physical !in observed {
        out := out + [Issue("unknown-physical-binding", ref, "symbol was not observed: " + physical)];
      }
      out := ValidateRecordFields(record, SYMBOL_FIELDS, "symbol " + physical, accepted, ref, out);
      if !OperationRef(record.At("logical_ref")) {
        out := out + [Issue("invalid-logical-ref", ref, "symbol " + physical + " must map to an operation.* logical ref")];
      }
      rest := rest - {physical};
    }
    bound := v.fields.Keys;
  }

  // ---------------------------------------------------------------------- resources

  /** A logical reference under its own binding prefix, with something after the prefix. */
  predicate GoodLogicalRef(binding: string, v: Value) {
    v.Str? && binding != "" && binding + "." <= v.s && |v.s| > |binding| + 1
  }

  predicate GoodResource(physical: string, record: Value, observed: set<string>, accepted: set<string>) {
    && physical in observed && GoodRecord(record, RESOURCE_FIELDS, accepted)
    && record.At("logical_refs").Obj? && record.At("logical_refs").fields != map[]
    && forall binding | binding in record.At("logical_refs").fields ::
         GoodLogicalRef(binding, record.At("logical_refs").fields[binding])
  }

  predicate GoodResources(v: Value, observed: set<string>, accepted: set<string>) {
    v.Obj? && forall physical | physical in v.fields :: GoodResource(physical, v.fields[physical], observed, accepted)
  }

  /** The usable logical bindings of a resource record. */
  function GoodBindings(record: Value): set<string> {
    set binding | binding in FieldsOf(record.At("logical_refs"))
                  && GoodLogicalRef(binding, FieldsOf(record.At("logical_refs"))[binding]) :: binding
  }

  /** The resources with at least one usable logical binding, and those bindings. */
  ghost predicate ResourceRefs(refs: map<string, set<string>>, v: Value, done: set<string>) {
    && (forall k :: k in refs <==> k in done && k in FieldsOf(v) && GoodBindings(FieldsOf(v)[k]) != {})
    && (forall k | k in refs :: k in FieldsOf(v) && refs[k] == GoodBindings(FieldsOf(v)[k]))
  }

  method ValidateLogicalRefs(physical: string, refs: map<string, Value>, ref: Option<string>, issues: seq<Issue>)
    returns (good: set<string>, out: seq<Issue>)
    ensures good == set binding | binding in refs && GoodLogicalRef(binding, refs[binding]) :: binding
    ensures issues <= out && (out == issues <==> forall binding | binding in refs :: GoodLogicalRef(binding, refs[binding]))
  {
    hide GoodLogicalRef;
    good, out := {}, issues;
    var rest := refs.Keys;
    while rest != {}
      invariant rest <= refs.Keys && issues <= out
      invariant good == set b | b in refs.Keys - rest && GoodLogicalRef(b, refs[b]) :: b
      invariant out == issues <==> forall b | b in refs.Keys - rest :: GoodLogicalRef(b, refs[b])
      decreases rest
    {
      var binding :| binding in rest;
      if GoodLogicalRef(binding, refs[binding]) {
        good := good + {binding};
      } else {
        out := out + [Issue("invalid-logical-ref", ref, "resource " + physical + " logical_refs." + binding)];
      }
      rest := rest - {binding};
    }
  }

  /** The body of `validate_resources` for one binding. */
  method ValidateResource(physical: string, record: Value, observed: set<string>, accepted: set<string>, ref: Option<string>, issues: seq<Issue>)
    returns (good: set<string>, out: seq<Issue>)
    ensures good == GoodBindings(record)
    ensures issues <= out && (out == issues <==> GoodResource(physical, record, observed, accepted))
  {
    hide GoodRecord, GoodLogicalRef;
    out := issues;
    if physical !in observed {
      out := out + [Issue("unknown-physical-binding", ref, "resource was not observed: " + physical)];
    }
    out := ValidateRecordFields(record, RESOURCE_FIELDS, "resource " + physical, accepted, ref, out);
    var logical := record.At("logical_refs");
    if !logical.Obj? || logical.fields == map[] {
      out := out + [Issue("incomplete-binding", ref, "resource " + physical + " requires non-empty logical_refs")];
      assert GoodBindings(record) == {};
      good := {};
    } else {
      good, out := ValidateLogicalRefs(physical, logical.fields, ref, out);
      assert FieldsOf(logical) == logical.fields;
    }
  }

  /** `validate_resources` */
  method ValidateResources(v: Value, observed: set<string>, accepted: set<string>, ref: Option<string>, issues: seq<Issue>)
    returns (refs: map<string, set<string>>, out: seq<Issue>)
    ensures ResourceRefs(refs, v, FieldsOf(v).Keys)
    ensures issues <= out && (out == issues <==> GoodResources(v, observed, accepted))
  {
    refs := map[];
    if !v.Obj? {
      return refs, issues + [Issue("invalid-binding", ref, "resource bindings must be an object")];
    }
    out := issues;
    var rest := v.fields.Keys;
    while rest != {}
      invariant rest <= v.fields.Keys && issues <= out
      invariant ResourceRefs(refs, v, v.fields.Keys - rest)
      invariant out == issues <==> forall k | k in v.fields.Keys - rest :: GoodResource(k, v.fields[k], observed, accepted)
      decreases rest
    {
      hide GoodResource, GoodBindings;
      var physical :| physical in rest;
      var good;
      good, out := ValidateResource(physical, v.fields[physical], observed, accepted, ref, out);
      if good != {} {
        refs := refs[physical := good];
      }
      rest := rest - {physical};
    }
  }

  // ------------------------------------------------------------------------ methods

  /** Each kind is a distinct known fact kind, and the candidate's resource has a logical
      reference for every binding the kind needs besides the operation. */
  predicate GoodKind(kind: Value, resource: Option<string>, refs: map<string, set<string>>, catalog: Catalog) {
    && kind.Str? && kind.s in catalog
    && forall b | b in catalog[kind.s] && b.binding != "operation" ::
         resource.Some? ==> resource.value in refs && b.binding in refs[resource.value]
  }

  predicate GoodKinds(kinds: seq<Value>, resource: Option<string>, refs: map<string, set<string>>, catalog: Catalog) {
    && (forall i | 0 <= i < |kinds| :: GoodKind(kinds[i], resource, refs, catalog))
    && (forall i, j | 0 <= i < j < |kinds| :: kinds[i] != kinds[j])
  }

  predicate GoodMethod(physical: string, record: Value, candidates: map<string, Value>, bound: set<string>,
                       refs: map<string, set<string>>, accepted: set<string>, catalog: Catalog) {
    && physical in candidates
    && GoodRecord(record, METHOD_FIELDS, accepted)
    && record.At("fact_kinds").Arr? && record.At("fact_kinds").items != []
    && candidates[physical].At("symbol").Str? && candidates[physical].At("symbol").s in bound
    && candidates[physical].At("resource").Str? && candidates[physical].At("resource").s in refs
    && GoodKinds(record.At("fact_kinds").items, candidates[physical].At("resource").AsStr(), refs, catalog)
  }

  predicate GoodMethods(v: Value, candidates: map<string, Value>, bound: set<string>,
                        refs: map<string, set<string>>, accepted: set<string>, catalog: Catalog) {
    v.Obj? && forall k | k in v.fields :: GoodMethod(k, v.fields[k], candidates, bound, refs, accepted, catalog)
  }

  method ValidateKindBindings(physical: string, bindings: seq<FactBinding>, resource: Option<string>,
                              refs: map<string, set<string>>, ref: Option<string>, issues: seq<Issue>)
    returns (out: seq<Issue>)
    ensures issues <= out
    ensures out == issues <==> forall b | b in bindings && b.binding != "operation" ::
              resource.Some? ==> resource.value in refs && b.binding in refs[resource.value]
  {
    out := issues;
    if resource.Some? {
      for i := 0 to |bindings|
        invariant issues <= out
        invariant out == issues <==> forall b | b in bindings[..i] && b.binding != "operation" ::
                    resource.value in refs && b.binding in refs[resource.value]
      {
        assert bindings[..i + 1] == bindings[..i] + [bindings[i]];
        if bindings[i].binding != "operation" && !(resource.value in refs && bindings[i].binding in refs[resource.value]) {
          out := out + [Issue("missing-resource-logical-ref", ref, "method " + physical + " requires " + bindings[i].binding)];
        }
      }
      assert bindings[..|bindings|] == bindings;
    }
  }

  /** The loop over the fact kinds of one method binding. */
  method ValidateKinds(physical: string, kinds: seq<Value>, resource: Option<string>, refs: map<string, set<string>>,
                       catalog: Catalog, ref: Option<string>, issues: seq<Issue>)
    returns (out: seq<Issue>)
    ensures issues <= out && (out == issues <==> GoodKinds(kinds, resource, refs, catalog))
  {
    out := issues;
    var seen: set<string> := {};
    for i := 0 to |kinds|
      invariant issues <= out
      invariant forall s :: s in seen <==> Str(s) in kinds[..i]
      invariant out == issues <==> GoodKinds(kinds[..i], resource, refs, catalog)
    {
      hide GoodKind;
      var kind := kinds[i];
      ghost var before := out;
      assert kinds[..i + 1] == kinds[..i] + [kind];
      KindsAppend(kinds[..i], kind, resource, refs, catalog);
      if !kind.Str? || kind.s in seen {
        out := out + [Issue("invalid-fact-kind", ref, "method " + physical + " fact_kinds must be unique non-empty strings")];
        assert !(kind.Str? && kind !in kinds[..i]);
        NotAString(kind, resource, refs, catalog);
      } else {
        seen := seen + {kind.s};
        if kind.s !in catalog {
          out := out + [Issue("unknown-fact-kind", ref, "method " + physical + " uses unknown fact kind: " + kind.s)];
        } else {
          out := ValidateKindBindings(physical, catalog[kind.s], resource, refs, ref, out);
        }
        KindChecked(kind, resource, refs, catalog);
      }
    }
    assert kinds[..|kinds|] == kinds;
  }

  lemma NotAString(kind: Value, resource: Option<string>, refs: map<string, set<string>>, catalog: Catalog)
    ensures GoodKind(kind, resource, refs, catalog) ==> kind.Str?
  {}

  lemma KindChecked(kind: Value, resource: Option<string>, refs: map<string, set<string>>, catalog: Catalog)
    requires kind.Str?
    ensures kind.s !in catalog ==> !GoodKind(kind, resource, refs, catalog)
    ensures kind.s in catalog ==>
              (GoodKind(kind, resource, refs, catalog) <==> forall b | b in catalog[kind.s] && b.binding != "operation" ::
                 resource.Some? ==> resource.value in refs && b.binding in refs[resource.value])
  {}

  lemma KindsAppend(kinds: seq<Value>, kind: Value, resource: Option<string>, refs: map<string, set<string>>, catalog: Catalog)
    ensures GoodKinds(kinds + [kind], resource, refs, catalog) <==>
            GoodKinds(kinds, resource, refs, catalog) && GoodKind(kind, resource, refs, catalog) && kind !in kinds
  {
    hide GoodKind;
    var all := kinds + [kind];
    assert forall i | 0 <= i < |kinds| :: all[i] == kinds[i];
    assert all[|kinds|] == kind;
    if GoodKinds(all, resource, refs, catalog) {
      assert forall i | 0 <= i < |kinds| :: all[i] != all[|kinds|];
    }
  }

  /** The body of `validate_methods` for one binding. */
  method ValidateMethod(physical: string, record: Value, candidates: map<string, Value>, bound: set<string>,
                        refs: map<string, set<string>>, accepted: set<string>, catalog: Catalog, ref: Option<string>, issues: seq<Issue>)
    returns (out: seq<Issue>)
    ensures issues <= out && (out == issues <==> GoodMethod(physical, record, candidates, bound, refs, accepted, catalog))
  {
    hide GoodRecord, GoodKinds;
    out := issues;
    if physical !in candidates {
      out := out + [Issue("unknown-physical-binding", ref, "method Binding was not offered by the Draft: " + physical)];
    }
    out := ValidateRecordFields(record, METHOD_FIELDS, "method " + physical, accepted, ref, out);
    var kinds := record.At("fact_kinds");
    if !kinds.Arr? || kinds.items == [] {
      out := out + [Issue("incomplete-binding", ref, "method " + physical + " requires non-empty fact_kinds")];
      return;
    }
    var resource: Option<string> := None;
    if physical in candidates {
      var candidate := candidates[physical];
      resource := candidate.At("resource").AsStr();
      if !(candidate.At("symbol").Str? && candidate.At("symbol").s in bound) {
        out := out + [Issue("missing-symbol-binding", ref, "method " + physical + " requires its observed symbol Binding")];
      }
      if !(resource.Some? && resource.value in refs) {
        out := out + [Issue("missing-resource-binding", ref, "method " + physical + " requires its observed resource Binding")];
      }
    }
    out := ValidateKinds(physical, kinds.items, resource, refs, catalog, ref, out);
  }

  /** `validate_methods` */
  method ValidateMethods(v: Value, candidates: map<string, Value>, bound: set<string>, refs: map<string, set<string>>,
                         accepted: set<string>, catalog: Catalog, ref: Option<string>, issues: seq<Issue>)
    returns (out: seq<Issue>)
    ensures issues <= out && (out == issues <==> GoodMethods(v, candidates, bound, refs, accepted, catalog))
  {
    if !v.Obj? {
      return issues + [Issue("invalid-binding", ref, "method bindings must be an object")];
    }
    hide GoodMethod;
    out := issues;
    var rest := v.fields.Keys;
    while rest != {}
      invariant rest <= v.fields.Keys && issues <= out
      invariant out == issues <==> forall k | k in v.fields.Keys - rest ::
                  GoodMethod(k, v.fields[k], candidates, bound, refs, accepted, catalog)
      decreases rest
    {
      var physical :| physical in rest;
      out := ValidateMethod(physical, v.fields[physical], candidates, bound, refs, accepted, catalog, ref, out);
      rest := rest - {physical};
    }
  }

  // ------------------------------------------------------------- observed calls

  predicate GoodBuiltIn(o: Value, bound: set<string>, refs: map<string, set<string>>) {
    IsBuiltIn(o) ==>
      && StrOr(o.At("symbol"), "") in bound
      && StrOr(o.At("resource"), "") in refs && RequiredBinding(o) in refs[StrOr(o.At("resource"), "")]
  }

  /** `validate_required_observations` */
  method ValidateRequired(observations: seq<Value>, bound: set<string>, refs: map<string, set<string>>, ref: Option<string>, issues: seq<Issue>)
    returns (out: seq<Issue>)
    ensures issues <= out && (out == issues <==> forall o | o in observations :: GoodBuiltIn(o, bound, refs))
  {
    out := issues;
    for i := 0 to |observations|
      invariant issues <= out && (out == issues <==> forall o | o in observations[..i] :: GoodBuiltIn(o, bound, refs))
    {
      var o := observations[i];
      assert observations[..i + 1] == observations[..i] + [o];
      assert o in observations[..i + 1] && forall x | x in observations[..i] :: x in observations[..i + 1];
      hide StrOr;
      if IsBuiltIn(o) {
        var symbol, resource := StrOr(o.At("symbol"), ""), StrOr(o.At("resource"), "");
        if symbol !in bound {
          out := out + [Issue("missing-symbol-binding", ref, "observed call requires symbol Binding: " + symbol)];
        }
        if !(resource in refs && RequiredBinding(o) in refs[resource]) {
          out := out + [Issue("missing-resource-logical-ref", ref, "observed call requires resource " + resource)];
        }
      }
    }
    assert observations[..|observations|] == observations;
  }

  predicate GoodOther(o: Value, methods: map<string, Value>, refs: map<string, set<string>>) {
    IsOther(o) && StrOr(o.At("resource"), "") in refs ==> KeyOf(o) in methods
  }

  /** `validate_other_observations` */
  method ValidateOther(observations: seq<Value>, methods: map<string, Value>, refs: map<string, set<string>>, ref: Option<string>, issues: seq<Issue>)
    returns (out: seq<Issue>)
    ensures issues <= out && (out == issues <==> forall o | o in observations :: GoodOther(o, methods, refs))
  {
    out := issues;
    for i := 0 to |observations|
      invariant issues <= out && (out == issues <==> forall o | o in observations[..i] :: GoodOther(o, methods, refs))
    {
      var o := observations[i];
      assert observations[..i + 1] == observations[..i] + [o];
      assert o in observations[..i + 1] && forall x | x in observations[..i] :: x in observations[..i + 1];
      hide StrOr, KeyOf;
      if IsOther(o) && StrOr(o.At("resource"), "") in refs && KeyOf(o) !in methods {
        out := out + [Issue("unsupported-observation", ref, "bound resource has an unclassified observed method: " + KeyOf(o))];
      }
    }
    assert observations[..|observations|] == observations;
  }

  // ---------------------------------------------------------------- unused bindings

  /** A call or candidate that keeps the bindings of its symbol and resource in use. */
  predicate Uses(entry: Value, isCandidate: bool, methods: map<string, Value>) {
    if isCandidate then entry.At("binding_key").Str? && entry.At("binding_key").s in methods
    else !IsOther(entry) || (entry.At("resource").Str? && entry.At("method").Str? && KeyOf(entry) in methods)
  }

  predicate InUse(name: string, field: string, observations: seq<Value>, candidates: seq<Value>, methods: map<string, Value>) {
    || (exists o | o in observations :: Uses(o, false, methods) && o.At(field) == Str(name))
    || (exists c | c in candidates :: Uses(c, true, methods) && c.At(field) == Str(name))
  }

  method CollectUsed(entries: seq<Value>, isCandidate: bool, field: string, methods: map<string, Value>, before: set<string>)
    returns (used: set<string>)
    ensures forall name :: name in used <==>
              name in before || exists e | e in entries :: Uses(e, isCandidate, methods) && e.At(field) == Str(name)
  {
    hide Uses;
    used := before;
    for i := 0 to |entries|
      invariant forall name :: name in used <==>
                  name in before || exists e | e in entries[..i] :: Uses(e, isCandidate, methods) && e.At(field) == Str(name)
    {
      assert entries[..i + 1] == entries[..i] + [entries[i]];
      if Uses(entries[i], isCandidate, methods) && entries[i].At(field).Str? {
        used := used + {entries[i].At(field).s};
      }
    }
    assert entries[..|entries|] == entries;
  }

  method PushUnused(names: set<string>, used: set<string>, what: string, ref: Option<string>, issues: seq<Issue>)
    returns (out: seq<Issue>)
    ensures issues <= out && (out == issues <==> names <= used)
  {
    out := issues;
    var rest := names;
    while rest != {}
      invariant rest <= names && issues <= out && (out == issues <==> names - rest <= used)
      decreases rest
    {
      var name :| name in rest;
      if name !in used {
        out := out + [Issue("unused-binding", ref, what + " Binding has no retained observed call: " + name)];
      }
      rest := rest - {name};
    }
  }

  predicate AllUsed(observations: seq<Value>, candidates: seq<Value>, methods: map<string, Value>, bound: set<string>, refs: map<string, set<string>>) {
    && (forall s | s in bound :: InUse(s, "symbol", observations, candidates, methods))
    && (forall r | r in refs :: InUse(r, "resource", observations, candidates, methods))
  }

  /** `validate_unused_bindings` */
  method ValidateUnused(observations: seq<Value>, candidates: seq<Value>, methods: map<string, Value>, bound: set<string>,
                        refs: map<string, set<string>>, ref: Option<string>, issues: seq<Issue>)
    returns (out: seq<Issue>)
    ensures issues <= out && (out == issues <==> AllUsed(observations, candidates, methods, bound, refs))
  {
    hide Uses;
    var symbols := CollectUsed(observations, false, "symbol", methods, {});
    symbols := CollectUsed(candidates, true, "symbol", methods, symbols);
    var resources := CollectUsed(observations, false, "resource", methods, {});
    resources := CollectUsed(candidates, true, "resource", methods, resources);
    out := PushUnused(bound, symbols, "symbol", ref, issues);
    out := PushUnused(refs.Keys, resources, "resource", ref, out);
    assert forall s :: s in symbols <==> InUse(s, "symbol", observations, candidates, methods);
    assert forall r :: r in resources <==> InUse(r, "resource", observations, candidates, methods);
  }
}
