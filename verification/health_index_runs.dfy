/** Whole runs of the health store: edits and commits, lost or damaged indexes, and loads. */
module HealthIndexRuns {
  import opened Json
  import opened HealthRecords
  import opened ContractHealth
  import opened ContractHealthReport
  import opened HealthIndex
  import opened HealthIndexLaws

  datatype Store = Store(tree: Tree, results: Index, evidence: Index, ignored: bool)

  datatype Event =
    | ChangeTree(tree: Tree)
    | LoseIndex(kind: Kind)
    | DamageIndex(kind: Kind, damaged: Index)
    | SetIgnored(ignored: bool)
    | Load(resultPaths: seq<string>, evidencePaths: seq<string>)

  /** The records that are not indexed, loaded document by document. */
  datatype Documents = Documents(changes: seq<Value>, contracts: seq<Value>, decisions: seq<Value>, repository: Value)

  ghost predicate Listed(tree: Tree, paths: seq<string>) {
    forall path | path in paths :: path in tree.files
  }

  /** Damage is anything the projection digest catches: each entry is one that was there, under
      whatever path, or no longer matches its own digest. */
  ghost predicate Detectable(index: Index, damaged: Index) {
    forall path | path in damaged :: Intact(damaged[path]) ==> damaged[path] in index.Values
  }

  /** The index after a load of these paths. */
  ghost function Written(decode: Decoder, kind: Kind, s: Store, index: Index, paths: seq<string>): Index
    requires Listed(s.tree, paths)
  {
    var previous := if s.ignored then index else map[];
    if LoadWith(decode, kind, s.tree, previous, paths).Err? || !s.ignored then index
    else map path | path in paths && EntryFor(decode, kind, s.tree, previous, path).Ok? ::
           EntryFor(decode, kind, s.tree, previous, path).value
  }

  ghost function Loading(decode: Decoder, kind: Kind, s: Store, paths: seq<string>): Result<Loaded, LoadError>
    requires Listed(s.tree, paths)
  {
    LoadWith(decode, kind, s.tree, if !s.ignored then map[] else if kind == ResultKind then s.results else s.evidence, paths)
  }

  /** One event; a disabled event changes nothing. */
  ghost function Next(decode: Decoder, s: Store, e: Event): Store {
    match e
    case ChangeTree(tree) => s.(tree := tree)
    case LoseIndex(kind) => if kind == ResultKind then s.(results := map[]) else s.(evidence := map[])
    case DamageIndex(kind, damaged) =>
      if kind == ResultKind then (if Detectable(s.results, damaged) then s.(results := damaged) else s)
      else (if Detectable(s.evidence, damaged) then s.(evidence := damaged) else s)
    case SetIgnored(ignored) => s.(ignored := ignored)
    case Load(resultPaths, evidencePaths) =>
      if !Listed(s.tree, resultPaths) || !Listed(s.tree, evidencePaths) then s
      else
        var t := s.(results := Written(decode, ResultKind, s, s.results, resultPaths));
        if Loading(decode, ResultKind, s, resultPaths).Err? then t
        else t.(evidence := Written(decode, EvidenceKind, s, s.evidence, evidencePaths))
  }

  ghost function Run(decode: Decoder, s: Store, es: seq<Event>): Store {
    if es == [] then s else Next(decode, Run(decode, s, es[..|es| - 1]), es[|es| - 1])
  }

  ghost predicate SoundStore(decode: Decoder, s: Store) {
    Sound(decode, ResultKind, s.results) && Sound(decode, EvidenceKind, s.evidence)
  }

  lemma WrittenSound(decode: Decoder, kind: Kind, s: Store, index: Index, paths: seq<string>)
    requires Listed(s.tree, paths) && Sound(decode, kind, index)
    ensures Sound(decode, kind, Written(decode, kind, s, index, paths))
  {
    var previous := if s.ignored then index else map[];
    forall path | path in paths && EntryFor(decode, kind, s.tree, previous, path).Ok?
      ensures Faithful(decode, kind, EntryFor(decode, kind, s.tree, previous, path).value)
    {
      EntryForIsFresh(decode, kind, s.tree, previous, path);
    }
    hide Faithful, EntryFor, Intact;
  }

  lemma DamageSound(decode: Decoder, kind: Kind, index: Index, damaged: Index)
    requires Sound(decode, kind, index) && Detectable(index, damaged)
    ensures Sound(decode, kind, damaged)
  {
    hide Faithful, Intact;
    forall path | path in damaged && Intact(damaged[path]) ensures Faithful(decode, kind, damaged[path]) {
      assert damaged[path] in index.Values;
      var q :| q in index && index[q] == damaged[path];
    }
  }

  lemma StepSound(decode: Decoder, s: Store, e: Event)
    requires SoundStore(decode, s)
    ensures SoundStore(decode, Next(decode, s, e))
  {
    match e {
      case ChangeTree(_) =>
      case LoseIndex(_) =>
      case SetIgnored(_) =>
      case DamageIndex(kind, damaged) =>
        if kind == ResultKind && Detectable(s.results, damaged) {
          DamageSound(decode, kind, s.results, damaged);
        }
        if kind == EvidenceKind && Detectable(s.evidence, damaged) {
          DamageSound(decode, kind, s.evidence, damaged);
        }
      case Load(resultPaths, evidencePaths) =>
        if Listed(s.tree, resultPaths) && Listed(s.tree, evidencePaths) {
          WrittenSound(decode, ResultKind, s, s.results, resultPaths);
          WrittenSound(decode, EvidenceKind, s, s.evidence, evidencePaths);
        }
    }
  }

  /** Every entry that could be reused says what the bytes of its identity say, over every run. */
  lemma {:induction false} RunsStaySound(decode: Decoder, s: Store, es: seq<Event>)
    requires SoundStore(decode, s)
    ensures SoundStore(decode, Run(decode, s, es))
  {
    if es != [] {
      RunsStaySound(decode, s, es[..|es| - 1]);
      StepSound(decode, Run(decode, s, es[..|es| - 1]), es[|es| - 1]);
    }
  }

  // ------------------------------------------------------------ what a load delivers

  /** The records as the files hold them. */
  ghost function Originals(decode: Decoder, kind: Kind, files: map<string, Bytes>, paths: seq<string>): Option<seq<Value>>
    requires forall path | path in paths :: path in files
  {
    if paths == [] then Some([])
    else
      var before := Originals(decode, kind, files, paths[..|paths| - 1]);
      var last := decode(kind, files[paths[|paths| - 1]]);
      if before.None? || last.None? then None else Some(before.value + [last.value])
  }

  /** The records an index can hold: they have digests and, for Results, can be compacted. */
  ghost predicate Indexable(kind: Kind, records: seq<Value>) {
    && UniqueIds(records)
    && forall i | 0 <= i < |records| :: Canonical(records[i]) && Projection(kind, records[i]).Some?
  }

  /** What loading delivers for a list of original records. */
  ghost predicate Delivers(kind: Kind, records: seq<Value>, loaded: Loaded) {
    && |loaded.records| == |records|
    && (forall i | 0 <= i < |records| :: Projection(kind, records[i]) == Some(loaded.records[i]))
    && DigestsOf(loaded.digests, records)
    && (forall id | id in loaded.digests :: exists i | 0 <= i < |records| :: IdOf(records[i]) == Some(id))
  }

  lemma CompactCanonical(result: Value)
    requires Canonical(result) && CompactResult(result).Some?
    ensures Canonical(CompactResult(result).value)
  {
    if result.Obj? && result.At("payload").Obj? && result.At("payload").At("outcomes").Arr? {
      var outcomes := result.At("payload").At("outcomes").items;
      assert Canonical(result.At("payload"));
      assert Canonical(result.At("payload").At("outcomes"));
      forall i | 0 <= i < |outcomes| ensures Canonical(CompactAll(outcomes, result)[i]) {
        assert Canonical(outcomes[i]);
        OutcomeCanonical(outcomes[i], result);
      }
      assert Canonical(Arr(CompactAll(outcomes, result)));
    }
    PayloadCanonical(result);
  }

  lemma OutcomeCanonical(o: Value, result: Value)
    requires Canonical(o)
    ensures Canonical(CompactOutcome(o, result))
  {}

  lemma PayloadCanonical(result: Value)
    requires Canonical(result) && CompactResult(result).Some?
    requires result.Obj? && result.At("payload").Obj? && result.At("payload").At("outcomes").Arr? ==>
               Canonical(Arr(CompactAll(result.At("payload").At("outcomes").items, result)))
    ensures Canonical(CompactResult(result).value)
  {
    hide CompactAll;
    var outer := IndexMut(result, "payload").value;
    var payload := IndexMut(outer.At("payload"), "outcomes").value;
    assert Canonical(Null);
    assert Canonical(outer);
    assert Canonical(outer.At("payload"));
    assert Canonical(payload);
    assert Canonical(payload.At("outcomes"));
    var compacted := if payload.At("outcomes").Arr? then Arr(CompactAll(payload.At("outcomes").items, result)) else payload.At("outcomes");
    assert Canonical(compacted);
    assert Canonical(Obj(payload.fields["outcomes" := compacted]));
  }

  lemma ProjectionCanonical(kind: Kind, original: Value)
    requires Canonical(original) && Projection(kind, original).Some?
    ensures Canonical(Projection(kind, original).value) && IdOf(Projection(kind, original).value) == IdOf(original)
  {
    if kind == ResultKind {
      CompactCanonical(original);
      CompactKeepsFields(original);
    }
  }

  lemma {:induction false} LoadAfreshMeaning(decode: Decoder, kind: Kind, files: map<string, Bytes>, paths: seq<string>)
    requires forall path | path in paths :: path in files
    ensures LoadAfresh(decode, kind, files, paths).Ok? <==>
            Originals(decode, kind, files, paths).Some? && Indexable(kind, Originals(decode, kind, files, paths).value)
    ensures LoadAfresh(decode, kind, files, paths).Ok? ==>
            Delivers(kind, Originals(decode, kind, files, paths).value, LoadAfresh(decode, kind, files, paths).value)
  {
    if paths != [] {
      var before, path := paths[..|paths| - 1], paths[|paths| - 1];
      LoadAfreshMeaning(decode, kind, files, before);
      var original := decode(kind, files[path]);
      if Originals(decode, kind, files, before).Some? && original.Some? {
        var records := Originals(decode, kind, files, before).value;
        FreshEntryMeaning(decode, kind, files[path], original.value);
        IndexableAppend(kind, records, original.value);
        if LoadAfresh(decode, kind, files, before).Ok? {
          AddMeaning(decode, kind, records, LoadAfresh(decode, kind, files, before).value, files[path], original.value);
        }
      }
      hide FreshEntry, Indexable, Delivers, AddEntry;
    }
  }

  lemma FreshEntryMeaning(decode: Decoder, kind: Kind, bytes: Bytes, original: Value)
    requires decode(kind, bytes) == Some(original)
    ensures FreshEntry(decode, kind, Sha(bytes), bytes).Ok? <==> Canonical(original) && Projection(kind, original).Some?
    ensures FreshEntry(decode, kind, Sha(bytes), bytes).Ok? ==>
              var entry := FreshEntry(decode, kind, Sha(bytes), bytes).value;
              && Some(entry.record) == Projection(kind, original) && entry.recordDigest == Digest(original)
              && IdOf(entry.record) == IdOf(original)
  {
    if Canonical(original) && Projection(kind, original).Some? {
      ProjectionCanonical(kind, original);
    }
    hide Projection, Canonical;
  }

  lemma IndexableAppend(kind: Kind, records: seq<Value>, record: Value)
    ensures Indexable(kind, records + [record]) <==>
            && Indexable(kind, records) && Canonical(record) && Projection(kind, record).Some?
            && IdOf(record).Some? && forall i | 0 <= i < |records| :: IdOf(records[i]) != IdOf(record)
  {
    hide Projection, Canonical;
    var all := records + [record];
    assert forall i | 0 <= i < |records| :: all[i] == records[i];
    assert all[|records|] == record;
    if Indexable(kind, all) {
      assert forall i | 0 <= i < |records| :: IdOf(all[i]) != IdOf(all[|records|]);
    }
  }

  lemma AddMeaning(decode: Decoder, kind: Kind, records: seq<Value>, loaded: Loaded, bytes: Bytes, original: Value)
    requires decode(kind, bytes) == Some(original)
    requires Indexable(kind, records) && Delivers(kind, records, loaded)
    ensures var entry := FreshEntry(decode, kind, Sha(bytes), bytes);
            entry.Ok? ==>
              && (AddEntry(loaded, entry.value).Ok? <==> Indexable(kind, records + [original]))
              && (AddEntry(loaded, entry.value).Ok? ==> Delivers(kind, records + [original], AddEntry(loaded, entry.value).value))
  {
    FreshEntryMeaning(decode, kind, bytes, original);
    IndexableAppend(kind, records, original);
    hide FreshEntry, Projection, Canonical;
    var entry := FreshEntry(decode, kind, Sha(bytes), bytes);
    if entry.Ok? && IdOf(original).Some? {
      var id := IdOf(original).value;
      assert id in loaded.digests <==> exists i | 0 <= i < |records| :: IdOf(records[i]) == Some(id);
      if id !in loaded.digests {
        AddDelivers(kind, records, loaded, entry.value, original);
      }
    }
  }

  lemma AddDelivers(kind: Kind, records: seq<Value>, loaded: Loaded, entry: Entry, original: Value)
    requires Delivers(kind, records, loaded)
    requires Some(entry.record) == Projection(kind, original) && entry.recordDigest == Digest(original) && Canonical(original)
    requires IdOf(entry.record) == IdOf(original) && IdOf(original).Some? && IdOf(original).value !in loaded.digests
    ensures AddEntry(loaded, entry).Ok? && Delivers(kind, records + [original], AddEntry(loaded, entry).value)
  {
    hide Projection, Canonical, IdOf;
    var id := IdOf(original).value;
    var all := records + [original];
    var later := AddEntry(loaded, entry).value;
    forall i | 0 <= i < |all|
      ensures IdOf(all[i]).Some? && Lookup(later.digests, IdOf(all[i]).value) == Some(Digest(all[i]))
    {
      if i < |records| {
        assert all[i] == records[i];
        assert Lookup(loaded.digests, IdOf(records[i]).value) == Some(Digest(records[i]));
      }
    }
    forall x | x in later.digests ensures exists i | 0 <= i < |all| :: IdOf(all[i]) == Some(x) {
      if x == id {
        assert IdOf(all[|records|]) == Some(x);
      } else {
        var i :| 0 <= i < |records| && IdOf(records[i]) == Some(x);
        assert IdOf(all[i]) == Some(x);
      }
    }
  }

  // ----------------------------------------------------------------- transparency

  /** `repository_project_for_health`: the project and digest map the report is built from. */
  ghost function HealthInputs(decode: Decoder, s: Store, resultPaths: seq<string>, evidencePaths: seq<string>, docs: Documents)
    : Result<(Project, map<string, Value>), LoadError>
    requires Listed(s.tree, resultPaths) && Listed(s.tree, evidencePaths)
  {
    match Loading(decode, ResultKind, s, resultPaths)
    case Err(e) => Err(e)
    case Ok(results) =>
      match Loading(decode, EvidenceKind, s, evidencePaths)
      case Err(e) => Err(e)
      case Ok(evidence) =>
        if results.digests.Keys * evidence.digests.Keys != {} then Err(LoadError.DuplicateId)
        else Ok((Project(docs.changes, docs.contracts, docs.decisions, results.records, evidence.records, docs.repository),
                 results.digests + evidence.digests))
  }

  /** The project every file of which is decoded afresh and nothing is compacted. */
  ghost function FreshProject(decode: Decoder, s: Store, resultPaths: seq<string>, evidencePaths: seq<string>, docs: Documents)
    : Option<Project>
    requires Listed(s.tree, resultPaths) && Listed(s.tree, evidencePaths)
  {
    match Originals(decode, ResultKind, s.tree.files, resultPaths)
    case None => None
    case Some(results) =>
      match Originals(decode, EvidenceKind, s.tree.files, evidencePaths)
      case None => None
      case Some(evidence) =>
        Some(Project(docs.changes, docs.contracts, docs.decisions, results, evidence, docs.repository))
  }

  ghost predicate SharesNoId(xs: seq<Value>, ys: seq<Value>) {
    forall i, j | 0 <= i < |xs| && 0 <= j < |ys| :: IdOf(xs[i]).Some? ==> IdOf(xs[i]) != IdOf(ys[j])
  }

  /** The records of a project that can be indexed and have distinct IDs across collections. */
  ghost predicate WellIdentified(p: Project) {
    && Indexable(ResultKind, p.results) && Indexable(EvidenceKind, p.evidence)
    && SharesNoId(p.results, p.evidence)
    && SharesNoId(p.changes, p.results + p.evidence)
    && SharesNoId(p.contracts, p.results + p.evidence)
    && SharesNoId(p.decisions, p.results + p.evidence)
  }

  lemma SoundLoading(decode: Decoder, kind: Kind, s: Store, paths: seq<string>)
    requires SoundStore(decode, s) && Listed(s.tree, paths)
    ensures Loading(decode, kind, s, paths) == LoadAfresh(decode, kind, s.tree.files, paths)
  {
    hide Faithful;
    var index := if !s.ignored then map[] else if kind == ResultKind then s.results else s.evidence;
    IndexIsTransparent(decode, kind, s.tree, index, paths);
  }

  /** The inputs exist exactly when every file decodes to an indexable record and no Result
      shares its ID with Evidence; they are then the compacted project and its digests. */
  lemma InputsMeaning(decode: Decoder, s: Store, resultPaths: seq<string>, evidencePaths: seq<string>, docs: Documents)
    requires SoundStore(decode, s) && Listed(s.tree, resultPaths) && Listed(s.tree, evidencePaths)
    ensures var inputs, decoded := HealthInputs(decode, s, resultPaths, evidencePaths, docs),
                                 FreshProject(decode, s, resultPaths, evidencePaths, docs);
            && (inputs.Ok? <==>
                  && decoded.Some? && Indexable(ResultKind, decoded.value.results) && Indexable(EvidenceKind, decoded.value.evidence)
                  && SharesNoId(decoded.value.results, decoded.value.evidence))
            && (inputs.Ok? ==>
                  && Compactable(decoded.value.results) && inputs.value.0 == CompactProject(decoded.value)
                  && DigestsOf(inputs.value.1, decoded.value.results) && DigestsOf(inputs.value.1, decoded.value.evidence)
                  && (forall id | id in inputs.value.1 ::
                        exists i | 0 <= i < |decoded.value.results + decoded.value.evidence| ::
                          IdOf((decoded.value.results + decoded.value.evidence)[i]) == Some(id)))
  {
    SoundLoading(decode, ResultKind, s, resultPaths);
    SoundLoading(decode, EvidenceKind, s, evidencePaths);
    LoadAfreshMeaning(decode, ResultKind, s.tree.files, resultPaths);
    LoadAfreshMeaning(decode, EvidenceKind, s.tree.files, evidencePaths);
    var r, e := LoadAfresh(decode, ResultKind, s.tree.files, resultPaths), LoadAfresh(decode, EvidenceKind, s.tree.files, evidencePaths);
    if r.Ok? && e.Ok? {
      var results, evidence := Originals(decode, ResultKind, s.tree.files, resultPaths).value,
                               Originals(decode, EvidenceKind, s.tree.files, evidencePaths).value;
      KeysDisjointIff(results, evidence, r.value, e.value);
      if r.value.digests.Keys * e.value.digests.Keys == {} {
        DigestsUnion(results, evidence, r.value, e.value);
        CompactedRecords(results, r.value);
        EvidenceRecords(evidence, e.value);
      }
    }
    hide SoundStore, Loading, Indexable, Delivers, LoadAfresh, Originals, CompactResults, DigestsOf, SharesNoId, Compactable;
  }

  lemma KeysDisjointIff(results: seq<Value>, evidence: seq<Value>, r: Loaded, e: Loaded)
    requires Delivers(ResultKind, results, r) && Delivers(EvidenceKind, evidence, e)
    ensures r.digests.Keys * e.digests.Keys == {} <==> SharesNoId(results, evidence)
  {
    hide Projection, Canonical, IdOf;
    if id :| id in r.digests.Keys * e.digests.Keys {
      var i :| 0 <= i < |results| && IdOf(results[i]) == Some(id);
      var j :| 0 <= j < |evidence| && IdOf(evidence[j]) == Some(id);
    }
    forall i, j | 0 <= i < |results| && 0 <= j < |evidence| && IdOf(results[i]) == IdOf(evidence[j])
      ensures r.digests.Keys * e.digests.Keys != {}
    {
      assert IdOf(results[i]).value in r.digests.Keys * e.digests.Keys;
    }
  }

  lemma DigestsUnion(results: seq<Value>, evidence: seq<Value>, r: Loaded, e: Loaded)
    requires Delivers(ResultKind, results, r) && Delivers(EvidenceKind, evidence, e)
    requires r.digests.Keys * e.digests.Keys == {}
    ensures DigestsOf(r.digests + e.digests, results) && DigestsOf(r.digests + e.digests, evidence)
    ensures forall id | id in r.digests + e.digests ::
              exists i | 0 <= i < |results + evidence| :: IdOf((results + evidence)[i]) == Some(id)
  {
    hide Projection, Canonical, IdOf;
    var all := r.digests + e.digests;
    forall i | 0 <= i < |results| ensures Lookup(all, IdOf(results[i]).value) == Some(Digest(results[i])) {
      assert IdOf(results[i]).value in r.digests;
      assert IdOf(results[i]).value !in r.digests.Keys * e.digests.Keys;
    }
    forall id | id in all ensures exists i | 0 <= i < |results + evidence| :: IdOf((results + evidence)[i]) == Some(id) {
      if id in r.digests {
        var i :| 0 <= i < |results| && IdOf(results[i]) == Some(id);
        assert (results + evidence)[i] == results[i];
      } else {
        var i :| 0 <= i < |evidence| && IdOf(evidence[i]) == Some(id);
        assert (results + evidence)[|results| + i] == evidence[i];
      }
    }
  }

  lemma CompactedRecords(results: seq<Value>, r: Loaded)
    requires Delivers(ResultKind, results, r)
    ensures Compactable(results) && r.records == CompactResults(results)
  {
    hide CompactResult, Canonical, IdOf;
    forall x | x in results ensures CompactResult(x).Some? {
      var i :| 0 <= i < |results| && results[i] == x;
      assert Projection(ResultKind, results[i]).Some?;
    }
    forall i | 0 <= i < |results| ensures r.records[i] == CompactResults(results)[i] {
      assert Projection(ResultKind, results[i]) == Some(r.records[i]);
    }
  }

  lemma EvidenceRecords(evidence: seq<Value>, e: Loaded)
    requires Delivers(EvidenceKind, evidence, e)
    ensures e.records == evidence
  {
    hide Canonical, IdOf;
    forall i | 0 <= i < |evidence| ensures e.records[i] == evidence[i] {
      assert Projection(EvidenceKind, evidence[i]) == Some(e.records[i]);
    }
  }

  /** Over every run, the cached and compacted inputs exist and give the very report that
      decoding every file afresh and compacting nothing gives, for records with distinct IDs.  It
      can be built exactly when the other can be built by a registry that judges Results in
      compacted form, which is the same wherever the registry judges both forms alike. */
  lemma HealthIndexIsTransparent(
    decode: Decoder, valid: Registry, s: Store, es: seq<Event>,
    resultPaths: seq<string>, evidencePaths: seq<string>, docs: Documents)
    requires SoundStore(decode, s)
    requires var t := Run(decode, s, es);
             && Listed(t.tree, resultPaths) && Listed(t.tree, evidencePaths)
             && FreshProject(decode, t, resultPaths, evidencePaths, docs).Some?
    requires var p := FreshProject(decode, Run(decode, s, es), resultPaths, evidencePaths, docs).value;
             WellIdentified(p)
    ensures var t := Run(decode, s, es);
            var p := FreshProject(decode, t, resultPaths, evidencePaths, docs).value;
            var inputs := HealthInputs(decode, t, resultPaths, evidencePaths, docs);
            && inputs.Ok?
            && (Reportable(inputs.value.0, valid, inputs.value.1) <==> Reportable(p, OnCompacted(valid), map[]))
            && Compactable(p.results)
            && (VerdictsAgree(p, valid) ==> (Reportable(inputs.value.0, valid, inputs.value.1) <==> Reportable(p, valid, map[])))
            && forall r :: Describes(inputs.value.0, inputs.value.1, r) <==> Describes(p, map[], r)
  {
    RunsStaySound(decode, s, es);
    var t := Run(decode, s, es);
    InputsMeaning(decode, t, resultPaths, evidencePaths, docs);
    var p := FreshProject(decode, t, resultPaths, evidencePaths, docs).value;
    var inputs := HealthInputs(decode, t, resultPaths, evidencePaths, docs);
    OutsideIds(p.changes, p.results + p.evidence, inputs.value.1);
    OutsideIds(p.contracts, p.results + p.evidence, inputs.value.1);
    OutsideIds(p.decisions, p.results + p.evidence, inputs.value.1);
    CompactedReportIsTheReport(p, valid, inputs.value.1);
  }

  lemma OutsideIds(records: seq<Value>, indexed: seq<Value>, known: map<string, Value>)
    requires SharesNoId(records, indexed)
    requires forall id | id in known :: exists i | 0 <= i < |indexed| :: IdOf(indexed[i]) == Some(id)
    ensures OutsideOf(known, records)
  {
    hide IdOf;
  }
}
