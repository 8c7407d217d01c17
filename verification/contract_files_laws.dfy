/** What the locked file store keeps, over every interleaving of its writers. */
module ContractFilesLaws {
  import opened Json
  import opened ContractMerge
  import opened ContractMergeLaws
  import opened ContractStore
  import opened ContractStoreLaws
  import opened ContractFiles

  // -------------------------------------------------------- the one way to lose a record

  /** The document a new record would be written to already holds another record. */
  predicate Occupied(files: Files, id: string, preferred: Extension) {
    Matches(files, id) == {} && Path([], id, preferred) in files
  }

  /** The request creates a record in the document that holds the record `id`. */
  predicate TakesDocument(files: Files, q: Request, preferred: Extension, id: string)
    requires LockedRequest(q)
  {
    && IdOf(Sent(q)).Some? && IdOf(Sent(q)) != Some(id)
    && Occupied(files, IdOf(Sent(q)).value, preferred)
    && Carries(files[Path([], IdOf(Sent(q)).value, preferred)], id)
  }

  ghost predicate KeepsOtherRecords(before: Files, later: Files, id: string) {
    forall p | p in before && !Carries(before[p], id) :: p in later && later[p] == before[p]
  }

  /** What a successful write leaves: its own record in one document, and every other document
      as it was, except the one it was written to. */
  lemma WriteMeaning(valid: Registry, preferred: Extension, files: Files, q: Request)
    requires LockedRequest(q) && FileApply(valid, preferred, files, q).Ok?
    ensures IdOf(Sent(q)).Some?
    ensures var id := IdOf(Sent(q)).value;
            var later, written := FileAfter(valid, preferred, files, q), Written(valid, Stored(files, id), q);
            && Matches(files, id) in {{}, {Target(files, id, preferred)}}
            && written.Ok? && IdOf(written.value) == Some(id)
            && later == files[Target(files, id, preferred) := Holds(written.value)]
            && Matches(later, id) == {Target(files, id, preferred)}
            && Stored(later, id) == Some(written.value)
  {
    var id := IdOf(Sent(q)).value;
    var written := Written(valid, Stored(files, id), q).value;
    if q.UpsertContractClauses? {
      MergedKeepsId(Stored(files, id).value, q.patch, q.clauseDigests);
    }
    if Matches(files, id) != {} {
      var some :| some in Matches(files, id);
      assert |Matches(files, id) - {some}| == |Matches(files, id)| - 1;
      OnlyMember(Matches(files, id), some);
    }
    var target := Target(files, id, preferred);
    var later := files[target := Holds(written)];
    assert Matches(later, id) == {target};
    OnlyMember(Matches(later, id), target);
  }

  /** A successful write keeps every other record exactly when its document is not occupied. */
  lemma WriteKeepsOtherRecordsIff(valid: Registry, preferred: Extension, files: Files, q: Request)
    requires LockedRequest(q) && FileApply(valid, preferred, files, q).Ok?
    ensures IdOf(Sent(q)).Some?
    ensures KeepsOtherRecords(files, FileAfter(valid, preferred, files, q), IdOf(Sent(q)).value) <==>
            !Occupied(files, IdOf(Sent(q)).value, preferred)
  {
    WriteMeaning(valid, preferred, files, q);
    hide FileApply, Written;
    var id := IdOf(Sent(q)).value;
    var target := Target(files, id, preferred);
    if target in files && !Carries(files[target], id) {
      assert target !in Matches(files, id);
    }
  }

  /** What a write leaves under the ID of another record: nothing exactly when it takes that
      record's document. */
  lemma OtherStoredAfter(valid: Registry, preferred: Extension, files: Files, q: Request, id: string)
    requires LockedRequest(q) && FileApply(valid, preferred, files, q).Ok?
    requires Stored(files, id).Some? && IdOf(Sent(q)) != Some(id)
    ensures Stored(FileAfter(valid, preferred, files, q), id) ==
            if TakesDocument(files, q, preferred, id) then None else Stored(files, id)
  {
    WriteMeaning(valid, preferred, files, q);
    hide FileApply, Written, LockedRequest, Sent, ContractGuard, RecordGuard;
    var own := IdOf(Sent(q)).value;
    var later, target := FileAfter(valid, preferred, files, q), Target(files, own, preferred);
    var path := Only(Matches(files, id));
    assert path in Matches(files, id);
    OnlyMember(Matches(files, id), path);
    assert !Carries(later[target], id);
    forall p | p in Matches(later, id) ensures p == path && p != target {
      assert p in Matches(files, id);
    }
    if path == target {
      assert path !in Matches(files, own);
      assert Matches(files, own) == {} && target == Path([], own, preferred);
      assert Matches(later, id) == {};
    } else {
      assert Matches(later, id) == {path};
      OnlyMember(Matches(later, id), path);
      assert target !in Matches(files, id);
    }
  }

  /** A concrete loss: `a.md` holds record `b`; creating record `a` without an expected digest
      succeeds and record `b` is gone. */
  lemma OccupiedDocumentLosesRecord(valid: Registry)
    requires valid("contract", Obj(map["id" := Str("a")]))
    ensures var files := map[Path([], "a", Markdown) := Holds(Obj(map["id" := Str("b")]))];
            var q := UpsertContract(Obj(map["id" := Str("a")]), None);
            && Stored(files, "b").Some?
            && FileApply(valid, Markdown, files, q).Ok?
            && Stored(FileAfter(valid, Markdown, files, q), "b").None?
  {
    var a, b := Obj(map["id" := Str("a")]), Obj(map["id" := Str("b")]);
    var path := Path([], "a", Markdown);
    var files := map[path := Holds(b)];
    assert Matches(files, "b") == {path};
    OnlyMember(Matches(files, "b"), path);
    assert Matches(files, "a") == {};
    assert "a"[1..] == "";
    var later := files[path := Holds(a)];
    assert Matches(later, "b") == {};
  }

  // ------------------------------------------------------------ who overwrites what

  /** A request with the format that a new document would take when it is written. */
  datatype Write = Write(request: Request, preferred: Extension)

  ghost function StoredClause(files: Files, id: string, clause: string): Option<Value> {
    match Stored(files, id)
    case None => None
    case Some(record) => Find(record.At("clauses").Elements(), clause)
  }

  /** A Decision is replaced only by a request that carries its digest. */
  predicate NamesDecision(q: Request, id: string, record: Value) {
    q.UpsertDecision? && IdOf(q.decision) == Some(id) && q.decisionDigest == Some(Digest(record))
  }

  /** The ways in which a stored clause can be overwritten. */
  ghost predicate OverwritesClause(files: Files, w: Write, id: string, clause: string, value: Value)
    requires Stored(files, id).Some?
  {
    && LockedRequest(w.request) && !w.request.UpsertDecision?
    && (|| NamesClause(w.request, id, clause, value)
        || NamesRecord(w.request, id, Stored(files, id).value)
        || ReplacesBlindly(w.request, id, Stored(files, id).value)
        || TakesDocument(files, w.request, w.preferred, id))
  }

  /** The ways in which a stored Decision can be overwritten. */
  ghost predicate OverwritesDecision(files: Files, w: Write, id: string, record: Value) {
    w.request.UpsertDecision? && (NamesDecision(w.request, id, record) || TakesDocument(files, w.request, w.preferred, id))
  }

  /** A write that removes or replaces a stored clause, in whatever documents, names the clause or
      the record that holds it, or takes its document. */
  lemma ClauseOverwriteIsNamed(valid: Registry, files: Files, w: Write, id: string, clause: string)
    requires LockedRequest(w.request) && !w.request.UpsertDecision?
    requires StoredClause(files, id, clause).Some?
    requires StoredClause(FileAfter(valid, w.preferred, files, w.request), id, clause) != StoredClause(files, id, clause)
    ensures OverwritesClause(files, w, id, clause, StoredClause(files, id, clause).value)
  {
    var q := w.request;
    if IdOf(Sent(q)) != Some(id) {
      OtherStoredAfter(valid, w.preferred, files, q, id);
    } else {
      WriteMeaning(valid, w.preferred, files, q);
      hide FileApply, Stored, Matches, Target;
      var record := Stored(files, id).value;
      if q.UpsertContractClauses? {
        MergeRecordMeaning(record, q.patch, q.clauseDigests);
        assert Decide(record.At("clauses").items, q.patch.At("clauses").items, q.clauseDigests, clause).Ok?;
      }
    }
  }

  /** The ways in which the metadata of a stored Contract can be overwritten. */
  ghost predicate OverwritesMetadata(files: Files, w: Write, id: string)
    requires Stored(files, id).Some?
  {
    && w.request.UpsertContract?
    && (|| NamesRecord(w.request, id, Stored(files, id).value)
        || ReplacesBlindly(w.request, id, Stored(files, id).value)
        || TakesDocument(files, w.request, w.preferred, id))
  }

  lemma MetadataOverwriteOnDisk(valid: Registry, files: Files, w: Write, id: string)
    requires LockedRequest(w.request) && !w.request.UpsertDecision?
    requires Metadata(Stored(files, id)).Some?
    requires Metadata(Stored(FileAfter(valid, w.preferred, files, w.request), id)) != Metadata(Stored(files, id))
    ensures OverwritesMetadata(files, w, id)
  {
    var q := w.request;
    WriteMeaning(valid, w.preferred, files, q);
    if IdOf(Sent(q)) != Some(id) {
      OtherStoredAfter(valid, w.preferred, files, q, id);
    } else if q.UpsertContractClauses? {
      MergeRecordMeaning(Stored(files, id).value, q.patch, q.clauseDigests);
    }
  }

  lemma DecisionOverwriteIsNamed(valid: Registry, files: Files, w: Write, id: string)
    requires w.request.UpsertDecision?
    requires Stored(files, id).Some?
    requires Stored(FileAfter(valid, w.preferred, files, w.request), id) != Stored(files, id)
    ensures OverwritesDecision(files, w, id, Stored(files, id).value)
  {
    if IdOf(Sent(w.request)) != Some(id) {
      OtherStoredAfter(valid, w.preferred, files, w.request, id);
    }
  }

  // --------------------------------------------------------------- refinement under Tidy

  /** Every document can be loaded and is named after its record, and no record has two documents. */
  ghost predicate Tidy(files: Files) {
    && Loadable(files)
    && (forall p | p in files :: Carries(files[p], p.stem))
    && (forall p, p' | p in files && p' in files :: p.stem == p'.stem ==> p == p')
  }

  lemma TidyMatches(files: Files, id: string)
    requires Tidy(files)
    ensures |Matches(files, id)| <= 1
    ensures forall p | p in files && p.stem == id :: Matches(files, id) == {p} && Stored(files, id) == Some(files[p].record)
    ensures (forall p | p in files :: p.stem != id) ==> Matches(files, id) == {} && Stored(files, id) == None
  {
    if Matches(files, id) != {} {
      var p :| p in Matches(files, id);
      assert Matches(files, id) == {p};
      OnlyMember(Matches(files, id), p);
      assert p.stem == id;
    }
  }

  lemma TidyTarget(files: Files, id: string, preferred: Extension)
    requires Tidy(files)
    ensures Target(files, id, preferred).stem == id
    ensures forall p | p in files && p.stem == id :: p == Target(files, id, preferred)
    ensures !Occupied(files, id, preferred)
  {
    TidyMatches(files, id);
    if p :| p in files && p.stem == id {
      assert Only(Matches(files, id)) in Matches(files, id);
    }
  }

  lemma TidyWrite(files: Files, id: string, preferred: Extension, record: Value)
    requires Tidy(files) && IdOf(record) == Some(id)
    ensures var later := files[Target(files, id, preferred) := Holds(record)];
            && Tidy(later)
            && forall other :: Stored(later, other) == if other == id then Some(record) else Stored(files, other)
  {
    TidyTarget(files, id, preferred);
    var target := Target(files, id, preferred);
    var later := files[target := Holds(record)];
    forall other: string ensures Stored(later, other) == if other == id then Some(record) else Stored(files, other) {
      TidyMatches(later, other);
      TidyMatches(files, other);
      if other == id {
        assert target in later && target.stem == id;
      } else if p :| p in files && p.stem == other {
        assert p in later && later[p] == files[p];
      }
    }
  }

  /** The in-memory store and the documents hold the same records. */
  ghost predicate SameRecords(s: Project, roots: Roots) {
    && (forall id :: ContractOf(s, id) == Stored(roots.contracts, id))
    && (forall id :: DecisionOf(s, id) == Stored(roots.decisions, id))
  }

  ghost predicate TidyRoots(roots: Roots) {
    Tidy(roots.contracts) && Tidy(roots.decisions)
  }

  /** The registry of the in-memory store that also refuses the IDs that make no file name. */
  function Named(valid: Registry): Registry {
    (kind: string, record: Value) => valid(kind, record) && (IdOf(record).Some? ==> SafeId(IdOf(record).value))
  }

  /** A tidy file decides as the record list does. */
  lemma SameVerdict(valid: Registry, s: Project, roots: Roots, w: Write)
    requires LockedRequest(w.request) && TidyRoots(roots) && SameRecords(s, roots)
    requires IdOf(Sent(w.request)).Some?
    ensures FileApply(valid, w.preferred, RootOf(roots, w.request), w.request).Ok? <==> Apply(Named(valid), s, w.request).Ok?
  {
    var q, id := w.request, IdOf(Sent(w.request)).value;
    assert Sent(q).At("id") == Str(id);
    var stored := Stored(RootOf(roots, q), id);
    TidyMatches(RootOf(roots, q), id);
    assert stored == if q.UpsertDecision? then DecisionOf(s, id) else ContractOf(s, id);
    if q.UpsertContractClauses? && MergeRecord(stored, q.patch, q.clauseDigests).Ok? {
      MergedKeepsId(stored.value, q.patch, q.clauseDigests);
    }
  }

  /** On tidy documents the file store accepts the requests the in-memory store accepts, and
      both hold the same records afterwards. */
  lemma FilesRefineMemory(valid: Registry, s: Project, roots: Roots, w: Write)
    requires LockedRequest(w.request) && TidyRoots(roots) && SameRecords(s, roots)
    ensures FileApply(valid, w.preferred, RootOf(roots, w.request), w.request).Ok? <==> Apply(Named(valid), s, w.request).Ok?
    ensures TidyRoots(RootsAfter(valid, w.preferred, roots, w.request))
    ensures SameRecords(After(Named(valid), s, w.request), RootsAfter(valid, w.preferred, roots, w.request))
  {
    var q, record := w.request, Sent(w.request);
    var files := RootOf(roots, q);
    if IdOf(record).Some? {
      var id := IdOf(record).value;
      assert record.At("id") == Str(id);
      SameVerdict(valid, s, roots, w);
      TidyMatches(files, id);
      if FileApply(valid, w.preferred, files, q).Ok? {
        WriteMeaning(valid, w.preferred, files, q);
        TidyWrite(files, id, w.preferred, Written(valid, Stored(files, id), q).value);
        forall other: string
          ensures ContractOf(After(Named(valid), s, q), other) == Stored(RootsAfter(valid, w.preferred, roots, q).contracts, other)
          ensures DecisionOf(After(Named(valid), s, q), other) == Stored(RootsAfter(valid, w.preferred, roots, q).decisions, other)
        {
          ContractAfter(Named(valid), s, q, other);
          DecisionAfter(Named(valid), s, q, other);
        }
      }
    }
  }

  /** The documents after a run of writes, one after another. */
  ghost function Serial(valid: Registry, roots: Roots, ws: seq<Write>): Roots {
    if ws == [] then roots
    else
      var before, w := Serial(valid, roots, ws[..|ws| - 1]), ws[|ws| - 1];
      if LockedRequest(w.request) then RootsAfter(valid, w.preferred, before, w.request) else before
  }

  function Requests(ws: seq<Write>): seq<Request> {
    seq(|ws|, i requires 0 <= i < |ws| => ws[i].request)
  }

  /** The refinement over whole runs. */
  lemma {:induction false} FileRunsRefineMemory(valid: Registry, s: Project, roots: Roots, ws: seq<Write>)
    requires TidyRoots(roots) && SameRecords(s, roots) && forall w | w in ws :: LockedRequest(w.request)
    ensures TidyRoots(Serial(valid, roots, ws))
    ensures SameRecords(Run(Named(valid), s, Requests(ws)), Serial(valid, roots, ws))
  {
    hide TidyRoots, SameRecords, Named, After, RootsAfter, LockedRequest;
    if ws != [] {
      var before := ws[..|ws| - 1];
      FileRunsRefineMemory(valid, s, roots, before);
      assert Requests(ws)[..|ws| - 1] == Requests(before);
      FilesRefineMemory(valid, Run(Named(valid), s, Requests(before)), Serial(valid, roots, before), ws[|ws| - 1]);
    }
  }

  // ------------------------------------------------------- writers under the update lock

  /** Where one writer stands between asking for the lock and releasing it. */
  datatype Phase =
    | Idle
    | Waiting(q: Request)
    | Locked(q: Request)
    | Loaded(q: Request, snapshot: Roots)
    | Finished

  datatype System = System(roots: Roots, holder: Option<nat>, phases: map<nat, Phase>)

  datatype Event =
    | Ask(p: nat, q: Request)
    | Acquire(p: nat)
    | Load(p: nat)
    | Replace(p: nat, preferred: Extension)
    | Fail(p: nat)
    | Release(p: nat)
    | Crash(p: nat)

  function PhaseOf(s: System, p: nat): Phase {
    if p in s.phases then s.phases[p] else Idle
  }

  /** The rename computed from what was loaded: it replaces one document of the current files. */
  ghost function Renamed(valid: Registry, preferred: Extension, files: Files, snapshot: Files, q: Request): Files
    requires LockedRequest(q)
  {
    match FileApply(valid, preferred, snapshot, q)
    case Err(_) => files
    case Ok(later) =>
      var target := Target(snapshot, IdOf(Sent(q)).value, preferred);
      if target in later then files[target := later[target]] else files
  }

  /** One event; an event that is not enabled changes nothing. */
  ghost function Next(valid: Registry, s: System, e: Event): System {
    match e
    case Ask(p, q) =>
      if PhaseOf(s, p).Idle? && LockedRequest(q) then s.(phases := s.phases[p := Waiting(q)]) else s
    case Acquire(p) =>
      if PhaseOf(s, p).Waiting? && s.holder.None?
      then s.(holder := Some(p), phases := s.phases[p := Locked(PhaseOf(s, p).q)]) else s
    case Load(p) =>
      if PhaseOf(s, p).Locked? then s.(phases := s.phases[p := Loaded(PhaseOf(s, p).q, s.roots)]) else s
    case Replace(p, preferred) =>
      if PhaseOf(s, p).Loaded? && LockedRequest(PhaseOf(s, p).q) then
        var q, snapshot := PhaseOf(s, p).q, PhaseOf(s, p).snapshot;
        s.(roots := WithRoot(s.roots, q, Renamed(valid, preferred, RootOf(s.roots, q), RootOf(snapshot, q), q)),
           phases := s.phases[p := Finished])
      else s
    case Fail(p) =>
      if PhaseOf(s, p).Locked? || PhaseOf(s, p).Loaded? then s.(phases := s.phases[p := Finished]) else s
    case Release(p) =>
      if PhaseOf(s, p).Finished? then s.(holder := None, phases := s.phases[p := Idle]) else s
    case Crash(p) =>
      s.(holder := if s.holder == Some(p) then None else s.holder, phases := s.phases[p := Idle])
  }

  /** Only the holder is past the lock, and what it loaded is still current. */
  ghost predicate LockInvariant(s: System) {
    && (forall p: nat :: (PhaseOf(s, p).Locked? || PhaseOf(s, p).Loaded? || PhaseOf(s, p).Finished?) ==> s.holder == Some(p))
    && (forall p: nat :: PhaseOf(s, p).Loaded? ==> PhaseOf(s, p).snapshot == s.roots && LockedRequest(PhaseOf(s, p).q))
    && (forall p: nat :: (PhaseOf(s, p).Waiting? || PhaseOf(s, p).Locked?) ==> LockedRequest(PhaseOf(s, p).q))
  }

  /** The write that takes effect in an event, if one does. */
  function Effect(s: System, e: Event): Option<Write> {
    if e.Replace? && PhaseOf(s, e.p).Loaded? && LockedRequest(PhaseOf(s, e.p).q)
    then Some(Write(PhaseOf(s, e.p).q, e.preferred)) else None
  }

  lemma RenamedCurrentIsApply(valid: Registry, preferred: Extension, files: Files, q: Request)
    requires LockedRequest(q)
    ensures Renamed(valid, preferred, files, files, q) == FileAfter(valid, preferred, files, q)
  {}

  lemma LockedStep(valid: Registry, s: System, e: Event)
    requires LockInvariant(s)
    ensures LockInvariant(Next(valid, s, e))
    ensures Effect(s, e).Some? ==> LockedRequest(Effect(s, e).value.request)
    ensures Next(valid, s, e).roots ==
            if Effect(s, e).Some? then RootsAfter(valid, Effect(s, e).value.preferred, s.roots, Effect(s, e).value.request)
            else s.roots
  {
    hide FileApply, FileAfter, Renamed;
    var t := Next(valid, s, e);
    forall p: nat | p != e.p ensures PhaseOf(t, p) == PhaseOf(s, p) {}
    if Effect(s, e).Some? {
      var w := Effect(s, e).value;
      RenamedCurrentIsApply(valid, w.preferred, RootOf(s.roots, w.request), w.request);
    }
  }

  ghost function Execute(valid: Registry, roots: Roots, es: seq<Event>): System {
    if es == [] then System(roots, None, map[])
    else Next(valid, Execute(valid, roots, es[..|es| - 1]), es[|es| - 1])
  }

  /** The writes that took effect, in the order of their renames. */
  ghost function Effects(valid: Registry, roots: Roots, es: seq<Event>): seq<Write> {
    if es == [] then []
    else
      var before := es[..|es| - 1];
      var effect := Effect(Execute(valid, roots, before), es[|es| - 1]);
      Effects(valid, roots, before) + if effect.Some? then [effect.value] else []
  }

  /** Every interleaving of writers, with failures and crashes anywhere, leaves the documents as
      the requests that reached their rename leave them when run one after another. */
  lemma {:induction false} WritersAreSerializable(valid: Registry, roots: Roots, es: seq<Event>)
    ensures LockInvariant(Execute(valid, roots, es))
    ensures forall w | w in Effects(valid, roots, es) :: LockedRequest(w.request)
    ensures Execute(valid, roots, es).roots == Serial(valid, roots, Effects(valid, roots, es))
  {
    if es != [] {
      hide LockInvariant, Next, Effect, RootsAfter, LockedRequest;
      var before, last := es[..|es| - 1], es[|es| - 1];
      WritersAreSerializable(valid, roots, before);
      var s := Execute(valid, roots, before);
      LockedStep(valid, s, last);
      var done := Effects(valid, roots, before);
      if Effect(s, last).Some? {
        assert (done + [Effect(s, last).value])[..|done|] == done;
      } else {
        assert done + [] == done;
      }
    }
  }

  /** Every interleaving on tidy documents leaves the records that the in-memory store leaves for
      the requests that reached their rename. */
  lemma InterleavingsRefineMemory(valid: Registry, s: Project, roots: Roots, es: seq<Event>)
    requires TidyRoots(roots) && SameRecords(s, roots)
    ensures SameRecords(Run(Named(valid), s, Requests(Effects(valid, roots, es))), Execute(valid, roots, es).roots)
  {
    hide *;
    WritersAreSerializable(valid, roots, es);
    FileRunsRefineMemory(valid, s, roots, Effects(valid, roots, es));
  }

  // ---------------------------------------------------------- no lost updates on documents

  /** The system after the first `n` events. */
  ghost function At(valid: Registry, roots: Roots, es: seq<Event>, n: nat): System
    requires n <= |es|
  {
    Execute(valid, roots, es[..n])
  }

  lemma EventStep(valid: Registry, roots: Roots, es: seq<Event>, n: nat)
    requires n < |es|
    ensures var s, t := At(valid, roots, es, n), At(valid, roots, es, n + 1);
            var effect := Effect(s, es[n]);
            && (effect.Some? ==> LockedRequest(effect.value.request))
            && t.roots == if effect.Some? then RootsAfter(valid, effect.value.preferred, s.roots, effect.value.request) else s.roots
  {
    hide LockInvariant, Next, Effect, RootsAfter, LockedRequest;
    assert es[..n + 1][..n] == es[..n];
    WritersAreSerializable(valid, roots, es[..n]);
    LockedStep(valid, At(valid, roots, es, n), es[n]);
  }

  /** The last moment at which what held of the documents still held. */
  lemma {:induction false} LastMoment(valid: Registry, roots: Roots, es: seq<Event>, m: nat, holds: Roots -> bool)
    returns (k: nat)
    requires m <= |es|
    requires holds(At(valid, roots, es, m).roots) && !holds(At(valid, roots, es, |es|).roots)
    ensures m <= k < |es| && !holds(At(valid, roots, es, k + 1).roots)
    ensures forall j | m <= j <= k :: holds(At(valid, roots, es, j).roots)
    decreases |es| - m
  {
    hide At;
    assert m != |es|;
    if holds(At(valid, roots, es, m + 1).roots) {
      k := LastMoment(valid, roots, es, m + 1, holds);
    } else {
      k := m;
    }
  }

  /** No lost updates on arbitrary documents, over every interleaving of writers with failures and
      crashes: a clause value that was stored at some moment and is gone at the end was
      overwritten, while it was current, by a request that named this very value or the record
      holding it, by a blind replacement within a Change, or by a new record that was given the
      document of this one. */
  lemma LostClauseWasOverwritten(
    valid: Registry, roots: Roots, es: seq<Event>, m: nat, id: string, clause: string, value: Value)
    returns (k: nat, w: Write)
    requires m <= |es|
    requires StoredClause(At(valid, roots, es, m).roots.contracts, id, clause) == Some(value)
    requires StoredClause(At(valid, roots, es, |es|).roots.contracts, id, clause) != Some(value)
    ensures m <= k < |es| && Effect(At(valid, roots, es, k), es[k]) == Some(w)
    ensures forall j | m <= j <= k :: StoredClause(At(valid, roots, es, j).roots.contracts, id, clause) == Some(value)
    ensures Stored(At(valid, roots, es, k).roots.contracts, id).Some?
    ensures OverwritesClause(At(valid, roots, es, k).roots.contracts, w, id, clause, value)
  {
    var holds := (r: Roots) => StoredClause(r.contracts, id, clause) == Some(value);
    k := LastMoment(valid, roots, es, m, holds);
    assert holds(At(valid, roots, es, k).roots);
    EventStep(valid, roots, es, k);
    hide At, Effect, StoredClause, OverwritesClause, FileAfter, LockedRequest;
    w := Effect(At(valid, roots, es, k), es[k]).value;
    ClauseOverwriteIsNamed(valid, At(valid, roots, es, k).roots.contracts, w, id, clause);
  }

  /** The same for the metadata of a Contract: it changes only through the whole-record path, by a
      request that names the record, blindly within a Change, or by a new record in its document. */
  lemma LostMetadataWasOverwritten(
    valid: Registry, roots: Roots, es: seq<Event>, m: nat, id: string, metadata: map<string, Value>)
    returns (k: nat, w: Write)
    requires m <= |es|
    requires Metadata(Stored(At(valid, roots, es, m).roots.contracts, id)) == Some(metadata)
    requires Metadata(Stored(At(valid, roots, es, |es|).roots.contracts, id)) != Some(metadata)
    ensures m <= k < |es| && Effect(At(valid, roots, es, k), es[k]) == Some(w)
    ensures forall j | m <= j <= k :: Metadata(Stored(At(valid, roots, es, j).roots.contracts, id)) == Some(metadata)
    ensures Stored(At(valid, roots, es, k).roots.contracts, id).Some?
    ensures OverwritesMetadata(At(valid, roots, es, k).roots.contracts, w, id)
  {
    var holds := (r: Roots) => Metadata(Stored(r.contracts, id)) == Some(metadata);
    k := LastMoment(valid, roots, es, m, holds);
    assert holds(At(valid, roots, es, k).roots);
    EventStep(valid, roots, es, k);
    hide At, Effect, Stored, OverwritesMetadata, FileAfter, LockedRequest;
    w := Effect(At(valid, roots, es, k), es[k]).value;
    MetadataOverwriteOnDisk(valid, At(valid, roots, es, k).roots.contracts, w, id);
  }

  /** The same for a stored Decision: it goes only through a request that carries its digest, or
      through a new Decision that was given its document. */
  lemma LostDecisionWasOverwritten(valid: Registry, roots: Roots, es: seq<Event>, m: nat, id: string, record: Value)
    returns (k: nat, w: Write)
    requires m <= |es|
    requires Stored(At(valid, roots, es, m).roots.decisions, id) == Some(record)
    requires Stored(At(valid, roots, es, |es|).roots.decisions, id) != Some(record)
    ensures m <= k < |es| && Effect(At(valid, roots, es, k), es[k]) == Some(w)
    ensures forall j | m <= j <= k :: Stored(At(valid, roots, es, j).roots.decisions, id) == Some(record)
    ensures OverwritesDecision(At(valid, roots, es, k).roots.decisions, w, id, record)
  {
    var holds := (r: Roots) => Stored(r.decisions, id) == Some(record);
    k := LastMoment(valid, roots, es, m, holds);
    assert holds(At(valid, roots, es, k).roots);
    EventStep(valid, roots, es, k);
    hide At, Effect, Stored, OverwritesDecision, FileAfter, LockedRequest;
    w := Effect(At(valid, roots, es, k), es[k]).value;
    DecisionOverwriteIsNamed(valid, At(valid, roots, es, k).roots.decisions, w, id);
  }
}
