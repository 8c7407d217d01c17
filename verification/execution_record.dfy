/** Append-only execution attempt events, from src/execution_record.rs.  Every event has a file of its
    own that is only ever created; a file whose writing was interrupted holds no event.  Starting and
    completing an attempt create one file each, repeating an equal event is accepted without a change
    and a different one is refused; completing with a Result checks first that the Result is bound.
  */
module ExecutionRecord {
  import opened Json

  datatype Status = Succeeded | Failed | Interrupted | Stale

  datatype Runner = Runner(provider: string, surface: string, version: Option<string>)

  datatype Started = Started(
    executionId: string, changeId: string, actionId: string, contextDigest: string, role: string, resultSchema: string,
    contextBytes: nat, runner: Runner, startedAt: Option<string>)

  /** What an attempt may report; costs are taken as exact numbers. */
  datatype Measures = Measures(
    duration: Option<nat>, inputTokens: Option<nat>, cacheCreation: Option<nat>, cachedInput: Option<nat>,
    outputTokens: Option<nat>, reasoning: Option<nat>, cost: Option<real>, toolCalls: Option<nat>, retries: Option<nat>)

  datatype Completion = Completion(
    changeId: string, status: Status, resultId: Option<string>, completedAt: Option<string>, measures: Measures,
    model: Option<string>, threadId: Option<string>, exitCode: Option<int>, errorCode: Option<string>)

  datatype Event = Start(started: Started) | Complete(executionId: string, completion: Completion)

  datatype Name = StartedFile(id: string) | CompletedFile(id: string)

  /** A file in the execution directory of a change. */
  datatype Path = Path(change: string, name: Name)

  datatype Stored = Whole(event: Event) | Torn

  type Files = map<Path, Stored>

  datatype RecordError =
    | InvalidRequest | NoStart | WriteConflict | DifferentCompletion | Unreadable | Interrupted_
    | NoResult | OtherResult

  // -------------------------------------------------------------------------- validation

  /** Unicode white space, which `str::trim` removes. */
  predicate Space(c: char) {
    var n := c as int;
    || 0x09 <= n <= 0x0D || n == 0x20 || n == 0x85 || n == 0xA0 || n == 0x1680
    || 0x2000 <= n <= 0x200A || n == 0x2028 || n == 0x2029 || n == 0x202F || n == 0x205F || n == 0x3000
  }

  predicate Blank(s: string) {
    forall i | 0 <= i < |s| :: Space(s[i])
  }

  predicate OptionalText(s: Option<string>) {
    s.Some? ==> !Blank(s.value)
  }

  predicate IdChar(c: char) {
    '0' <= c <= '9' || 'a' <= c <= 'z' || 'A' <= c <= 'Z' || c in {'.', '_', '-'}
  }

  /** `validate_record_id` */
  predicate RecordId(id: string, prefix: string) {
    && prefix + "." <= id && |id| > |prefix| + 1
    && forall i | 0 <= i < |id| :: IdChar(id[i])
  }

  /** `validate_completion` */
  predicate ValidCompletion(c: Completion) {
    && RecordId(c.changeId, "change")
    && (c.status == Succeeded ==> c.resultId.Some?)
    && OptionalText(c.resultId) && OptionalText(c.completedAt) && OptionalText(c.model)
    && OptionalText(c.threadId) && OptionalText(c.errorCode)
    && (c.resultId.Some? ==> RecordId(c.resultId.value, "result"))
    && (c.measures.cost.Some? ==> c.measures.cost.value >= 0.0)
  }

  predicate ValidStart(s: Started) {
    && !Blank(s.runner.provider) && !Blank(s.runner.surface) && OptionalText(s.runner.version)
    && !Blank(s.role) && !Blank(s.resultSchema) && OptionalText(s.startedAt)
  }

  /** What the store takes from outside this model: the bundled event schema and the existing change
      directories. */
  datatype Project = Project(schema: Event -> bool, changes: set<string>)

  predicate Writable(p: Project, change: string, event: Event) {
    RecordId(change, "change") && p.schema(event) && change in p.changes
  }

  /** The start of an attempt, if it can be read. */
  function StartOf(p: Project, files: Files, change: string, id: string): Option<Started> {
    var path := Path(change, StartedFile(id));
    if RecordId(change, "change") && change in p.changes && path in files && files[path].Whole? && files[path].event.Start?
    then Some(files[path].event.started) else None
  }

  // ------------------------------------------------------------------- effects on the files

  /** Creating a file never touches an existing one. */
  function Created(files: Files, path: Path, stored: Stored): Files {
    if path in files then files else files[path := stored]
  }

  /** A request to the store; `torn` says that the process dies while it writes. */
  datatype Request =
    | Begin(started: Started, torn: bool)
    | Finish(executionId: string, completion: Completion, torn: bool)

  function After(p: Project, files: Files, r: Request): Files {
    match r
    case Begin(s, torn) =>
      if !ValidStart(s) || !Writable(p, s.changeId, Start(s)) then files
      else Created(files, Path(s.changeId, StartedFile(s.executionId)), if torn then Torn else Whole(Start(s)))
    case Finish(id, c, torn) =>
      if !RecordId(id, "execution") || !ValidCompletion(c) || StartOf(p, files, c.changeId, id).None? then files
      else
        var change := StartOf(p, files, c.changeId, id).value.changeId;
        if !Writable(p, change, Complete(id, c)) then files
        else Created(files, Path(change, CompletedFile(id)), if torn then Torn else Whole(Complete(id, c)))
  }

  function Run(p: Project, files: Files, requests: seq<Request>): Files {
    if requests == [] then files else After(p, Run(p, files, requests[..|requests| - 1]), requests[|requests| - 1])
  }

  /** When a completion is accepted, now or as a repetition. */
  predicate CanFinish(p: Project, files: Files, id: string, c: Completion) {
    && RecordId(id, "execution") && ValidCompletion(c) && StartOf(p, files, c.changeId, id).Some?
    && var change := StartOf(p, files, c.changeId, id).value.changeId;
       var path := Path(change, CompletedFile(id));
       Writable(p, change, Complete(id, c)) && (path in files ==> files[path] == Whole(Complete(id, c)))
  }

  class ExecutionEventStore {
    var files: Files

    constructor ()
      ensures files == map[]
    {
      files := map[];
    }

    /** `write_new`: the file is created, then written. */
    method WriteNew(p: Project, change: string, name: Name, event: Event, torn: bool) returns (r: Result<(), RecordError>)
      modifies this
      ensures r.Ok? <==> Writable(p, change, event) && Path(change, name) !in old(files) && !torn
      ensures r.Err? ==>
                (r.error == WriteConflict <==> Writable(p, change, event) && Path(change, name) in old(files))
      ensures files == if Writable(p, change, event)
                       then Created(old(files), Path(change, name), if torn then Torn else Whole(event)) else old(files)
    {
      if !RecordId(change, "change") || !p.schema(event) || change !in p.changes {
        return Err(InvalidRequest);
      }
      var path := Path(change, name);
      if path in files {
        return Err(WriteConflict);
      }
      files := files[path := Torn];
      if torn {
        return Err(Interrupted_);
      }
      files := files[path := Whole(event)];
      return Ok(());
    }

    /** `begin` with a generated execution ID. */
    method Begin_(p: Project, started: Started, torn: bool) returns (r: Result<Started, RecordError>)
      modifies this
      ensures files == After(p, old(files), Begin(started, torn))
      ensures r.Ok? <==> && ValidStart(started) && Writable(p, started.changeId, Start(started)) && !torn
                         && Path(started.changeId, StartedFile(started.executionId)) !in old(files)
      ensures r.Ok? ==> r.value == started
    {
      hide Blank, OptionalText, RecordId;
      if !ValidStart(started) {
        return Err(InvalidRequest);
      }
      var written := WriteNew(p, started.changeId, StartedFile(started.executionId), Start(started), torn);
      if written.Err? {
        return Err(written.error);
      }
      return Ok(started);
    }

    /** `complete`: repeating an equal completion succeeds and says so, a different one fails. */
    method Complete_(p: Project, id: string, c: Completion, torn: bool) returns (r: Result<(Event, bool), RecordError>)
      modifies this
      ensures files == After(p, old(files), Finish(id, c, torn))
      ensures r.Ok? ==> CanFinish(p, old(files), id, c) && r.value.0 == Complete(id, c)
      ensures CanFinish(p, old(files), id, c) ==>
                var path := Path(StartOf(p, old(files), c.changeId, id).value.changeId, CompletedFile(id));
                && (r.Ok? <==> path in old(files) || !torn)
                && (r.Ok? ==> (r.value.1 <==> path in old(files)))
    {
      hide Blank, OptionalText, RecordId, ValidCompletion;
      if !RecordId(id, "execution") || !ValidCompletion(c) {
        return Err(InvalidRequest);
      }
      var started := StartOf(p, files, c.changeId, id);
      if started.None? {
        return Err(NoStart);
      }
      var change := started.value.changeId;
      var written := WriteNew(p, change, CompletedFile(id), Complete(id, c), torn);
      if written.Ok? {
        return Ok((Complete(id, c), false));
      }
      if written.error != WriteConflict {
        return Err(written.error);
      }
      var existing := files[Path(change, CompletedFile(id))];
      if existing.Torn? {
        return Err(Unreadable);
      }
      if existing.event == Complete(id, c) {
        return Ok((Complete(id, c), true));
      }
      return Err(DifferentCompletion);
    }

    /** `events`: everything recorded for a change; one unreadable file hides all of it.  The ghost
        result names the file behind each event; the code lists the files in path order. */
    method Events(p: Project, change: string) returns (r: Result<seq<Event>, RecordError>, ghost order: seq<Path>)
      ensures r.Ok? <==> && RecordId(change, "change") && change in p.changes
                         && forall path | path in files && path.change == change :: files[path].Whole?
      ensures r.Ok? ==> ListsEvents(r.value, order, files, change)
    {
      order := [];
      if !RecordId(change, "change") || change !in p.changes {
        return Err(InvalidRequest), order;
      }
      hide RecordId;
      var all := set path | path in files && path.change == change;
      var rest := all;
      var events: seq<Event> := [];
      while rest != {}
        invariant rest <= all && |order| == |events|
        invariant forall path :: path in order <==> path in all - rest
        invariant forall i, j | 0 <= i < j < |order| :: order[i] != order[j]
        invariant forall i | 0 <= i < |order| :: order[i] in files && files[order[i]] == Whole(events[i])
        decreases rest
      {
        var path :| path in rest;
        if files[path].Torn? {
          return Err(Unreadable), order;
        }
        assert path !in order;
        order := order + [path];
        events := events + [files[path].event];
        rest := rest - {path};
      }
      forall path | path in files && path.change == change ensures files[path].Whole? {
        assert path in all - rest;
        assert path in order;
        var i :| 0 <= i < |order| && order[i] == path;
      }
      return Ok(events), order;
    }

    /** `complete_bound`: a named Result must belong to the attempt's Action and Context. */
    method CompleteBound(p: Project, id: string, c: Completion, results: seq<Option<Value>>, torn: bool)
      returns (r: Result<(Event, bool), RecordError>)
      modifies this
      ensures r.Ok? ==> CanFinish(p, old(files), id, c) && r.value.0 == Complete(id, c)
      ensures r.Ok? && c.resultId.Some? ==> Binds(results, c.resultId.value, StartOf(p, old(files), c.changeId, id).value)
      ensures files == old(files) || files == After(p, old(files), Finish(id, c, torn))
      ensures StartOf(p, old(files), c.changeId, id).None?
              || (c.resultId.Some? && !Binds(results, c.resultId.value, StartOf(p, old(files), c.changeId, id).value)) ==>
                r.Err? && files == old(files)
    {
      hide Blank, OptionalText, RecordId, ValidCompletion, After;
      var started := StartOf(p, files, c.changeId, id);
      if started.None? {
        return Err(NoStart);
      }
      if c.resultId.Some? {
        var bound := ValidateResultBinding(results, c.resultId.value, started.value);
        if bound.Err? {
          return Err(bound.error);
        }
      }
      r := Complete_(p, id, c, torn);
    }
  }

  /** The events are those of the change's files, each file once. */
  ghost predicate ListsEvents(events: seq<Event>, order: seq<Path>, files: Files, change: string) {
    && |order| == |events|
    && (forall path :: path in order <==> path in files && path.change == change)
    && (forall i, j | 0 <= i < j < |order| :: order[i] != order[j])
    && (forall i | 0 <= i < |order| :: order[i] in files && files[order[i]] == Whole(events[i]))
  }

  // ---------------------------------------------------------------------- bound Results

  predicate OfAttempt(result: Value, started: Started) {
    result.At("action_id") == Str(started.actionId) && result.At("context_digest") == Str(started.contextDigest)
  }

  /** The first Result file with the ID decides, and every file before it must be readable. */
  ghost predicate Binds(results: seq<Option<Value>>, id: string, started: Started) {
    RecordId(id, "result") && exists k | 0 <= k < |results| :: BindsAt(results, id, started, k)
  }

  predicate BindsAt(results: seq<Option<Value>>, id: string, started: Started, k: nat) {
    && k < |results|
    && (forall j | 0 <= j < k :: results[j].Some? && results[j].value.At("id") != Str(id))
    && results[k].Some? && results[k].value.At("id") == Str(id) && OfAttempt(results[k].value, started)
  }

  /** `validate_result_binding` over the Result files of the change, in path order. */
  method ValidateResultBinding(results: seq<Option<Value>>, id: string, started: Started) returns (r: Result<(), RecordError>)
    ensures r.Ok? <==> Binds(results, id, started)
  {
    if !RecordId(id, "result") {
      return Err(InvalidRequest);
    }
    hide RecordId;
    for i := 0 to |results|
      invariant forall j | 0 <= j < i :: results[j].Some? && results[j].value.At("id") != Str(id)
    {
      if results[i].None? {
        return Err(Unreadable);
      }
      if results[i].value.At("id") == Str(id) {
        if OfAttempt(results[i].value, started) {
          assert BindsAt(results, id, started, i);
          return Ok(());
        }
        return Err(OtherResult);
      }
    }
    return Err(NoResult);
  }
}
