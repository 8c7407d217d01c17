/** What holds of the execution event files over every run of requests, some of them interrupted.
    A request may stop after any file step, so a file can hold a torn event that no reader accepts
    and no writer replaces.  Events are only ever added, a settled completion stays as it is, and
    an attempt whose completion was torn can never be completed afterwards.
  */
module ExecutionRecordLaws {
  import opened Json
  import opened ExecutionRecord

  /** Each file holds the event of its own attempt and change, and only started attempts complete. */
  ghost predicate Inv(files: Files) {
    forall path | path in files ::
      && (path.name.StartedFile? && files[path].Whole? ==>
            && files[path].event.Start? && files[path].event.started.executionId == path.name.id
            && files[path].event.started.changeId == path.change)
      && (path.name.CompletedFile? ==>
            && Path(path.change, StartedFile(path.name.id)) in files && files[Path(path.change, StartedFile(path.name.id))].Whole?
            && (files[path].Whole? ==>
                  && files[path].event.Complete? && files[path].event.executionId == path.name.id
                  && files[path].event.completion.changeId == path.change))
  }

  ghost predicate Grows(before: Files, after: Files) {
    forall path | path in before :: path in after && after[path] == before[path]
  }

  lemma BeginKeeps(p: Project, files: Files, s: Started, torn: bool)
    requires Inv(files)
    ensures Inv(After(p, files, Begin(s, torn))) && Grows(files, After(p, files, Begin(s, torn)))
  {
    hide RecordId, ValidStart, Writable;
  }

  lemma FinishKeeps(p: Project, files: Files, id: string, c: Completion, torn: bool)
    requires Inv(files)
    ensures Inv(After(p, files, Finish(id, c, torn))) && Grows(files, After(p, files, Finish(id, c, torn)))
  {
    hide RecordId, ValidCompletion, Writable;
    var start := StartOf(p, files, c.changeId, id);
    if start.Some? {
      assert start.value.changeId == c.changeId;
    }
  }

  lemma RequestKeeps(p: Project, files: Files, r: Request)
    requires Inv(files)
    ensures Inv(After(p, files, r)) && Grows(files, After(p, files, r))
  {
    match r
    case Begin(s, torn) =>
      hide *;
      BeginKeeps(p, files, s, torn);
    case Finish(id, c, torn) =>
      hide *;
      FinishKeeps(p, files, id, c, torn);
  }

  /** Over every run each attempt has at most one start and one completion, and neither is ever
      altered or removed; only a started attempt is completed. */
  lemma {:induction false} EventsAreAppendOnly(p: Project, files: Files, requests: seq<Request>)
    requires Inv(files)
    ensures Inv(Run(p, files, requests)) && Grows(files, Run(p, files, requests))
  {
    if requests != [] {
      var before := requests[..|requests| - 1];
      EventsAreAppendOnly(p, files, before);
      RequestKeeps(p, Run(p, files, before), requests[|requests| - 1]);
      hide Inv, After;
    }
  }

  /** The completion of an attempt is settled by the first one written: on every later run the same
      completion is accepted again, and no other is. */
  lemma CompletionIsSettled(p: Project, files: Files, requests: seq<Request>, id: string, c: Completion, other: Completion)
    requires Inv(files) && CanFinish(p, files, id, c)
    requires Path(c.changeId, CompletedFile(id)) in files && other.changeId == c.changeId
    ensures CanFinish(p, Run(p, files, requests), id, other) <==> other == c
    ensures After(p, Run(p, files, requests), Finish(id, other, false)) == Run(p, files, requests)
  {
    EventsAreAppendOnly(p, files, requests);
    hide RecordId, ValidCompletion, Run;
    var now := Run(p, files, requests);
    var start := Path(c.changeId, StartedFile(id));
    assert start in files && start in now && now[start] == files[start];
  }

  /** A completion whose writing was interrupted can never be made up for: on every later run each
      completion of the attempt is refused, and the events of its change cannot be read. */
  lemma TornCompletionIsStuck(p: Project, files: Files, requests: seq<Request>, id: string, c: Completion)
    requires Inv(files) && Path(c.changeId, CompletedFile(id)) in files && files[Path(c.changeId, CompletedFile(id))].Torn?
    ensures !CanFinish(p, Run(p, files, requests), id, c)
    ensures var path := Path(c.changeId, CompletedFile(id));
            path in Run(p, files, requests) && !Run(p, files, requests)[path].Whole?
  {
    EventsAreAppendOnly(p, files, requests);
    hide RecordId, ValidCompletion, Run;
  }

  const PROJECT := Project(_ => true, {"change.a"})
  const NO_MEASURES := Measures(None, None, None, None, None, None, None, None, None)
  const START := Started("execution.a", "change.a", "action", "context", "Builder", "result.evidence", 0,
                         Runner("provider", "surface", None), None)
  const COMPLETION := Completion("change.a", Failed, None, None, NO_MEASURES, None, None, None, None)

  lemma ExampleIsValid()
    ensures RecordId("change.a", "change") && RecordId("execution.a", "execution") && ValidCompletion(COMPLETION) && ValidStart(START)
  {
    assert "change" + "." == "change." && "execution" + "." == "execution.";
    assert "change." <= "change.a" && "execution." <= "execution.a";
    assert !Space("provider"[0]) && !Space("surface"[0]) && !Space("Builder"[0]) && !Space("result.evidence"[0]);
  }

  /** Concretely: an attempt starts in an empty store, its completion is cut short, and on every
      later run no completion of it is accepted. */
  lemma TornCompletionHappens(requests: seq<Request>, c: Completion)
    requires c.changeId == "change.a"
    ensures var torn := Run(PROJECT, map[], [Begin(START, false), Finish("execution.a", COMPLETION, true)]);
            && CanFinish(PROJECT, Run(PROJECT, map[], [Begin(START, false)]), "execution.a", COMPLETION)
            && !CanFinish(PROJECT, Run(PROJECT, torn, requests), "execution.a", c)
  {
    ExampleIsValid();
    hide RecordId, ValidCompletion, ValidStart;
    var first, both := [Begin(START, false)], [Begin(START, false), Finish("execution.a", COMPLETION, true)];
    assert both[..|both| - 1] == first && first[..|first| - 1] == [];
    var started := Run(PROJECT, map[], first);
    assert Run(PROJECT, map[], first[..|first| - 1]) == map[];
    assert Writable(PROJECT, "change.a", Start(START)) && Writable(PROJECT, "change.a", Complete("execution.a", COMPLETION));
    assert started == After(PROJECT, map[], Begin(START, false));
    var torn := Run(PROJECT, map[], both);
    assert torn == After(PROJECT, started, Finish("execution.a", COMPLETION, true));
    hide Run, Writable;
    TornCompletionIsStuck(PROJECT, torn, requests, "execution.a", c);
  }

  /** An accepted completion of a fresh attempt is written, and a request that is not accepted leaves
      every file alone. */
  lemma FinishMeaning(p: Project, files: Files, id: string, c: Completion)
    requires Inv(files)
    ensures CanFinish(p, files, id, c) ==>
              After(p, files, Finish(id, c, false)) == files[Path(c.changeId, CompletedFile(id)) := Whole(Complete(id, c))]
    ensures !CanFinish(p, files, id, c) ==> After(p, files, Finish(id, c, false)) == files
  {
    hide RecordId, ValidCompletion;
    if StartOf(p, files, c.changeId, id).Some? {
      assert StartOf(p, files, c.changeId, id).value.changeId == c.changeId;
    }
  }
}
