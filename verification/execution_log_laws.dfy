/** The execution log counts every recorded attempt once, over every run of the event store.  The
    attempts of the log are joined from the events as they are stored, so the statements here
    start from the event files a run of requests leaves behind, interrupted requests included,
    and say what the log then lists for each started attempt and for each measured Result.
  */
module ExecutionLogLaws {
  import opened Json
  import opened Sorting
  import opened ExecutionRecord
  import opened ExecutionRecordLaws
  import opened ExecutionLog

  lemma {:induction false} LastStartMeaning(events: seq<Event>, id: string)
    ensures LastStart(events, id).Some? ==> Start(LastStart(events, id).value) in events && LastStart(events, id).value.executionId == id
    ensures LastStart(events, id).None? ==> forall e | e in events && e.Start? :: e.started.executionId != id
  {
    if events != [] {
      var before, last := events[..|events| - 1], events[|events| - 1];
      assert events == before + [last];
      LastStartMeaning(before, id);
    }
  }

  lemma {:induction false} LastCompletionMeaning(events: seq<Event>, id: string)
    ensures LastCompletion(events, id).Some? ==> Complete(id, LastCompletion(events, id).value) in events
    ensures LastCompletion(events, id).None? ==> forall e | e in events && e.Complete? :: e.executionId != id
  {
    if events != [] {
      var before, last := events[..|events| - 1], events[|events| - 1];
      assert events == before + [last];
      LastCompletionMeaning(before, id);
    }
  }

  /** The start and the completion that the files of a change hold for an attempt. */
  function StoredStart(files: Files, change: string, id: string): Option<Started> {
    var path := Path(change, StartedFile(id));
    if path in files && files[path].Whole? && files[path].event.Start? then Some(files[path].event.started) else None
  }

  function StoredCompletion(files: Files, change: string, id: string): Option<Completion> {
    var path := Path(change, CompletedFile(id));
    if path in files && files[path].Whole? && files[path].event.Complete? then Some(files[path].event.completion) else None
  }

  lemma EventIsListed(events: seq<Event>, order: seq<Path>, files: Files, change: string, path: Path)
    requires ListsEvents(events, order, files, change) && path in files && path.change == change
    ensures files[path].Whole? && files[path].event in events
  {
    assert path in order;
    var i :| 0 <= i < |order| && order[i] == path;
    assert files[order[i]] == Whole(events[i]);
  }

  lemma ListedIsStored(events: seq<Event>, order: seq<Path>, files: Files, change: string, e: Event) returns (path: Path)
    requires ListsEvents(events, order, files, change) && e in events
    ensures path in files && path.change == change && files[path] == Whole(e)
  {
    var i :| 0 <= i < |events| && events[i] == e;
    path := order[i];
    assert path in order;
  }

  /** Joining the listed events gives back what the files hold. */
  lemma JoinIsStored(events: seq<Event>, order: seq<Path>, files: Files, change: string, id: string)
    requires Inv(files) && ListsEvents(events, order, files, change)
    ensures LastStart(events, id) == StoredStart(files, change, id)
    ensures LastCompletion(events, id) == StoredCompletion(files, change, id)
  {
    LastStartMeaning(events, id);
    LastCompletionMeaning(events, id);
    var start, completed := Path(change, StartedFile(id)), Path(change, CompletedFile(id));
    if start in files {
      EventIsListed(events, order, files, change, start);
    }
    if completed in files {
      EventIsListed(events, order, files, change, completed);
    }
    hide ListsEvents, LastStart, LastCompletion;
    if LastStart(events, id).Some? {
      var path := ListedIsStored(events, order, files, change, Start(LastStart(events, id).value));
      assert path == start;
    }
    if LastCompletion(events, id).Some? {
      var path := ListedIsStored(events, order, files, change, Complete(id, LastCompletion(events, id).value));
      assert path == completed;
    }
  }

  /** Over every run of the store: when the events of a change can be read, the log has exactly one
      entry for each attempt started in the change, joined with that attempt's own completion. */
  lemma AttemptsAreCountedOnce(p: Project, requests: seq<Request>, change: string, events: seq<Event>, order: seq<Path>,
                               entries: seq<Entry>)
    requires ListsEvents(events, order, Run(p, map[], requests), change) && AttemptEntries(entries, events)
    ensures var files := Run(p, map[], requests);
            && (forall i | 0 <= i < |entries| ::
                  && entries[i].executionId.Some?
                  && var id := entries[i].executionId.value;
                     StoredStart(files, change, id).Some?
                     && entries[i] == RunnerEntry(id, StoredStart(files, change, id).value, StoredCompletion(files, change, id)))
            && (forall i, j | 0 <= i < j < |entries| :: entries[i].executionId != entries[j].executionId)
            && (forall id | Path(change, StartedFile(id)) in files ::
                  exists i :: 0 <= i < |entries| && entries[i].executionId == Some(id))
  {
    EventsAreAppendOnly(p, map[], requests);
    hide Run, RunnerEntry, LastStart, LastCompletion;
    var files := Run(p, map[], requests);
    forall id: string
      ensures LastStart(events, id) == StoredStart(files, change, id) && LastCompletion(events, id) == StoredCompletion(files, change, id)
      ensures StoredStart(files, change, id).Some? <==> Path(change, StartedFile(id)) in files
    {
      JoinIsStored(events, order, files, change, id);
      if Path(change, StartedFile(id)) in files {
        EventIsListed(events, order, files, change, Path(change, StartedFile(id)));
      }
    }
  }

  /** Result entries are those of the Results that measure themselves and that no succeeded attempt
      names; there are as many entries as such Results. */
  function CountSelfMeasured(results: seq<Value>, named: set<string>): nat {
    if results == [] then 0
    else
      var last := results[|results| - 1];
      CountSelfMeasured(results[..|results| - 1], named) + if Kept(last, named) && ResultEntry(last).Some? then 1 else 0
  }

  lemma {:induction false} ResultEntriesMeaning(results: seq<Value>, named: set<string>)
    ensures |ResultEntries(results, named)| == CountSelfMeasured(results, named)
    ensures forall e :: e in ResultEntries(results, named) <==>
              exists r | r in results :: Kept(r, named) && ResultEntry(r) == Some(e)
    ensures forall e | e in ResultEntries(results, named) && e.resultId.Some? :: e.resultId.value !in named
  {
    hide ResultEntry;
    if results != [] {
      var before, last := results[..|results| - 1], results[|results| - 1];
      assert results == before + [last];
      ResultEntriesMeaning(before, named);
      assert forall r :: r in results <==> r in before || r == last;
      EntryKeepsId(last);
    }
  }

  lemma EntryKeepsId(result: Value)
    ensures ResultEntry(result).Some? ==> ResultEntry(result).value.resultId == result.At("id").AsStr()
  {}
}
