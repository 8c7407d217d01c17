/** Runs of lock switches and rollbacks in which any call may stop, crash or fail after any of its
    file operations.
  */
module FrameworkSwitchRuns {
  import opened Json
  import opened FrameworkSwitch

  datatype FileOp =
    | Create(temp: Name, torn: string)
    | Fill(temp: Name, text: string)
    | Rename(temp: Name, target: Name)
    | Remove(temp: Name)

  function Perform(files: Files, op: FileOp): Files {
    match op
    case Create(temp, torn) => files[temp := torn]
    case Fill(temp, text) => files[temp := text]
    case Rename(temp, target) => if temp in files then (files - {temp})[target := files[temp]] else files
    case Remove(temp) => files - {temp}
  }

  function PerformAll(files: Files, ops: seq<FileOp>): Files
    decreases |ops|
  {
    if ops == [] then files else PerformAll(Perform(files, ops[0]), ops[1..])
  }

  function WriteOps(target: Name, text: string, temp: string, torn: string): seq<FileOp> {
    [Create(Temp(temp), torn), Fill(Temp(temp), text), Rename(Temp(temp), target)]
  }

  /** One call: a switch to a candidate text or a rollback to a backup file. */
  datatype Call =
    | SwitchTo(candidate: string)
    | BackTo(path: Name)

  /** How far a call gets: its checks and temporary names, what a half-written file holds, the
      number of file operations before it stops, and whether it still removes its temporary files. */
  datatype Fate = Fate(checks: Checks, temp1: string, temp2: string, torn: string, steps: nat, tidies: bool)

  function Candidate(files: Files, call: Call): Option<string> {
    match call
    case SwitchTo(candidate) => Some(candidate)
    case BackTo(path) => if (path.Backup? || path.OtherBackup?) && path in files then Some(files[path]) else None
  }

  function UseOf(call: Call): TrustUse {
    if call.SwitchTo? then NewActivation else Rollback
  }

  /** The call gets as far as writing files. */
  predicate Proceeds(files: Files, call: Call, fate: Fate) {
    && Candidate(files, call).Some?
    && Accepted(fate.checks, UseOf(call), Candidate(files, call).value) && CanBackUp(fate.checks, files)
  }

  /** It also finds its temporary names free. */
  predicate Completes(files: Files, call: Call, fate: Fate) {
    Proceeds(files, call, fate) && TempsFree(fate.checks, files, fate.temp1, fate.temp2)
  }

  /** The file operations of a call.  A write whose temporary name is taken fails, removes that file
      and ends the call. */
  function Operations(files: Files, call: Call, fate: Fate): seq<FileOp>
    requires Proceeds(files, call, fate)
  {
    var backup := BackupOfActive(fate.checks, files);
    if backup !in files && Temp(fate.temp1) in files then [Remove(Temp(fate.temp1))]
    else
      (if backup in files then [] else WriteOps(backup, files[Active], fate.temp1, fate.torn))
      + ReplaceOps(files, call, fate)
  }

  function ReplaceOps(files: Files, call: Call, fate: Fate): seq<FileOp>
    requires Candidate(files, call).Some?
  {
    if Temp(fate.temp2) in files then [Remove(Temp(fate.temp2))]
    else WriteOps(Active, Candidate(files, call).value, fate.temp2, fate.torn)
  }

  function Cut(ops: seq<FileOp>, steps: nat): seq<FileOp> {
    if steps < |ops| then ops[..steps] else ops
  }

  /** The files after a call, wherever it stopped. */
  function After(files: Files, call: Call, fate: Fate): Files {
    if !Proceeds(files, call, fate) then files
    else
      var done := PerformAll(files, Cut(Operations(files, call, fate), fate.steps));
      if fate.tidies then done - {Temp(fate.temp1), Temp(fate.temp2)} else done
  }

  function Run(files: Files, calls: seq<(Call, Fate)>): Files {
    if calls == [] then files
    else After(Run(files, calls[..|calls| - 1]), calls[|calls| - 1].0, calls[|calls| - 1].1)
  }

  // ------------------------------------------------------------------------ one call

  lemma {:induction false} PerformInTurn(files: Files, first: seq<FileOp>, second: seq<FileOp>)
    ensures PerformAll(files, first + second) == PerformAll(PerformAll(files, first), second)
    decreases |first|
  {
    if first == [] {
      assert first + second == second;
    } else {
      PerformInTurn(Perform(files, first[0]), first[1..], second);
      assert (first + second)[0] == first[0] && (first + second)[1..] == first[1..] + second;
    }
  }

  /** An atomic write shows its target either as before or complete. */
  lemma WriteIsAtomic(files: Files, target: Name, text: string, temp: string, torn: string, n: nat)
    requires n <= 3 && !IsTemp(target)
    ensures var after := PerformAll(files, WriteOps(target, text, temp, torn)[..n]);
            && SameExcept(files, after, {target})
            && (if n == 3 then target in after && after[target] == text
                else (target in after <==> target in files) && (target in files ==> after[target] == files[target]))
  {
    var ops := WriteOps(target, text, temp, torn);
    var f1 := Perform(files, ops[0]);
    var f2 := Perform(f1, ops[1]);
    var f3 := Perform(f2, ops[2]);
    if n == 0 {
      assert ops[..n] == [];
    } else if n == 1 {
      assert ops[..n] == [ops[0]] && ops[..n][1..] == [];
      assert PerformAll(files, ops[..n]) == f1;
    } else if n == 2 {
      assert ops[..n] == [ops[0]] + [ops[1]];
      PerformInTurn(files, [ops[0]], [ops[1]]);
      assert PerformAll(files, ops[..n]) == f2;
    } else {
      assert ops[..n] == [ops[0]] + ([ops[1]] + [ops[2]]);
      PerformInTurn(files, [ops[0]], [ops[1]] + [ops[2]]);
      PerformInTurn(f1, [ops[1]], [ops[2]]);
      assert PerformAll(files, ops[..n]) == f3;
    }
  }

  /** The two things a call can have done to the files that are not temporary: put the active lock
      aside, and after that replace it. */
  ghost predicate Progress(before: Files, after: Files, backup: Name, candidate: string, finished: bool) {
    && SameExcept(before, after, {Active, backup})
    && Active in before && Active in after
    && (backup in before ==> backup in after)
    && (backup in after ==> after[backup] == before[Active])
    && (after[Active] == before[Active] || (after[Active] == candidate && backup in after))
    && (finished ==> backup in after && after[Active] == candidate)
  }

  /** Putting the lock aside: `backup` becomes the old text or stays missing. */
  lemma SavingStages(files: Files, backup: Name, temp: string, torn: string, n: nat)
    requires Active in files && backup != Active && !IsTemp(backup) && backup !in files && n <= 3
    ensures var after := PerformAll(files, WriteOps(backup, files[Active], temp, torn)[..n]);
            && SameExcept(files, after, {backup}) && Active in after && after[Active] == files[Active]
            && (backup in after ==> after[backup] == files[Active]) && (n == 3 ==> backup in after)
  {
    WriteIsAtomic(files, backup, files[Active], temp, torn, n);
    hide PerformAll;
  }

  lemma RemovalStages(files: Files, temp: string, n: nat)
    requires n <= 1
    ensures SameExcept(files, PerformAll(files, [Remove(Temp(temp))][..n]), {})
  {
    var ops := [Remove(Temp(temp))];
    if n == 1 {
      assert ops[..n] == ops && ops[1..] == [];
      assert PerformAll(files, ops) == Perform(files, ops[0]);
    }
  }

  /** Replacing the lock, once the old text is backed up; `now` differs from `files` in temporary
      files only. */
  lemma ReplacingStages(files: Files, now: Files, call: Call, fate: Fate, backup: Name, n: nat)
    requires Candidate(files, call).Some? && n <= |ReplaceOps(files, call, fate)|
    requires Active in now && backup != Active && !IsTemp(backup)
    requires backup in now && now[backup] == now[Active]
    ensures var after := PerformAll(now, ReplaceOps(files, call, fate)[..n]);
            && Progress(now, after, backup, Candidate(files, call).value, n == 3)
            && (Temp(fate.temp2) in files ==> after[Active] == now[Active])
  {
    if Temp(fate.temp2) in files {
      RemovalStages(now, fate.temp2, n);
    } else {
      WriteIsAtomic(now, Active, Candidate(files, call).value, fate.temp2, fate.torn, n);
    }
    hide PerformAll;
  }

  /** What a call has done after some of its operations. */
  ghost predicate Done(files: Files, call: Call, fate: Fate, after: Files, finished: bool)
    requires Proceeds(files, call, fate)
  {
    && Progress(files, after, BackupOfActive(fate.checks, files), Candidate(files, call).value, finished && Completes(files, call, fate))
    && (!Completes(files, call, fate) ==> after[Active] == files[Active])
  }

  lemma StagesOfACall(files: Files, call: Call, fate: Fate, n: nat)
    requires Proceeds(files, call, fate)
    requires n <= |Operations(files, call, fate)|
    ensures Done(files, call, fate, PerformAll(files, Operations(files, call, fate)[..n]), n == |Operations(files, call, fate)|)
  {
    var backup := BackupOfActive(fate.checks, files);
    var ops, second := Operations(files, call, fate), ReplaceOps(files, call, fate);
    assert |second| == if Temp(fate.temp2) in files then 1 else 3;
    hide PerformAll, ReplaceOps;
    if backup !in files && Temp(fate.temp1) in files {
      RemovalStages(files, fate.temp1, n);
    } else if backup in files {
      assert ops == second;
      ReplacingStages(files, files, call, fate, backup, n);
    } else {
      var first := WriteOps(backup, files[Active], fate.temp1, fate.torn);
      assert ops == first + second && |first| == 3;
      hide WriteOps;
      if n <= |first| {
        assert ops[..n] == first[..n];
        SavingStages(files, backup, fate.temp1, fate.torn, n);
      } else {
        assert ops[..n] == first + second[..n - |first|];
        assert first[..|first|] == first;
        PerformInTurn(files, first, second[..n - |first|]);
        SavingStages(files, backup, fate.temp1, fate.torn, |first|);
        ReplacingStages(files, PerformAll(files, first), call, fate, backup, n - |first|);
      }
    }
  }

  lemma CallProgress(files: Files, call: Call, fate: Fate)
    requires Proceeds(files, call, fate)
    ensures Done(files, call, fate, After(files, call, fate), fate.steps >= |Operations(files, call, fate)|)
  {
    var ops := Operations(files, call, fate);
    var n := if fate.steps < |ops| then fate.steps else |ops|;
    assert ops[..|ops|] == ops;
    assert Cut(ops, fate.steps) == ops[..n];
    StagesOfACall(files, call, fate, n);
    hide PerformAll, Proceeds, Operations, Completes;
  }

  /** A call that runs to its end leaves what the method of the lock leaves. */
  lemma WholeCall(files: Files, call: Call, fate: Fate)
    requires Completes(files, call, fate) && fate.steps >= 6
    ensures SameExcept(files[BackupOfActive(fate.checks, files) := files[Active]][Active := Candidate(files, call).value],
                       After(files, call, fate), {})
  {
    CallProgress(files, call, fate);
    SixOperations(files, call, fate);
    hide After, Operations, TempsFree, CanBackUp, LockValue, Accepted;
  }

  // ---------------------------------------------------------------------------- runs

  /** A lock text that is not lost: it is active, or held byte for byte under its own value. */
  predicate Held(parse: string -> Option<Value>, files: Files, text: string) {
    || (Active in files && files[Active] == text)
    || (parse(text).Some? && Backup(parse(text).value) in files && files[Backup(parse(text).value)] == text)
  }

  /** Every call of a run uses the same YAML reader. */
  ghost predicate SameReader(parse: string -> Option<Value>, calls: seq<(Call, Fate)>) {
    forall i | 0 <= i < |calls| :: calls[i].1.checks.parse == parse
  }

  ghost predicate BackupsKept(before: Files, after: Files) {
    forall v | Backup(v) in before :: Backup(v) in after && after[Backup(v)] == before[Backup(v)]
  }

  lemma CallKeepsBackups(files: Files, call: Call, fate: Fate)
    ensures BackupsKept(files, After(files, call, fate))
    ensures Active in files ==> Active in After(files, call, fate)
  {
    if Proceeds(files, call, fate) {
      CallProgress(files, call, fate);
      hide After, Operations, Completes;
    }
  }

  lemma CallHolds(files: Files, call: Call, fate: Fate, text: string)
    requires Held(fate.checks.parse, files, text)
    ensures Held(fate.checks.parse, After(files, call, fate), text)
  {
    CallKeepsBackups(files, call, fate);
    if Proceeds(files, call, fate) {
      CallProgress(files, call, fate);
      hide After, Operations;
    }
  }

  lemma {:induction false} RunKeeps(parse: string -> Option<Value>, files: Files, calls: seq<(Call, Fate)>, k: nat)
    requires SameReader(parse, calls) && k <= |calls|
    ensures BackupsKept(Run(files, calls[..k]), Run(files, calls))
    ensures Active in files ==> Active in Run(files, calls)
    ensures forall text | Held(parse, Run(files, calls[..k]), text) :: Held(parse, Run(files, calls), text)
  {
    if k == |calls| {
      assert calls[..k] == calls;
      if calls != [] {
        RunKeeps(parse, files, calls[..|calls| - 1], 0);
        assert calls[..|calls| - 1] + [calls[|calls| - 1]] == calls;
        CallKeepsBackups(Run(files, calls[..|calls| - 1]), calls[|calls| - 1].0, calls[|calls| - 1].1);
      }
    } else {
      var before := calls[..|calls| - 1];
      assert before[..k] == calls[..k];
      RunKeeps(parse, files, before, k);
      hide Held, After;
      CallKeepsBackups(Run(files, before), calls[|calls| - 1].0, calls[|calls| - 1].1);
      forall text | Held(parse, Run(files, calls[..k]), text) ensures Held(parse, Run(files, calls), text) {
        CallHolds(Run(files, before), calls[|calls| - 1].0, calls[|calls| - 1].1, text);
      }
    }
  }

  /** Over every run, wherever its calls stop: each lock text that was ever active is still active or
      is held byte for byte in the backups, and no backup is ever overwritten. */
  lemma EveryLockIsHeld(parse: string -> Option<Value>, files: Files, calls: seq<(Call, Fate)>, k: nat)
    requires SameReader(parse, calls) && k <= |calls| && Active in files
    ensures Active in Run(files, calls[..k])
    ensures Held(parse, Run(files, calls), Run(files, calls[..k])[Active])
    ensures BackupsKept(Run(files, calls[..k]), Run(files, calls))
  {
    RunKeeps(parse, files, calls, k);
    RunKeeps(parse, files, calls[..k], k);
    assert Held(parse, Run(files, calls[..k]), Run(files, calls[..k])[Active]);
  }

  /** The active lock is always complete: after each call it is the text from before or the whole
      candidate; a call that does not proceed leaves every file alone. */
  lemma ActiveLockIsWhole(files: Files, call: Call, fate: Fate)
    requires Active in files
    ensures var after := After(files, call, fate);
            && Active in after
            && (after[Active] == files[Active] || Some(after[Active]) == Candidate(files, call))
            && (!Proceeds(files, call, fate) ==> after == files)
  {
    if Proceeds(files, call, fate) {
      CallProgress(files, call, fate);
      hide After, Operations;
    }
  }

  /** Rolling back to the receipt of a completed switch, whatever ran in between, restores the exact
      text that the switch replaced, if and only if the rollback may proceed: the text is still
      accepted and the lock active by then can be put aside. */
  lemma RollBackRestores(files: Files, call: Call, fate: Fate, between: seq<(Call, Fate)>, fate2: Fate)
    requires Completes(files, call, fate) && fate.steps >= 6
    requires SameReader(fate.checks.parse, between) && fate2.steps >= 6
    ensures var receipt, now := BackupOfActive(fate.checks, files), Run(After(files, call, fate), between);
            && receipt in now && now[receipt] == files[Active] && Active in now
            && (now[Active] != files[Active] ==>
                  (Lookup(After(now, BackTo(receipt), fate2), Active) == Some(files[Active]) <==>
                   CanSwitch(fate2.checks, now, files[Active], Rollback, fate2.temp1, fate2.temp2)))
  {
    var receipt := BackupOfActive(fate.checks, files);
    CallProgress(files, call, fate);
    SixOperations(files, call, fate);
    var switched := After(files, call, fate);
    RunKeeps(fate.checks.parse, switched, between, 0);
    var now := Run(switched, between);
    assert between[..0] == [];
    hide After, Run, Operations, CanSwitch;
    assert receipt in now && now[receipt] == files[Active];
    if Proceeds(now, BackTo(receipt), fate2) {
      CallProgress(now, BackTo(receipt), fate2);
      SixOperations(now, BackTo(receipt), fate2);
    } else {
      StoppedCall(now, BackTo(receipt), fate2);
    }
  }

  lemma SixOperations(files: Files, call: Call, fate: Fate)
    requires Proceeds(files, call, fate)
    ensures |Operations(files, call, fate)| <= 6
  {}

  lemma StoppedCall(files: Files, call: Call, fate: Fate)
    requires !Proceeds(files, call, fate)
    ensures After(files, call, fate) == files
  {}

  // --------------------------------------------------------------------- a lock that sticks

  /** A lock whose value is backed up under another text. */
  predicate Reformatted(parse: string -> Option<Value>, files: Files) {
    && Active in files && parse(files[Active]).Some?
    && Backup(parse(files[Active]).value) in files && files[Backup(parse(files[Active]).value)] != files[Active]
  }

  /** Such a lock cannot be replaced any more: on every run every switch and every rollback is
      refused and the active lock stays as it is. */
  lemma {:induction false} ReformattedLockSticks(parse: string -> Option<Value>, files: Files, calls: seq<(Call, Fate)>)
    requires SameReader(parse, calls) && Reformatted(parse, files)
    ensures Run(files, calls) == files
  {
    if calls != [] {
      var before := calls[..|calls| - 1];
      ReformattedLockSticks(parse, files, before);
      var (call, fate) := calls[|calls| - 1];
      assert fate.checks.parse == parse;
      assert !CanBackUp(fate.checks, files);
      StoppedCall(files, call, fate);
    }
  }

  /** An accepted switch leads there exactly when the candidate is another text for a value that is
      backed up already, or for the value of the lock it replaces. */
  lemma SwitchSticksIff(files: Files, call: Call, fate: Fate)
    requires Completes(files, call, fate) && fate.steps >= 6
    ensures var candidate := Candidate(files, call).value;
            var value := fate.checks.parse(candidate).value;
            Reformatted(fate.checks.parse, After(files, call, fate)) <==>
              || (Backup(value) in files && files[Backup(value)] != candidate)
              || (Some(value) == fate.checks.parse(files[Active]) && files[Active] != candidate)
  {
    CallProgress(files, call, fate);
    SixOperations(files, call, fate);
    hide After, Operations;
  }

  /** A lock and a copy of it with another layout. */
  const PLAIN := "lock: 1"
  const REFORMATTED := "lock:  1"

  function ReadEither(text: string): Option<Value> {
    if text == PLAIN || text == REFORMATTED then Some(Obj(map["lock" := Int(1)])) else None
  }

  function AcceptAll(use: TrustUse, lock: Value): Option<string> {
    Some("release")
  }

  /** Concretely: switching from a lock to a reformatted copy of it goes through, and from then on
      no call, whatever happens to it, changes any file. */
  lemma ReformattedCopyLocksOut(calls: seq<(Call, Fate)>)
    requires SameReader(ReadEither, calls)
    ensures var switched := After(map[Active := PLAIN], SwitchTo(REFORMATTED), Fate(Checks(ReadEither, AcceptAll), "t", "u", "", 6, true));
            && Active in switched && switched[Active] == REFORMATTED
            && Run(switched, calls) == switched
  {
    var files: Files := map[Active := PLAIN];
    var call, fate := SwitchTo(REFORMATTED), Fate(Checks(ReadEither, AcceptAll), "t", "u", "", 6, true);
    assert PLAIN[6] != REFORMATTED[6];
    assert Canonical(Obj(map["lock" := Int(1)]));
    assert Completes(files, call, fate);
    CallProgress(files, call, fate);
    SixOperations(files, call, fate);
    SwitchSticksIff(files, call, fate);
    hide After, Operations, Completes;
    ReformattedLockSticks(ReadEither, After(files, call, fate), calls);
  }
}
