/** Safety of binary activation over every interleaving of installs and rollbacks with failures
    and crashes after any file operation.
  */
module BinaryInstallSafety {
  import opened Json
  import opened ActivationFile
  import opened BinaryInstall
  import opened BinaryInstallMachine

  ghost predicate SameReleases(before: Disk, after: Disk) {
    forall tag | tag in before.releases :: tag in after.releases && after.releases[tag] == before.releases[tag]
  }

  /** The change one operation makes to the activation, if it makes one. */
  function ChangeBy(disk: Disk, pc: Pc, env: Env): Option<Change> {
    if pc.Publishing? && pc.target.ActiveFile? && pc.stage == Replace && !env.fails && pc.temp in disk.temps
    then Some(pc.target.change) else None
  }

  function ApplyIf(change: Option<Change>, a: Activation): Activation {
    if change.Some? then Apply(change.value, a) else a
  }

  /** The activation on disk; none when the file cannot be read. */
  function ActivationOf(disk: Disk): Activation {
    if Read(disk.active).Ok? then Read(disk.active).value else Activation(None, None)
  }

  /** What one operation keeps and how it moves the activation. */
  ghost predicate GoodStep(pf: Platform, disk: Disk, pc: Pc, env: Env, after: Disk, next: Option<Pc>) {
    && GoodDisk(pf, after)
    && SameReleases(disk, after)
    && (next.Some? ==> !next.value.Waiting? && PcOk(pf, after, next.value))
    && ActivationOf(after) == ApplyIf(ChangeBy(disk, pc, env), ActivationOf(disk))
    && (ChangeBy(disk, pc, env).None? ==> after.active == disk.active)
    && (Managed(pf, disk.launcher) ==> Managed(pf, after.launcher))
    && (!Managed(pf, disk.launcher) ==> after.launcher == disk.launcher)
  }

  lemma ActivationStays(pf: Platform, disk: Disk, after: Disk)
    requires GoodDisk(pf, disk) && after.active == disk.active && SameReleases(disk, after)
    requires forall tag | tag in after.releases && tag !in disk.releases :: Verified(pf, after.releases[tag], tag)
    ensures GoodDisk(pf, after)
  {
    hide Read, Verified;
  }

  /** An operation that leaves releases, activation and launcher alone. */
  lemma QuietStep(pf: Platform, disk: Disk, pc: Pc, env: Env, after: Disk, next: Option<Pc>)
    requires GoodDisk(pf, disk) && ChangeBy(disk, pc, env).None?
    requires after.releases == disk.releases && after.active == disk.active && after.launcher == disk.launcher
    requires next.Some? ==> !next.value.Waiting? && PcOk(pf, after, next.value)
    ensures GoodStep(pf, disk, pc, env, after, next)
  {
    ActivationStays(pf, disk, after);
    hide Read, Verified, GoodDisk, PcOk, ChangeBy, Managed;
  }

  lemma CopyIsGood(pf: Platform, disk: Disk, pc: Pc, env: Env)
    requires GoodDisk(pf, disk) && PcOk(pf, disk, pc) && pc.Copying?
    ensures GoodStep(pf, disk, pc, env, CopyOne(pf, disk, pc, env).0, CopyOne(pf, disk, pc, env).1)
  {
    hide GoodDisk, GoodStep, ValidTag, Inspects, Ready, Publishes, Managed, Assets;
    QuietStep(pf, disk, pc, env, CopyOne(pf, disk, pc, env).0, CopyOne(pf, disk, pc, env).1);
  }

  lemma TagIsValid(pf: Platform, files: Files, tag: string, revision: string)
    requires Inspects(pf, files, tag, revision)
    ensures ValidTag(tag)
  {
    hide ValidTag;
  }

  /** Renaming an inspected directory into place. */
  lemma RenameIsGood(pf: Platform, disk: Disk, pc: Pc, env: Env)
    requires GoodDisk(pf, disk) && PcOk(pf, disk, pc) && pc.Renaming?
    ensures GoodStep(pf, disk, pc, env, RenameStep(disk, pc, env).0, RenameStep(disk, pc, env).1)
  {
    TagIsValid(pf, disk.staging[pc.dir], pc.tag, pc.revision);
    InspectedIsVerified(pf, disk.staging[pc.dir], pc.tag, pc.revision);
    hide Read, Verified, ValidTag, Inspects, GoodDisk, Managed, CanSwap, Activate, Publishes;
    if env.fails || pc.tag in disk.releases {
      QuietStep(pf, disk, pc, env, RenameStep(disk, pc, env).0, RenameStep(disk, pc, env).1);
    } else {
      ActivationStays(pf, disk, RenameStep(disk, pc, env).0);
    }
  }

  lemma CleanIsGood(pf: Platform, disk: Disk, pc: Pc, env: Env)
    requires GoodDisk(pf, disk) && PcOk(pf, disk, pc) && pc.Cleaning?
    ensures GoodStep(pf, disk, pc, env, CleanStep(disk, pc, env).0, CleanStep(disk, pc, env).1)
  {
    hide GoodDisk, GoodStep, ValidTag, Inspects, Ready, Publishes, Managed;
    QuietStep(pf, disk, pc, env, CleanStep(disk, pc, env).0, CleanStep(disk, pc, env).1);
  }

  lemma DecideIsGood(pf: Platform, disk: Disk, tag: string, revision: string, env: Env)
    requires GoodDisk(pf, disk) && ValidTag(tag)
    ensures GoodStep(pf, disk, Deciding(tag, revision), env,
                     DecideStep(pf, disk, tag, revision, env).0, DecideStep(pf, disk, tag, revision, env).1)
  {
    hide GoodDisk, GoodStep, ValidTag, Inspects, Publishes, Managed;
    QuietStep(pf, disk, Deciding(tag, revision), env,
              DecideStep(pf, disk, tag, revision, env).0, DecideStep(pf, disk, tag, revision, env).1);
  }

  lemma GoodDiskReads(pf: Platform, disk: Disk)
    requires GoodDisk(pf, disk)
    ensures Read(disk.active).Ok?
  {
    hide Read, Verified;
  }

  lemma TagPublishes(disk: Disk, tag: string)
    requires Read(disk.active).Ok? && Ready(disk.releases, tag) && Read(disk.active).value.current != Some(tag)
    ensures Publishes(disk.releases, disk.active, ToTag(tag), Print(tag, Read(disk.active).value.current))
  {
    TagsAreValid(disk.active);
    ReadPublished(tag, Read(disk.active).value.current);
    hide Read, Print, ValidTag;
  }

  lemma ActivateIsGood(pf: Platform, disk: Disk, tag: string, env: Env)
    requires GoodDisk(pf, disk) && Ready(disk.releases, tag)
    ensures GoodStep(pf, disk, Activating(tag), env, ActivateStep(disk, tag, env).0, ActivateStep(disk, tag, env).1)
  {
    hide Read, ValidTag, Print, GoodDisk, GoodStep, Managed, Publishes, Ready;
    GoodDiskReads(pf, disk);
    if Read(disk.active).value.current != Some(tag) {
      TagPublishes(disk, tag);
    }
    QuietStep(pf, disk, Activating(tag), env, ActivateStep(disk, tag, env).0, ActivateStep(disk, tag, env).1);
  }

  lemma BackPublishes(disk: Disk)
    requires Read(disk.active).Ok? && CanSwap(Read(disk.active).value)
    ensures var a := Read(disk.active).value;
            Publishes(disk.releases, disk.active, Back, Print(a.previous.value, a.current))
  {
    TagsAreValid(disk.active);
    var a := Read(disk.active).value;
    ReadPublished(a.previous.value, a.current);
    hide Read, Print, ValidTag;
  }

  lemma RollBackOnlyLooks(pf: Platform, disk: Disk, env: Env)
    requires Read(disk.active).Ok?
    ensures var (after, next) := RollBackStep(pf, disk, env);
            && after == disk
            && (next.Some? ==> CanSwap(Read(disk.active).value)
                               && var a := Read(disk.active).value;
                                  next.value == Publishing(ActiveFile(Back), Print(a.previous.value, a.current), env.name, Open))
  {
    hide Read, Verified, Print;
  }

  lemma RollBackIsGood(pf: Platform, disk: Disk, env: Env)
    requires GoodDisk(pf, disk)
    ensures GoodStep(pf, disk, RollingBack, env, RollBackStep(pf, disk, env).0, RollBackStep(pf, disk, env).1)
  {
    hide Read, Verified, ValidTag, Print, GoodDisk, GoodStep, Managed, Publishes, CanSwap, RollBackStep;
    GoodDiskReads(pf, disk);
    RollBackOnlyLooks(pf, disk, env);
    if RollBackStep(pf, disk, env).1.Some? {
      BackPublishes(disk);
    }
    QuietStep(pf, disk, RollingBack, env, RollBackStep(pf, disk, env).0, RollBackStep(pf, disk, env).1);
  }

  /** The activation a publication puts in place names releases that are there. */
  lemma ReplacedActivationIsGood(pf: Platform, disk: Disk, change: Change, text: string)
    requires GoodDisk(pf, disk) && Publishes(disk.releases, disk.active, change, text)
    ensures GoodActivation(disk.releases, Some(text))
    ensures Read(disk.active).Ok? && Read(Some(text)) == Ok(Apply(change, Read(disk.active).value))
  {
    hide Read, ValidTag, Verified;
  }

  lemma GoodWith(pf: Platform, disk: Disk, after: Disk)
    requires GoodDisk(pf, disk) && after.releases == disk.releases && GoodActivation(disk.releases, after.active)
    ensures GoodDisk(pf, after)
  {
    hide Read, Verified, GoodActivation;
  }

  /** The rename that changes the activation. */
  lemma ActivationReplaced(pf: Platform, disk: Disk, pc: Pc, env: Env)
    requires GoodDisk(pf, disk) && PcOk(pf, disk, pc) && pc.Publishing? && pc.stage == Replace
    requires pc.target.ActiveFile? && !env.fails
    ensures GoodStep(pf, disk, pc, env, PublishStep(disk, pc, env).0, PublishStep(disk, pc, env).1)
  {
    var after := PublishStep(disk, pc, env).0;
    ReplacedActivationIsGood(pf, disk, pc.target.change, pc.text);
    hide Read, ValidTag, Apply, GoodActivation, GoodDisk, Managed, Publishes;
    GoodWith(pf, disk, after);
  }

  lemma LauncherReplaced(pf: Platform, disk: Disk, pc: Pc, env: Env)
    requires pf.Valid() && GoodDisk(pf, disk) && PcOk(pf, disk, pc) && pc.Publishing? && pc.stage == Replace
    requires pc.target.LauncherFile? && !env.fails
    ensures GoodStep(pf, disk, pc, env, PublishStep(disk, pc, env).0, PublishStep(disk, pc, env).1)
  {
    hide Read, Verified, ValidTag, Publishes, GoodDisk, Ready;
    ActivationStays(pf, disk, PublishStep(disk, pc, env).0);
  }

  lemma TempIsGood(pf: Platform, disk: Disk, pc: Pc, env: Env)
    requires GoodDisk(pf, disk) && PcOk(pf, disk, pc) && pc.Publishing? && (pc.stage == Open || pc.stage == Write)
    ensures GoodStep(pf, disk, pc, env, PublishStep(disk, pc, env).0, PublishStep(disk, pc, env).1)
  {
    hide GoodDisk, GoodStep, ValidTag, Ready, Publishes, Managed;
    QuietStep(pf, disk, pc, env, PublishStep(disk, pc, env).0, PublishStep(disk, pc, env).1);
  }

  lemma EndIsGood(pf: Platform, disk: Disk, pc: Pc, env: Env)
    requires GoodDisk(pf, disk) && PcOk(pf, disk, pc) && pc.Publishing?
    requires pc.stage == Sync || pc.stage.Remove? || (pc.stage == Replace && env.fails)
    ensures GoodStep(pf, disk, pc, env, PublishStep(disk, pc, env).0, PublishStep(disk, pc, env).1)
  {
    hide GoodDisk, GoodStep, ValidTag, Ready, Publishes, Managed;
    QuietStep(pf, disk, pc, env, PublishStep(disk, pc, env).0, PublishStep(disk, pc, env).1);
  }

  lemma PublishIsGood(pf: Platform, disk: Disk, pc: Pc, env: Env)
    requires pf.Valid() && GoodDisk(pf, disk) && PcOk(pf, disk, pc) && pc.Publishing?
    ensures GoodStep(pf, disk, pc, env, PublishStep(disk, pc, env).0, PublishStep(disk, pc, env).1)
  {
    hide *;
    if pc.stage == Open || pc.stage == Write {
      TempIsGood(pf, disk, pc, env);
    } else if pc.stage == Replace && !env.fails {
      if pc.target.ActiveFile? {
        ActivationReplaced(pf, disk, pc, env);
      } else {
        LauncherReplaced(pf, disk, pc, env);
      }
    } else {
      EndIsGood(pf, disk, pc, env);
    }
  }

  lemma LookIsGood(pf: Platform, disk: Disk, pc: Pc, env: Env)
    requires GoodDisk(pf, disk) && PcOk(pf, disk, pc) && (pc.Inspecting? || pc.Syncing? || pc.Launching?)
    ensures GoodStep(pf, disk, pc, env, Operate(pf, disk, pc, env).0, Operate(pf, disk, pc, env).1)
  {
    hide GoodDisk, GoodStep, ValidTag, Inspects, Ready, Publishes;
    QuietStep(pf, disk, pc, env, Operate(pf, disk, pc, env).0, Operate(pf, disk, pc, env).1);
  }

  lemma OperationIsGood(pf: Platform, disk: Disk, pc: Pc, env: Env)
    requires pf.Valid() && GoodDisk(pf, disk) && PcOk(pf, disk, pc) && !pc.Waiting?
    ensures GoodStep(pf, disk, pc, env, Operate(pf, disk, pc, env).0, Operate(pf, disk, pc, env).1)
  {
    hide GoodDisk, GoodStep, ValidTag, Inspects, Ready, Publishes, Managed,
         CopyOne, PublishStep, RollBackStep, ActivateStep, LauncherStep, DecideStep, RenameStep, CleanStep;
    match pc
    case Waiting(_) =>
    case Deciding(tag, revision) => DecideIsGood(pf, disk, tag, revision, env);
    case Copying(_, _, _, _, _) => CopyIsGood(pf, disk, pc, env);
    case Inspecting(_, _, _) => LookIsGood(pf, disk, pc, env);
    case Renaming(_, _, _) => RenameIsGood(pf, disk, pc, env);
    case Syncing(_, _) => LookIsGood(pf, disk, pc, env);
    case Cleaning(_, _, _) => CleanIsGood(pf, disk, pc, env);
    case Launching(_) => LookIsGood(pf, disk, pc, env);
    case Activating(tag) => ActivateIsGood(pf, disk, tag, env);
    case RollingBack => RollBackIsGood(pf, disk, env);
    case Publishing(_, _, _, _) => PublishIsGood(pf, disk, pc, env);
  }

  // ------------------------------------------------------------------- events and runs

  function ChangeOf(m: Machine, e: Event): Option<Change> {
    if e.Work? && e.pid in m.procs then ChangeBy(m.disk, m.procs[e.pid], e.env) else None
  }

  /** From one machine to a later one: the invariant, every installed release and an unmanaged
      launcher are kept, and the activation moves only by the given changes. */
  ghost predicate Safely(pf: Platform, m: Machine, later: Machine, changes: seq<Change>) {
    && Inv(pf, later)
    && SameReleases(m.disk, later.disk)
    && ActivationOf(later.disk) == Fold(ActivationOf(m.disk), changes)
    && (!Managed(pf, m.disk.launcher) ==> later.disk.launcher == m.disk.launcher)
  }

  lemma FoldIf(a: Activation, h: seq<Change>, change: Option<Change>)
    ensures Fold(a, []) == a
    ensures Fold(a, h + AsSeq(change)) == ApplyIf(change, Fold(a, h))
    ensures [] + AsSeq(change) == AsSeq(change)
  {
    hide Apply;
    if change.Some? {
      assert (h + [change.value])[..|h|] == h;
    } else {
      assert h + [] == h;
    }
  }

  function AsSeq(change: Option<Change>): seq<Change> {
    if change.Some? then [change.value] else []
  }

  lemma EventIsSafe(pf: Platform, m: Machine, e: Event)
    requires pf.Valid() && Inv(pf, m)
    ensures Safely(pf, m, Next(pf, m, e), AsSeq(ChangeOf(m, e)))
  {
    hide GoodDisk, PcOk, Operate, ActivationOf, Apply, Managed, ValidTag;
    if e.Work? && e.pid in m.procs && !m.procs[e.pid].Waiting? {
      OperationIsGood(pf, m.disk, m.procs[e.pid], e.env);
      var change := ChangeOf(m, e);
      FoldIf(ActivationOf(m.disk), [], change);
    } else if e.Work? && e.pid in m.procs {
      EnteringIsSafe(pf, m, e.pid, e.env);
    } else if e.Start? {
      StartingIsSafe(pf, m, e);
    }
  }

  lemma EnteringIsSafe(pf: Platform, m: Machine, pid: nat, env: Env)
    requires Inv(pf, m) && pid in m.procs && m.procs[pid].Waiting?
    ensures Inv(pf, Enter(m, pid, m.procs[pid].goal, env))
  {
    hide GoodDisk, ValidTag;
  }

  lemma StartingIsSafe(pf: Platform, m: Machine, e: Event)
    requires Inv(pf, m) && e.Start?
    ensures Inv(pf, Next(pf, m, e))
  {
    if e.goal.Install? && Inspects(pf, e.candidate, e.goal.tag, e.goal.revision) {
      assert ValidTag(e.goal.tag);
    }
    hide GoodDisk, ValidTag, PcOk, Inspects;
  }

  /** The changes of activation a run makes, in order. */
  function History(pf: Platform, m: Machine, events: seq<Event>): seq<Change> {
    if events == [] then []
    else
      var before := events[..|events| - 1];
      History(pf, m, before) + AsSeq(ChangeOf(Run(pf, m, before), events[|events| - 1]))
  }

  function Fold(a: Activation, changes: seq<Change>): Activation {
    if changes == [] then a else Apply(changes[|changes| - 1], Fold(a, changes[..|changes| - 1]))
  }

  lemma SafelyThen(pf: Platform, m: Machine, middle: Machine, later: Machine, h: seq<Change>, change: Option<Change>)
    requires Safely(pf, m, middle, h) && Safely(pf, middle, later, AsSeq(change))
    ensures Safely(pf, m, later, h + AsSeq(change))
  {
    hide Inv, ActivationOf, Managed, Apply;
    FoldIf(ActivationOf(m.disk), h, change);
    FoldIf(ActivationOf(middle.disk), [], change);
    hide Fold;
  }

  /** Over every run of any number of processes: the activation file is absent or names verified
      installed releases, two different ones; installed releases never change or go away; and the
      activation is what the published changes, in order, make of the first one. */
  lemma {:induction false} RunsAreSafe(pf: Platform, m: Machine, events: seq<Event>)
    requires pf.Valid() && Inv(pf, m)
    ensures Safely(pf, m, Run(pf, m, events), History(pf, m, events))
  {
    if events == [] {
      hide Inv, ActivationOf, Managed;
    } else {
      hide Safely, Inv, Next;
      var before, e := events[..|events| - 1], events[|events| - 1];
      RunsAreSafe(pf, m, before);
      SafelyKeepsInv(pf, m, Run(pf, m, before), History(pf, m, before));
      EventIsSafe(pf, Run(pf, m, before), e);
      SafelyThen(pf, m, Run(pf, m, before), Run(pf, m, events), History(pf, m, before), ChangeOf(Run(pf, m, before), e));
    }
  }

  lemma SafelyKeepsInv(pf: Platform, m: Machine, later: Machine, changes: seq<Change>)
    requires Safely(pf, m, later, changes)
    ensures Inv(pf, later)
  {
    hide Inv;
  }

  const EMPTY := Machine(Disk(map[], map[], None, map[], None), None, map[])

  /** From an empty installation root, whatever runs, fails and dies, there is no activation file or
      the launcher starts a verified installed release. */
  lemma LauncherStartsVerifiedRelease(pf: Platform, events: seq<Event>)
    requires pf.Valid()
    ensures var disk := Run(pf, EMPTY, events).disk;
            && Read(disk.active).Ok?
            && (disk.active.Some? ==>
                  var a := Read(disk.active).value;
                  && a.current.Some? && a.current != a.previous
                  && a.current.value in disk.releases && Verified(pf, disk.releases[a.current.value], a.current.value)
                  && (a.previous.Some? ==> a.previous.value in disk.releases && Verified(pf, disk.releases[a.previous.value], a.previous.value)))
  {
    RunsAreSafe(pf, EMPTY, events);
    hide Verified, Run, History;
  }

  /** A change that happens could happen: a tag is not made current twice in a row and is an
      installed release, and a rollback has two different tags to swap. */
  lemma ChangesAreEnabled(pf: Platform, m: Machine, e: Event)
    requires Inv(pf, m) && ChangeOf(m, e).Some?
    ensures var a := ActivationOf(m.disk);
            match ChangeOf(m, e).value
            case ToTag(tag) => a.current != Some(tag) && tag in m.disk.releases
            case Back => CanSwap(a)
  {
    hide Read, ValidTag;
  }

  /** A rollback right after an update returns to the release before the update and keeps the
      update as the one to return to; two rollbacks in a row change nothing. */
  lemma RollBackUndoes(pf: Platform, m: Machine, events: seq<Event>, h: seq<Change>, tag: string)
    requires pf.Valid() && Inv(pf, m)
    requires Fold(ActivationOf(m.disk), h).current != Some(tag)
    ensures var a, after := Fold(ActivationOf(m.disk), h), ActivationOf(Run(pf, m, events).disk);
            && (History(pf, m, events) == h + [ToTag(tag), Back] ==> after == Activation(a.current, Some(tag)))
            && (History(pf, m, events) == h + [Back, Back] ==> after == a)
  {
    RunsAreSafe(pf, m, events);
    var a0 := ActivationOf(m.disk);
    FoldUndo(a0, h, tag);
    hide *;
    SafelyFolds(pf, m, Run(pf, m, events), History(pf, m, events));
  }

  lemma SafelyFolds(pf: Platform, m: Machine, later: Machine, changes: seq<Change>)
    requires Safely(pf, m, later, changes)
    ensures ActivationOf(later.disk) == Fold(ActivationOf(m.disk), changes)
  {
    hide Inv, Fold, ActivationOf;
  }

  lemma FoldUndo(a: Activation, h: seq<Change>, tag: string)
    requires Fold(a, h).current != Some(tag)
    ensures Fold(a, h + [ToTag(tag), Back]) == Activation(Fold(a, h).current, Some(tag))
    ensures Fold(a, h + [Back, Back]) == Fold(a, h)
  {
    FoldIf(a, h, Some(ToTag(tag)));
    FoldIf(a, h, Some(Back));
    FoldIf(a, h + [ToTag(tag)], Some(Back));
    FoldIf(a, h + [Back], Some(Back));
    assert h + [ToTag(tag), Back] == h + [ToTag(tag)] + [Back] && h + [Back, Back] == h + [Back] + [Back];
    hide Fold;
  }

  /** Only the lock holder writes: the steps of all other processes leave the disk alone. */
  lemma OnlyHolderWrites(pf: Platform, m: Machine, e: Event)
    requires Inv(pf, m) && Next(pf, m, e).disk != m.disk
    ensures e.Work? && m.holder == Some(e.pid)
  {
    hide GoodDisk, PcOk, Operate;
  }
}
