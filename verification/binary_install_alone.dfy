/** A call that nothing disturbs: run operation by operation on the machine, an install or a rollback
    leaves exactly what the methods of `InstallRoot` leave.
  */
module BinaryInstallAlone {
  import opened Json
  import opened ActivationFile
  import opened BinaryInstall
  import opened BinaryInstallMachine

  /** The environment of such a call: every operation works, copies hold what was copied, and new
      names are free. */
  predicate Calm(pf: Platform, candidate: Files, disk: Disk, pc: Pc, env: Env) {
    && !env.fails && env.exists_ && env.left == {}
    && env.name !in disk.temps
    && (pc.Deciding? ==> env.name !in disk.staging)
    && (pc.Copying? && pc.opened_ && pc.count < 8 && Assets(pf.binary)[pc.count] in candidate ==>
          env.text == candidate[Assets(pf.binary)[pc.count]])
  }

  /** An install that nothing stands in the way of. */
  predicate Clear(pf: Platform, disk: Disk, candidate: Files, tag: string, revision: string) {
    && Inspects(pf, candidate, tag, revision)
    && (tag in disk.releases ==> Inspects(pf, disk.releases[tag], tag, revision))
    && Managed(pf, disk.launcher) && Read(disk.active).Ok?
    && forall i, j | 0 <= i < j < 8 :: Assets(pf.binary)[i] != Assets(pf.binary)[j]
  }

  // ------------------------------------------------------------------- stages of a call

  /** A staging directory with the first `count` assets, and perhaps the next one begun. */
  predicate Staged(pf: Platform, start: Disk, candidate: Files, tag: string, disk: Disk, dir: string, count: nat, begun: bool) {
    && count < 8 && tag !in start.releases && dir !in start.staging && dir in disk.staging
    && disk == start.(staging := start.staging[dir := disk.staging[dir]])
    && var names, files := Assets(pf.binary), disk.staging[dir];
       if begun then names[count] in files && files - {names[count]} == Selected(candidate, names[..count])
       else files == Selected(candidate, names[..count])
  }

  /** The whole copy, not yet renamed. */
  predicate Copied(pf: Platform, start: Disk, candidate: Files, tag: string, disk: Disk, dir: string) {
    && tag !in start.releases && dir !in start.staging
    && disk == start.(staging := start.staging[dir := Released(pf, candidate)])
  }

  /** A publication that takes the disk from `before` to `after`. */
  predicate Published(before: Disk, after: Disk, disk: Disk, text: string, temp: string, stage: Stage) {
    temp !in before.temps &&
    match stage
    case Open => disk == before
    case Write => temp in disk.temps && disk == before.(temps := before.temps[temp := disk.temps[temp]])
    case Replace => disk == before.(temps := before.temps[temp := text])
    case Sync => disk == after
    case Remove(ok) => ok && disk == after
  }

  /** Where an undisturbed install that began on the disk `start` can stand. */
  predicate Installing(pf: Platform, start: Disk, candidate: Files, tag: string, revision: string, disk: Disk, pc: Option<Pc>)
    requires Read(start.active).Ok?
  {
    var released := WithRelease(pf, start, candidate, tag);
    var launched := WithLauncher(pf, released);
    if pc.None? then disk == Installed(pf, start, candidate, tag)
    else
      match pc.value
      case Waiting(_) => false
      case RollingBack => false
      case Deciding(t, r) => t == tag && r == revision && disk == start
      case Copying(t, r, dir, count, begun) =>
        t == tag && r == revision && Staged(pf, start, candidate, tag, disk, dir, count, begun)
      case Inspecting(t, r, dir) => t == tag && r == revision && Copied(pf, start, candidate, tag, disk, dir)
      case Renaming(t, r, dir) => t == tag && r == revision && Copied(pf, start, candidate, tag, disk, dir)
      case Syncing(t, dir) => t == tag && dir !in start.staging && disk == released
      case Cleaning(t, dir, ok) => ok && t == tag && dir !in start.staging && disk == released
      case Launching(t) => t == tag && disk == released
      case Activating(t) => t == tag && disk == launched
      case Publishing(target, text, temp, stage) =>
        match target
        case LauncherFile(t) =>
          t == tag && text == pf.script && start.launcher != Some(pf.script) && Published(released, launched, disk, text, temp, stage)
        case ActiveFile(change) =>
          && change == ToTag(tag) && Read(start.active).value.current != Some(tag)
          && text == Print(tag, Read(start.active).value.current)
          && Published(launched, Installed(pf, start, candidate, tag), disk, text, temp, stage)
  }

  /** Where an undisturbed rollback can stand. */
  predicate GoingBack(pf: Platform, start: Disk, disk: Disk, pc: Option<Pc>)
    requires Read(start.active).Ok? && CanSwap(Read(start.active).value)
  {
    if pc.None? then disk == RolledBack(start)
    else
      match pc.value
      case RollingBack => disk == start
      case Publishing(target, text, temp, stage) =>
        && target == ActiveFile(Back) && Some(text) == RolledBack(start).active
        && Published(start, RolledBack(start), disk, text, temp, stage)
      case _ => false
  }

  /** How many operations a call has left at most. */
  function Left(pc: Option<Pc>): nat {
    match pc
    case None => 0
    case Some(Waiting(_)) => 0
    case Some(Publishing(target, _, _, stage)) => (if target.ActiveFile? then 0 else 6) + StageLeft(stage)
    case Some(Activating(_)) => 6
    case Some(RollingBack) => 6
    case Some(Launching(_)) => 12
    case Some(Cleaning(_, _, _)) => 13
    case Some(Syncing(_, _)) => 14
    case Some(Renaming(_, _, _)) => 15
    case Some(Inspecting(_, _, _)) => 16
    case Some(Copying(_, _, _, count, begun)) => if count >= 8 then 17 else 17 + 2 * (7 - count) + if begun then 0 else 1
    case Some(Deciding(_, _)) => 33
  }

  function StageLeft(stage: Stage): nat {
    match stage
    case Open => 5
    case Write => 4
    case Replace => 3
    case Sync => 2
    case Remove(_) => 1
  }

  // ---------------------------------------------------------------------- one operation

  lemma PublishAdvances(before: Disk, after: Disk, disk: Disk, pc: Pc, env: Env)
    requires pc.Publishing? && !env.fails && env.exists_ && after.temps == before.temps
    requires Published(before, after, disk, pc.text, pc.temp, pc.stage)
    requires pc.target.ActiveFile? ==> after == before.(active := Some(pc.text))
    requires pc.target.LauncherFile? ==> after == before.(launcher := Some(pc.text))
    ensures var (later, next) := PublishStep(disk, pc, env);
            if pc.stage.Remove? then
              later == after && next == (if pc.target.ActiveFile? then None else Some(Activating(pc.target.tag)))
            else
              && next.Some? && next.value.Publishing? && next.value == pc.(stage := next.value.stage)
              && StageLeft(next.value.stage) < StageLeft(pc.stage)
              && Published(before, after, later, pc.text, pc.temp, next.value.stage)
  {
    if pc.stage.Replace? {
      assert before.temps[pc.temp := pc.text] - {pc.temp} == before.temps;
    } else if pc.stage.Write? {
      assert disk.temps[pc.temp := pc.text] == before.temps[pc.temp := pc.text];
    } else if pc.stage.Remove? {
      assert after.temps - {pc.temp} == after.temps;
    }
  }

  lemma NextAsset(pf: Platform, start: Disk, candidate: Files, tag: string, revision: string, count: nat)
    requires Clear(pf, start, candidate, tag, revision) && count < 8
    ensures Assets(pf.binary)[count] in candidate && Assets(pf.binary)[count] !in Assets(pf.binary)[..count]
  {
    assert Assets(pf.binary)[count] in Assets(pf.binary);
    hide Managed, Read, Assets, ValidTag;
  }

  /** The next asset is created in the staging directory. */
  lemma CopyOpens(pf: Platform, start: Disk, candidate: Files, tag: string, disk: Disk, pc: Pc, env: Env)
    requires pc.Copying? && !pc.opened_ && !env.fails && env.exists_
    requires Staged(pf, start, candidate, tag, disk, pc.dir, pc.count, false)
    requires Assets(pf.binary)[pc.count] !in Assets(pf.binary)[..pc.count]
    ensures var (later, next) := CopyOne(pf, disk, pc, env);
            next == Some(pc.(opened_ := true)) && Staged(pf, start, candidate, tag, later, pc.dir, pc.count, true)
  {
    hide Assets;
    var name, files := Assets(pf.binary)[pc.count], disk.staging[pc.dir];
    assert name !in files;
    assert CopyOne(pf, disk, pc, env).0.staging == start.staging[pc.dir := files[name := env.text]];
    assert files[name := env.text] - {name} == files;
  }

  /** The opened asset is filled. */
  lemma CopyFills(pf: Platform, start: Disk, candidate: Files, tag: string, disk: Disk, pc: Pc, env: Env)
    requires pc.Copying? && pc.opened_ && !env.fails
    requires Staged(pf, start, candidate, tag, disk, pc.dir, pc.count, true)
    requires Assets(pf.binary)[pc.count] in candidate && env.text == candidate[Assets(pf.binary)[pc.count]]
    ensures var (later, next) := CopyOne(pf, disk, pc, env);
            if pc.count == 7 then
              next == Some(Inspecting(pc.tag, pc.revision, pc.dir)) && Copied(pf, start, candidate, tag, later, pc.dir)
            else
              next == Some(pc.(count := pc.count + 1, opened_ := false))
              && Staged(pf, start, candidate, tag, later, pc.dir, pc.count + 1, false)
  {
    hide Assets, Selected;
    var names, files := Assets(pf.binary), disk.staging[pc.dir];
    var name := names[pc.count];
    assert CopyOne(pf, disk, pc, env).0.staging == start.staging[pc.dir := files[name := env.text]];
    SelectedNext(candidate, names, pc.count);
    assert files[name := env.text] == (files - {name})[name := env.text];
    assert pc.count == 7 ==> names[..pc.count + 1] == names;
  }

  lemma InspectAdvances(pf: Platform, start: Disk, candidate: Files, tag: string, revision: string, disk: Disk, pc: Pc, env: Env)
    requires Clear(pf, start, candidate, tag, revision)
    requires pc.Inspecting? && pc.tag == tag && pc.revision == revision
    requires Copied(pf, start, candidate, tag, disk, pc.dir) && !env.fails
    ensures Operate(pf, disk, pc, env) == (disk, Some(Renaming(tag, revision, pc.dir)))
  {
    InspectionReadsAssets(pf, candidate, Released(pf, candidate), tag, revision);
    hide Inspects, Managed, Read, Assets;
  }

  lemma RenameAdvances(pf: Platform, start: Disk, candidate: Files, tag: string, disk: Disk, pc: Pc, env: Env)
    requires pc.Renaming? && pc.tag == tag
    requires Copied(pf, start, candidate, tag, disk, pc.dir) && !env.fails
    ensures RenameStep(disk, pc, env) == (WithRelease(pf, start, candidate, tag), Some(Syncing(tag, pc.dir)))
  {
    hide Released;
    assert disk.staging - {pc.dir} == start.staging;
  }

  lemma DecideAdvances(pf: Platform, start: Disk, candidate: Files, tag: string, revision: string, env: Env)
    requires Clear(pf, start, candidate, tag, revision) && !env.fails && env.name !in start.staging
    ensures var (later, next) := DecideStep(pf, start, tag, revision, env);
            if tag in start.releases then later == start && next == Some(Launching(tag))
            else && next == Some(Copying(tag, revision, env.name, 0, false))
                 && Staged(pf, start, candidate, tag, later, env.name, 0, false)
  {
    hide Inspects, Managed, Read, Assets;
    SelectedNone(candidate, Assets(pf.binary));
  }

  lemma LauncherAdvances(pf: Platform, start: Disk, candidate: Files, tag: string, revision: string, env: Env)
    requires Clear(pf, start, candidate, tag, revision) && !env.fails && env.name !in start.temps
    ensures var released := WithRelease(pf, start, candidate, tag);
            LauncherStep(pf, released, tag, env) ==
              if start.launcher == Some(pf.script) then (WithLauncher(pf, released), Some(Activating(tag)))
              else (released, Some(Publishing(LauncherFile(tag), pf.script, env.name, Open)))
  {
    hide Inspects, Managed, Read, Assets, Released;
  }

  lemma ActivationAdvances(pf: Platform, start: Disk, candidate: Files, tag: string, revision: string, env: Env)
    requires Clear(pf, start, candidate, tag, revision) && !env.fails
    ensures var launched := WithLauncher(pf, WithRelease(pf, start, candidate, tag));
            var current := Read(start.active).value.current;
            ActivateStep(launched, tag, env) ==
              if current == Some(tag) then (Installed(pf, start, candidate, tag), None)
              else (launched, Some(Publishing(ActiveFile(ToTag(tag)), Print(tag, current), env.name, Open)))
  {
    assert ValidTag(tag);
    hide Inspects, Managed, Read, Assets, Released, Print, ValidTag;
  }

  lemma CopyAdvances(pf: Platform, start: Disk, candidate: Files, tag: string, revision: string, disk: Disk, pc: Pc, env: Env)
    requires Clear(pf, start, candidate, tag, revision) && Read(start.active).Ok? && pc.Copying?
    requires Installing(pf, start, candidate, tag, revision, disk, Some(pc)) && Calm(pf, candidate, disk, pc, env)
    ensures var (later, next) := CopyOne(pf, disk, pc, env);
            Installing(pf, start, candidate, tag, revision, later, next) && Left(next) < Left(Some(pc))
  {
    hide Clear, Read, Staged, Copied, CopyOne, Assets;
    StagedCount(pf, start, candidate, tag, disk, pc.dir, pc.count, pc.opened_);
    NextAsset(pf, start, candidate, tag, revision, pc.count);
    if pc.opened_ {
      CopyFills(pf, start, candidate, tag, disk, pc, env);
    } else {
      CopyOpens(pf, start, candidate, tag, disk, pc, env);
    }
  }

  lemma PublishesOn(pf: Platform, start: Disk, candidate: Files, tag: string, revision: string, disk: Disk, pc: Pc, env: Env)
    requires Read(start.active).Ok? && pc.Publishing?
    requires Installing(pf, start, candidate, tag, revision, disk, Some(pc)) && Calm(pf, candidate, disk, pc, env)
    ensures var (later, next) := PublishStep(disk, pc, env);
            Installing(pf, start, candidate, tag, revision, later, next) && Left(next) < Left(Some(pc))
  {
    hide Read, Released, Print, Published, PublishStep, StageLeft, Assets;
    var released := WithRelease(pf, start, candidate, tag);
    if pc.target.LauncherFile? {
      PublishAdvances(released, WithLauncher(pf, released), disk, pc, env);
    } else {
      PublishAdvances(WithLauncher(pf, released), Installed(pf, start, candidate, tag), disk, pc, env);
    }
    StagesLeft(pc.stage);
  }

  /** One calm operation keeps an install on its way and brings it nearer to its end. */
  lemma InstallAdvances(pf: Platform, start: Disk, candidate: Files, tag: string, revision: string, disk: Disk, pc: Pc, env: Env)
    requires Clear(pf, start, candidate, tag, revision) && Read(start.active).Ok?
    requires Installing(pf, start, candidate, tag, revision, disk, Some(pc)) && Calm(pf, candidate, disk, pc, env)
    ensures var (later, next) := Operate(pf, disk, pc, env);
            Installing(pf, start, candidate, tag, revision, later, next) && Left(next) < Left(Some(pc))
  {
    hide Inspects, Managed, Read, Assets, Released, Print, Staged, Copied, Published, PublishStep, CopyOne, RenameStep, DecideStep,
         LauncherStep, ActivateStep, RollBackStep, StageLeft, Clear;
    match pc
    case Deciding(t, r) => DecideAdvances(pf, start, candidate, tag, revision, env);
    case Copying(_, _, _, _, _) => CopyAdvances(pf, start, candidate, tag, revision, disk, pc, env);
    case Inspecting(_, _, _) => InspectAdvances(pf, start, candidate, tag, revision, disk, pc, env);
    case Renaming(_, _, dir) =>
      RenameAdvances(pf, start, candidate, tag, disk, pc, env);
      CopiedIsNew(pf, start, candidate, tag, disk, dir);
    case Syncing(_, _) =>
    case Cleaning(_, _, _) =>
    case Launching(_) =>
      LauncherAdvances(pf, start, candidate, tag, revision, env);
      PublishingOpens(WithRelease(pf, start, candidate, tag), WithLauncher(pf, WithRelease(pf, start, candidate, tag)), pf.script, env.name);
    case Activating(_) =>
      ActivationAdvances(pf, start, candidate, tag, revision, env);
      PublishingOpens(WithLauncher(pf, WithRelease(pf, start, candidate, tag)), Installed(pf, start, candidate, tag),
                      Print(tag, Read(start.active).value.current), env.name);
    case Publishing(target, text, temp, stage) => PublishesOn(pf, start, candidate, tag, revision, disk, pc, env);
  }

  lemma StagesLeft(stage: Stage)
    ensures 1 <= StageLeft(stage) <= 5 && StageLeft(Open) == 5 && (stage.Remove? <==> StageLeft(stage) == 1)
  {}

  lemma StagedCount(pf: Platform, start: Disk, candidate: Files, tag: string, disk: Disk, dir: string, count: nat, begun: bool)
    requires Staged(pf, start, candidate, tag, disk, dir, count, begun)
    ensures count < 8
  {}

  lemma CopiedIsNew(pf: Platform, start: Disk, candidate: Files, tag: string, disk: Disk, dir: string)
    requires Copied(pf, start, candidate, tag, disk, dir)
    ensures dir !in start.staging
  {}

  lemma PublishingOpens(before: Disk, after: Disk, text: string, temp: string)
    requires temp !in before.temps
    ensures Published(before, after, before, text, temp, Open) && StageLeft(Open) == 5
  {}

  lemma RollBackAdvances(pf: Platform, start: Disk, candidate: Files, disk: Disk, pc: Pc, env: Env)
    requires CanGoBack(pf, start) && GoingBack(pf, start, disk, Some(pc)) && Calm(pf, candidate, disk, pc, env)
    ensures var (later, next) := Operate(pf, disk, pc, env);
            GoingBack(pf, start, later, next) && Left(next) < Left(Some(pc))
  {
    hide Read, Print, Verified, Published, PublishStep, StageLeft, Assets;
    if pc.RollingBack? {
      PublishingOpens(start, RolledBack(start), RolledBack(start).active.value, env.name);
    } else {
      PublishAdvances(start, RolledBack(start), disk, pc, env);
      StagesLeft(pc.stage);
    }
  }

  // --------------------------------------------------------------------- the whole call

  /** A rollback that nothing stands in the way of. */
  predicate CanGoBack(pf: Platform, disk: Disk) {
    && Read(disk.active).Ok? && CanSwap(Read(disk.active).value)
    && Read(disk.active).value.previous.value in disk.releases
    && Verified(pf, disk.releases[Read(disk.active).value.previous.value], Read(disk.active).value.previous.value)
  }

  /** One process works and no other does. */
  function Works(pid: nat, envs: seq<Env>): seq<Event> {
    seq(|envs|, i requires 0 <= i < |envs| => Work(pid, envs[i]))
  }

  function PcOf(m: Machine, pid: nat): Option<Pc> {
    if pid in m.procs then Some(m.procs[pid]) else None
  }

  /** The machine after the first `n` operations. */
  function Reached(pf: Platform, m: Machine, pid: nat, envs: seq<Env>, n: nat): Machine
    requires n <= |envs|
  {
    Run(pf, m, Works(pid, envs[..n]))
  }

  ghost predicate Undisturbed(pf: Platform, m: Machine, pid: nat, candidate: Files, envs: seq<Env>) {
    forall n | 0 <= n < |envs| ::
      var now := Reached(pf, m, pid, envs, n);
      pid in now.procs ==> Calm(pf, candidate, now.disk, now.procs[pid], envs[n])
  }

  lemma ReachedNext(pf: Platform, m: Machine, pid: nat, envs: seq<Env>, n: nat)
    requires n < |envs|
    ensures Reached(pf, m, pid, envs, n + 1) == Next(pf, Reached(pf, m, pid, envs, n), Work(pid, envs[n]))
  {
    hide Next;
    var all := Works(pid, envs[..n + 1]);
    assert all[..|all| - 1] == Works(pid, envs[..n]);
  }

  /** The holder of the lock works; once its call is over nothing changes any more. */
  lemma WorkMeaning(pf: Platform, m: Machine, pid: nat, env: Env)
    requires pid in m.procs ==> m.holder == Some(pid) && !m.procs[pid].Waiting?
    requires pid !in m.procs ==> m.holder.None?
    ensures var later := Next(pf, m, Work(pid, env));
            if pid !in m.procs then later == m
            else
              var (disk, next) := Operate(pf, m.disk, m.procs[pid], env);
              && later.disk == disk && PcOf(later, pid) == next
              && later.holder == (if next.Some? then Some(pid) else None)
  {
    hide Operate;
  }

  /** Where an undisturbed install stands after `n` operations: on its way, or done. */
  lemma {:induction false} InstallReaches(
    pf: Platform, m: Machine, pid: nat, candidate: Files, tag: string, revision: string, envs: seq<Env>, n: nat)
    requires Clear(pf, m.disk, candidate, tag, revision) && Read(m.disk.active).Ok?
    requires m.holder == Some(pid) && PcOf(m, pid) == Some(Deciding(tag, revision))
    requires Undisturbed(pf, m, pid, candidate, envs) && n <= |envs|
    ensures var now := Reached(pf, m, pid, envs, n);
            && Installing(pf, m.disk, candidate, tag, revision, now.disk, PcOf(now, pid))
            && now.holder == (if pid in now.procs then Some(pid) else None)
            && Left(PcOf(now, pid)) <= if n < 33 then 33 - n else 0
  {
    hide Clear, Read, Installing, Calm, Left, Next, Operate;
    if n == 0 {
      StartsDeciding(pf, m.disk, candidate, tag, revision);
      assert Works(pid, envs[..0]) == [];
    } else {
      InstallReaches(pf, m, pid, candidate, tag, revision, envs, n - 1);
      var now := Reached(pf, m, pid, envs, n - 1);
      ReachedNext(pf, m, pid, envs, n - 1);
      NothingLeft(pf, m.disk, candidate, tag, revision, now.disk, PcOf(now, pid));
      WorkMeaning(pf, now, pid, envs[n - 1]);
      if pid in now.procs {
        InstallAdvances(pf, m.disk, candidate, tag, revision, now.disk, now.procs[pid], envs[n - 1]);
      }
    }
  }

  lemma StartsDeciding(pf: Platform, start: Disk, candidate: Files, tag: string, revision: string)
    requires Read(start.active).Ok?
    ensures Installing(pf, start, candidate, tag, revision, start, Some(Deciding(tag, revision)))
    ensures Left(Some(Deciding(tag, revision))) == 33
  {
    hide Read;
  }

  lemma NothingLeft(pf: Platform, start: Disk, candidate: Files, tag: string, revision: string, disk: Disk, pc: Option<Pc>)
    requires Read(start.active).Ok? && Installing(pf, start, candidate, tag, revision, disk, pc)
    ensures pc.Some? ==> !pc.value.Waiting? && Left(pc) > 0
    ensures Left(None) == 0
  {
    hide Read, Staged, Copied, Published, StageLeft, WithRelease, WithLauncher, Installed;
    if pc.Some? && pc.value.Publishing? {
      StagesLeft(pc.value.stage);
    }
  }

  /** An install that nothing stands in the way of and nothing disturbs ends within 33 operations,
      frees the lock and leaves exactly the installed disk that the method leaves. */
  lemma UndisturbedInstall(
    pf: Platform, m: Machine, pid: nat, candidate: Files, tag: string, revision: string, envs: seq<Env>)
    requires Clear(pf, m.disk, candidate, tag, revision) && Read(m.disk.active).Ok?
    requires m.holder == Some(pid) && PcOf(m, pid) == Some(Deciding(tag, revision))
    requires Undisturbed(pf, m, pid, candidate, envs) && |envs| >= 33
    ensures var end := Run(pf, m, Works(pid, envs));
            pid !in end.procs && end.holder.None? && end.disk == Installed(pf, m.disk, candidate, tag)
  {
    InstallReaches(pf, m, pid, candidate, tag, revision, envs, |envs|);
    assert envs[..|envs|] == envs;
    var end := Run(pf, m, Works(pid, envs));
    NothingLeft(pf, m.disk, candidate, tag, revision, end.disk, PcOf(end, pid));
    hide Clear, Read, Calm, Left, Next, Staged, Copied, Published, Released;
  }

  lemma {:induction false} RollBackReaches(pf: Platform, m: Machine, pid: nat, candidate: Files, envs: seq<Env>, n: nat)
    requires CanGoBack(pf, m.disk)
    requires m.holder == Some(pid) && PcOf(m, pid) == Some(RollingBack)
    requires Undisturbed(pf, m, pid, candidate, envs) && n <= |envs|
    ensures var now := Reached(pf, m, pid, envs, n);
            && GoingBack(pf, m.disk, now.disk, PcOf(now, pid))
            && now.holder == (if pid in now.procs then Some(pid) else None)
            && Left(PcOf(now, pid)) <= if n < 6 then 6 - n else 0
  {
    if n == 0 {
      hide Read, Verified, CanSwap, Calm, Next;
      assert Works(pid, envs[..0]) == [];
    } else {
      RollBackReaches(pf, m, pid, candidate, envs, n - 1);
      var now := Reached(pf, m, pid, envs, n - 1);
      ReachedNext(pf, m, pid, envs, n - 1);
      BackLeft(pf, m.disk, now.disk, PcOf(now, pid));
      hide CanGoBack, Read, CanSwap, GoingBack, Calm, Left, Next, Operate;
      WorkMeaning(pf, now, pid, envs[n - 1]);
      if pid in now.procs {
        RollBackAdvances(pf, m.disk, candidate, now.disk, now.procs[pid], envs[n - 1]);
      }
    }
  }

  lemma BackLeft(pf: Platform, start: Disk, disk: Disk, pc: Option<Pc>)
    requires CanGoBack(pf, start) && GoingBack(pf, start, disk, pc)
    ensures pc.Some? ==> !pc.value.Waiting? && Left(pc) > 0
    ensures Left(None) == 0
  {
    hide Read, Verified, Published, RolledBack, StageLeft;
    if pc.Some? && pc.value.Publishing? {
      StagesLeft(pc.value.stage);
    }
  }

  /** The same for a rollback, within six operations. */
  lemma UndisturbedRollBack(pf: Platform, m: Machine, pid: nat, candidate: Files, envs: seq<Env>)
    requires CanGoBack(pf, m.disk)
    requires m.holder == Some(pid) && PcOf(m, pid) == Some(RollingBack)
    requires Undisturbed(pf, m, pid, candidate, envs) && |envs| >= 6
    ensures var end := Run(pf, m, Works(pid, envs));
            pid !in end.procs && end.holder.None? && end.disk == RolledBack(m.disk)
  {
    RollBackReaches(pf, m, pid, candidate, envs, |envs|);
    assert envs[..|envs|] == envs;
    var end := Run(pf, m, Works(pid, envs));
    BackLeft(pf, m.disk, end.disk, PcOf(end, pid));
    hide Read, Verified, Calm, Left, Next, Published;
  }
}
