/** Installs and rollbacks of src/binary_install.rs by several processes, one file operation at a
    time.  Any operation may fail, a process may die after any operation, and what a half-written
    file holds is up to the environment.
  */
module BinaryInstallMachine {
  import opened Json
  import opened ActivationFile
  import opened BinaryInstall

  datatype Goal = Install(tag: string, revision: string) | RollBack

  /** What a publication does to the activation. */
  datatype Change = ToTag(tag: string) | Back

  /** The file being published, and for the launcher the tag to activate next. */
  datatype Target = ActiveFile(change: Change) | LauncherFile(tag: string)

  datatype Stage = Open | Write | Replace | Sync | Remove(ok: bool)

  /** Where a call stands. */
  datatype Pc =
    | Waiting(goal: Goal)
    | Deciding(tag: string, revision: string)
    | Copying(tag: string, revision: string, dir: string, count: nat, opened_: bool)
    | Inspecting(tag: string, revision: string, dir: string)
    | Renaming(tag: string, revision: string, dir: string)
    | Syncing(tag: string, dir: string)
    | Cleaning(tag: string, dir: string, ok: bool)
    | Launching(tag: string)
    | Activating(tag: string)
    | RollingBack
    | Publishing(target: Target, text: string, temp: string, stage: Stage)

  datatype Machine = Machine(disk: Disk, holder: Option<nat>, procs: map<nat, Pc>)

  /** What the environment decides about one operation: whether it fails, the text a copied or
      half-written file turns out to have, whether the copied file exists, a fresh or not so fresh
      name, and the files a directory removal leaves behind. */
  datatype Env = Env(fails: bool, text: string, exists_: bool, name: string, left: set<string>)

  datatype Event =
    | Start(pid: nat, goal: Goal, candidate: Files)
    | Work(pid: nat, env: Env)
    | Crash(pid: nat)

  // --------------------------------------------------------------- one file operation

  function Apply(change: Change, a: Activation): Activation {
    match change
    case ToTag(tag) => Activate(a, tag)
    case Back => Swap(a)
  }

  function CopyOne(pf: Platform, disk: Disk, pc: Pc, env: Env): (Disk, Option<Pc>)
    requires pc.Copying?
  {
    var failed := (disk, Some(Cleaning(pc.tag, pc.dir, false)));
    if env.fails || pc.dir !in disk.staging || pc.count >= 8 then failed
    else
      var name := Assets(pf.binary)[pc.count];
      var files := disk.staging[pc.dir];
      if !pc.opened_ then
        if !env.exists_ || name in files then failed
        else (disk.(staging := disk.staging[pc.dir := files[name := env.text]]), Some(pc.(opened_ := true)))
      else
        (disk.(staging := disk.staging[pc.dir := files[name := env.text]]),
         Some(if pc.count == 7 then Inspecting(pc.tag, pc.revision, pc.dir) else pc.(count := pc.count + 1, opened_ := false)))
  }

  /** `publish_bytes`, operation by operation. */
  function PublishStep(disk: Disk, pc: Pc, env: Env): (Disk, Option<Pc>)
    requires pc.Publishing?
  {
    var temp := pc.temp;
    match pc.stage
    case Open =>
      if env.fails || temp in disk.temps then (disk, Some(pc.(stage := Remove(false))))
      else (disk.(temps := disk.temps[temp := env.text]), Some(pc.(stage := Write)))
    case Write =>
      if env.fails then (disk.(temps := disk.temps[temp := env.text]), Some(pc.(stage := Remove(false))))
      else (disk.(temps := disk.temps[temp := pc.text]), Some(pc.(stage := Replace)))
    case Replace =>
      if env.fails || temp !in disk.temps then (disk, Some(pc.(stage := Remove(false))))
      else if pc.target.ActiveFile? then
        (disk.(active := Some(disk.temps[temp]), temps := disk.temps - {temp}), Some(pc.(stage := Sync)))
      else
        (disk.(launcher := Some(disk.temps[temp]), temps := disk.temps - {temp}), Some(pc.(stage := Sync)))
    case Sync => (disk, Some(pc.(stage := Remove(!env.fails))))
    case Remove(ok) =>
      (if env.fails then disk else disk.(temps := disk.temps - {temp}),
       if ok && pc.target.LauncherFile? && env.exists_ then Some(Activating(pc.target.tag)) else None)
  }

  /** A rollback looks at the activation and at the previous release. */
  function RollBackStep(pf: Platform, disk: Disk, env: Env): (Disk, Option<Pc>) {
    if env.fails || Read(disk.active).Err? then (disk, None)
    else
      var a := Read(disk.active).value;
      if !CanSwap(a) then (disk, None)
      else if a.previous.value !in disk.releases || !Verified(pf, disk.releases[a.previous.value], a.previous.value) then (disk, None)
      else (disk, Some(Publishing(ActiveFile(Back), Print(a.previous.value, a.current), env.name, Open)))
  }

  function ActivateStep(disk: Disk, tag: string, env: Env): (Disk, Option<Pc>) {
    if env.fails || Read(disk.active).Err? || !ValidTag(tag) then (disk, None)
    else
      var a := Read(disk.active).value;
      if a.current == Some(tag) then (disk, None)
      else (disk, Some(Publishing(ActiveFile(ToTag(tag)), Print(tag, a.current), env.name, Open)))
  }

  function LauncherStep(pf: Platform, disk: Disk, tag: string, env: Env): (Disk, Option<Pc>) {
    if env.fails || !Managed(pf, disk.launcher) then (disk, None)
    else if disk.launcher == Some(pf.script) then (disk, Some(Activating(tag)))
    else (disk, Some(Publishing(LauncherFile(tag), pf.script, env.name, Open)))
  }

  function DecideStep(pf: Platform, disk: Disk, tag: string, revision: string, env: Env): (Disk, Option<Pc>) {
    if tag in disk.releases then
      (disk, if !env.fails && Inspects(pf, disk.releases[tag], tag, revision) then Some(Launching(tag)) else None)
    else if env.fails || env.name in disk.staging then (disk, Some(Cleaning(tag, env.name, false)))
    else (disk.(staging := disk.staging[env.name := map[]]), Some(Copying(tag, revision, env.name, 0, false)))
  }

  function RenameStep(disk: Disk, pc: Pc, env: Env): (Disk, Option<Pc>)
    requires pc.Renaming?
  {
    if env.fails || pc.tag in disk.releases || pc.dir !in disk.staging then (disk, Some(Cleaning(pc.tag, pc.dir, false)))
    else (disk.(releases := disk.releases[pc.tag := disk.staging[pc.dir]], staging := disk.staging - {pc.dir}),
          Some(Syncing(pc.tag, pc.dir)))
  }

  /** Removing a directory takes some of its files, then the directory; a failure is ignored. */
  function CleanStep(disk: Disk, pc: Pc, env: Env): (Disk, Option<Pc>)
    requires pc.Cleaning?
  {
    var next := if pc.ok then Some(Launching(pc.tag)) else None;
    if pc.dir !in disk.staging || env.fails then (disk, next)
    else if env.left != {} then
      (disk.(staging := disk.staging[pc.dir := (map n | n in disk.staging[pc.dir] && n in env.left :: disk.staging[pc.dir][n])]), Some(pc))
    else (disk.(staging := disk.staging - {pc.dir}), next)
  }

  /** One operation of the process that holds the lock; None when its call is over. */
  function Operate(pf: Platform, disk: Disk, pc: Pc, env: Env): (Disk, Option<Pc>) {
    match pc
    case Waiting(_) => (disk, None)
    case Deciding(tag, revision) => DecideStep(pf, disk, tag, revision, env)
    case Copying(_, _, _, _, _) => CopyOne(pf, disk, pc, env)
    case Inspecting(tag, revision, dir) =>
      (disk, Some(if !env.fails && dir in disk.staging && Inspects(pf, disk.staging[dir], tag, revision)
                  then Renaming(tag, revision, dir) else Cleaning(tag, dir, false)))
    case Renaming(_, _, _) => RenameStep(disk, pc, env)
    case Syncing(tag, dir) => (disk, Some(Cleaning(tag, dir, !env.fails)))
    case Cleaning(_, _, _) => CleanStep(disk, pc, env)
    case Launching(tag) => LauncherStep(pf, disk, tag, env)
    case Activating(tag) => ActivateStep(disk, tag, env)
    case RollingBack => RollBackStep(pf, disk, env)
    case Publishing(_, _, _, _) => PublishStep(disk, pc, env)
  }

  // ----------------------------------------------------------------------- the machine

  /** The call is over: its process holds nothing any more. */
  function Leave(m: Machine, pid: nat): Machine {
    m.(procs := m.procs - {pid}, holder := if m.holder == Some(pid) then None else m.holder)
  }

  /** `try_lock`: the call fails at once when another process holds the lock. */
  function Enter(m: Machine, pid: nat, goal: Goal, env: Env): Machine {
    if env.fails || m.holder.Some? then m.(procs := m.procs - {pid})
    else m.(holder := Some(pid), procs := m.procs[pid :=
              match goal case Install(tag, revision) => Deciding(tag, revision) case RollBack => RollingBack])
  }

  function Next(pf: Platform, m: Machine, e: Event): Machine {
    match e
    case Start(pid, goal, candidate) =>
      if pid in m.procs || (goal.Install? && !Inspects(pf, candidate, goal.tag, goal.revision)) then m
      else m.(procs := m.procs[pid := Waiting(goal)])
    case Crash(pid) => Leave(m, pid)
    case Work(pid, env) =>
      if pid !in m.procs then m
      else if m.procs[pid].Waiting? then Enter(m, pid, m.procs[pid].goal, env)
      else
        var (disk, next) := Operate(pf, m.disk, m.procs[pid], env);
        if next.None? then Leave(m.(disk := disk), pid)
        else m.(disk := disk, procs := m.procs[pid := next.value])
  }

  function Run(pf: Platform, m: Machine, events: seq<Event>): Machine {
    if events == [] then m else Next(pf, Run(pf, m, events[..|events| - 1]), events[|events| - 1])
  }

  // ------------------------------------------------------------------------- invariants

  /** A release that may be activated: it is installed, and installed releases are verified. */
  predicate Ready(releases: map<string, Files>, tag: string) {
    tag in releases && ValidTag(tag)
  }

  /** The text about to be published says what the change makes of the present activation. */
  predicate Publishes(releases: map<string, Files>, active: Option<string>, change: Change, text: string) {
    && Read(active).Ok?
    && var a := Read(active).value;
       && (change.ToTag? ==> Ready(releases, change.tag) && a.current != Some(change.tag))
       && (change.Back? ==> CanSwap(a))
       && Read(Some(text)) == Ok(Apply(change, a))
  }

  predicate PcOk(pf: Platform, disk: Disk, pc: Pc) {
    match pc
    case Waiting(_) => true
    case Deciding(tag, _) => ValidTag(tag)
    case Copying(tag, _, dir, count, _) => ValidTag(tag) && count < 8
    case Inspecting(tag, _, _) => ValidTag(tag)
    case Renaming(tag, revision, dir) => dir in disk.staging && Inspects(pf, disk.staging[dir], tag, revision)
    case Syncing(tag, _) => Ready(disk.releases, tag)
    case Cleaning(tag, _, ok) => ok ==> Ready(disk.releases, tag)
    case Launching(tag) => Ready(disk.releases, tag)
    case Activating(tag) => Ready(disk.releases, tag)
    case RollingBack => true
    case Publishing(target, text, temp, stage) =>
      && (target.LauncherFile? ==> Ready(disk.releases, target.tag) && text == pf.script && Managed(pf, disk.launcher))
      && (target.ActiveFile? && stage in {Open, Write, Replace} ==> Publishes(disk.releases, disk.active, target.change, text))
      && (stage == Replace ==> temp in disk.temps && disk.temps[temp] == text)
  }

  predicate Inv(pf: Platform, m: Machine) {
    && GoodDisk(pf, m.disk)
    && (m.holder.Some? ==> m.holder.value in m.procs)
    && (forall pid | pid in m.procs :: m.procs[pid].Waiting? <==> m.holder != Some(pid))
    && (forall pid | pid in m.procs && m.procs[pid].Waiting? && m.procs[pid].goal.Install? :: ValidTag(m.procs[pid].goal.tag))
    && (m.holder.Some? ==> PcOk(pf, m.disk, m.procs[m.holder.value]))
  }
}
