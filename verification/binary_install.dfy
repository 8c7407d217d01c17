/** Installation and rollback of prebuilt binaries, as src/binary_install.rs runs them under the
    install lock.  Releases are directories that are written once; the activation file names the
    current and the previous one.
  */
module BinaryInstall {
  import opened Json
  import opened ActivationFile

  type Files = map<string, string>

  datatype Publication = Publication(tag: string, revision: string)

  /** What the installation takes from its platform and from parts outside this model: the name
      of the native binary, the launcher script and the line it starts with when it is managed, the
      reader of Publication Records, and the checks that hold the assets of a release together
      (digests, provenance fields, trust binding, build record, checksums). */
  datatype Platform = Platform(
    binary: string,
    script: string,
    marker: string,
    publication: string -> Option<Publication>,
    bound: Files -> bool)
  {
    ghost predicate Valid() {
      marker <= script
    }
  }

  const PUBLICATION := "publication-record.json"

  /** The eight files of a release, in the order they are copied. */
  function Assets(binary: string): (names: seq<string>)
    ensures |names| == 8
  {
    [binary, binary + ".build.json", "SHA256SUMS", PUBLICATION, "distribution-trust.json",
     "candidate-framework.lock", "framework-release.tar", "publish-receipt.json"]
  }

  predicate ValidRevision(revision: string) {
    |revision| == 40 && forall i | 0 <= i < 40 :: '0' <= revision[i] <= '9' || 'a' <= revision[i] <= 'f'
  }

  function Selected(files: Files, names: seq<string>): Files {
    map name | name in names && name in files :: files[name]
  }

  /** The assets of a release among some files. */
  function Released(pf: Platform, files: Files): Files {
    Selected(files, Assets(pf.binary))
  }

  lemma SelectedNone(files: Files, names: seq<string>)
    ensures Selected(files, names[..0]) == map[]
  {}

  lemma SelectedNext(files: Files, names: seq<string>, i: nat)
    requires i < |names| && names[i] in files
    ensures Selected(files, names[..i + 1]) == Selected(files, names[..i])[names[i] := files[names[i]]]
  {
    assert names[..i + 1] == names[..i] + [names[i]];
  }

  /** `inspect_binary_candidate` */
  predicate Inspects(pf: Platform, files: Files, tag: string, revision: string) {
    && ValidTag(tag) && ValidRevision(revision)
    && (forall name | name in Assets(pf.binary) :: name in files)
    && pf.publication(files[PUBLICATION]) == Some(Publication(tag, revision))
    && pf.bound(Released(pf, files))
  }

  /** A release directory that passes inspection under its own tag. */
  predicate Verified(pf: Platform, files: Files, tag: string) {
    && PUBLICATION in files && pf.publication(files[PUBLICATION]).Some?
    && Inspects(pf, files, tag, pf.publication(files[PUBLICATION]).value.revision)
  }

  lemma InspectedIsVerified(pf: Platform, files: Files, tag: string, revision: string)
    requires Inspects(pf, files, tag, revision)
    ensures Verified(pf, files, tag)
  {
    assert PUBLICATION in Assets(pf.binary);
  }

  /** Inspection looks at the eight assets only. */
  lemma InspectionReadsAssets(pf: Platform, files: Files, other: Files, tag: string, revision: string)
    requires forall name | name in Assets(pf.binary) :: name in files && name in other && files[name] == other[name]
    ensures Inspects(pf, files, tag, revision) <==> Inspects(pf, other, tag, revision)
  {
    assert PUBLICATION in Assets(pf.binary);
    assert Released(pf, files) == Released(pf, other);
  }

  /** The installation root on disk: releases by tag, staging directories and temporary files by
      name, the activation file and the launcher. */
  datatype Disk = Disk(
    releases: map<string, Files>,
    staging: map<string, Files>,
    active: Option<string>,
    temps: map<string, string>,
    launcher: Option<string>)

  /** The activation names verified releases, and two different ones. */
  predicate GoodActivation(releases: map<string, Files>, active: Option<string>) {
    && Read(active).Ok?
    && var a := Read(active).value;
       && (a.current.Some? ==> a.current.value in releases)
       && (a.previous.Some? ==> a.previous.value in releases)
       && (a.current.None? ==> a.previous.None?)
       && (a.current.Some? ==> a.current != a.previous)
  }

  predicate GoodDisk(pf: Platform, disk: Disk) {
    && (forall tag | tag in disk.releases :: Verified(pf, disk.releases[tag], tag))
    && GoodActivation(disk.releases, disk.active)
  }

  // ------------------------------------------------------- what a change of activation means

  /** Activating a tag remembers the tag that was current; the active tag changes nothing. */
  function Activate(a: Activation, tag: string): Activation {
    if a.current == Some(tag) then a else Activation(Some(tag), a.current)
  }

  /** Rolling back makes the previous tag current and remembers the other one. */
  function Swap(a: Activation): Activation {
    Activation(a.previous, a.current)
  }

  predicate CanSwap(a: Activation) {
    a.current.Some? && a.previous.Some? && a.current != a.previous
  }

  datatype Receipt = Receipt(current: string, previous: Option<string>, alreadyInstalled: bool)

  datatype InstallError =
    | NotACandidate | StagingFailed | NotAsInspected | UnmanagedLauncher | NotPublished
    | BadActivation | NoCurrent | NoPrevious | NotDistinct | BadPrevious

  predicate Managed(pf: Platform, launcher: Option<string>) {
    launcher.Some? ==> pf.marker <= launcher.value
  }

  /** Whether the directory sync after each rename works: that of the release, of the launcher and
      of the activation file.  A sync that fails is an error after the rename has happened. */
  datatype Syncs = Syncs(release: bool, launcher: bool, activation: bool)

  /** When an install by one process alone gets as far as the activation it leaves. */
  predicate Activates(pf: Platform, disk: Disk, candidate: Files, tag: string, revision: string,
                      dir: string, temp: string, temp2: string, syncs: Syncs) {
    && Inspects(pf, candidate, tag, revision)
    && (if tag in disk.releases then Inspects(pf, disk.releases[tag], tag, revision) else dir !in disk.staging && syncs.release)
    && Managed(pf, disk.launcher)
    && (disk.launcher != Some(pf.script) ==> temp !in disk.temps && syncs.launcher)
    && Read(disk.active).Ok?
    && (Read(disk.active).value.current != Some(tag) ==> temp2 !in disk.temps)
  }

  /** When it succeeds. */
  predicate CanInstall(pf: Platform, disk: Disk, candidate: Files, tag: string, revision: string,
                       dir: string, temp: string, temp2: string, syncs: Syncs) {
    && Activates(pf, disk, candidate, tag, revision, dir, temp, temp2, syncs)
    && (Read(disk.active).value.current != Some(tag) ==> syncs.activation)
  }

  /** The root with the release in place. */
  function WithRelease(pf: Platform, disk: Disk, candidate: Files, tag: string): Disk {
    if tag in disk.releases then disk else disk.(releases := disk.releases[tag := Released(pf, candidate)])
  }

  function WithLauncher(pf: Platform, disk: Disk): Disk {
    disk.(launcher := Some(pf.script))
  }

  /** The root with the tag active; the active tag leaves the file alone. */
  function WithActive(disk: Disk, tag: string): Disk
    requires Read(disk.active).Ok?
  {
    var current := Read(disk.active).value.current;
    if current == Some(tag) then disk else disk.(active := Some(Print(tag, current)))
  }

  /** What a successful install leaves. */
  function Installed(pf: Platform, disk: Disk, candidate: Files, tag: string): Disk
    requires Read(disk.active).Ok?
  {
    WithActive(WithLauncher(pf, WithRelease(pf, disk, candidate, tag)), tag)
  }

  /** What a successful rollback leaves. */
  function RolledBack(disk: Disk): Disk
    requires Read(disk.active).Ok? && CanSwap(Read(disk.active).value)
  {
    var a := Read(disk.active).value;
    disk.(active := Some(Print(a.previous.value, a.current)))
  }

  /** When a rollback by one process alone gets as far as the activation it leaves. */
  predicate CanRollBack(pf: Platform, disk: Disk, temp: string) {
    && Read(disk.active).Ok? && CanSwap(Read(disk.active).value)
    && Read(disk.active).value.previous.value in disk.releases
    && Verified(pf, disk.releases[Read(disk.active).value.previous.value], Read(disk.active).value.previous.value)
    && temp !in disk.temps
  }

  class InstallRoot {
    var releases: map<string, Files>
    var staging: map<string, Files>
    var active: Option<string>
    var temps: map<string, string>
    var launcher: Option<string>

    function State(): Disk
      reads this
    {
      Disk(releases, staging, active, temps, launcher)
    }

    /** `publish_bytes` for the activation file: a temporary file, renamed over the target, then a sync. */
    method PublishActive(text: string, temp: string, synced: bool) returns (ok: bool)
      modifies this`active, this`temps
      ensures ok == (temp !in old(temps) && synced)
      ensures active == if temp !in old(temps) then Some(text) else old(active)
      ensures temps == old(temps) - {temp}
    {
      ok := temp !in temps;
      if ok {
        temps := temps[temp := text];
        active := Some(temps[temp]);
        ok := synced;
      }
      temps := temps - {temp};
    }

    /** The same for the launcher. */
    method PublishLauncher(text: string, temp: string, synced: bool) returns (ok: bool)
      modifies this`launcher, this`temps
      ensures ok == (temp !in old(temps) && synced)
      ensures launcher == if temp !in old(temps) then Some(text) else old(launcher)
      ensures temps == old(temps) - {temp}
    {
      ok := temp !in temps;
      if ok {
        temps := temps[temp := text];
        launcher := Some(temps[temp]);
        ok := synced;
      }
      temps := temps - {temp};
    }

    /** `publish_activation` for valid tags: once renamed the file reads back as those tags. */
    method PublishActivation(current: string, previous: Option<string>, temp: string, synced: bool) returns (ok: bool)
      requires ValidTag(current) && (previous.Some? ==> ValidTag(previous.value))
      modifies this`active, this`temps
      ensures ok == (temp !in old(temps) && synced)
      ensures active == if temp !in old(temps) then Some(Print(current, previous)) else old(active)
      ensures temp !in old(temps) ==> Read(active) == Ok(Activation(Some(current), previous))
      ensures temps == old(temps) - {temp}
    {
      ok := PublishActive(Print(current, previous), temp, synced);
      ReadPublished(current, previous);
    }

    /** The eight copies into a new staging directory. */
    method Stage(pf: Platform, candidate: Files, dir: string) returns (ok: bool)
      requires forall name | name in Assets(pf.binary) :: name in candidate
      modifies this`staging
      ensures ok == (dir !in old(staging))
      ensures !ok ==> staging == old(staging)
      ensures ok ==> staging == old(staging)[dir := Released(pf, candidate)]
    {
      ok := dir !in staging;
      if !ok {
        return;
      }
      var copied: Files := map[];
      staging := staging[dir := copied];
      var names := Assets(pf.binary);
      hide Assets, Selected;
      assert copied == Selected(candidate, names[..0]) by {
        SelectedNone(candidate, names);
      }
      for i := 0 to |names|
        invariant staging == old(staging)[dir := copied]
        invariant copied == Selected(candidate, names[..i])
      {
        SelectedNext(candidate, names, i);
        copied := copied[names[i] := candidate[names[i]]];
        staging := staging[dir := copied];
      }
      assert names[..|names|] == names;
    }

    /** `write_managed_launcher` */
    method WriteLauncher(pf: Platform, temp: string, synced: bool) returns (ok: bool)
      requires pf.Valid()
      modifies this`launcher, this`temps
      ensures ok <==> Managed(pf, old(launcher)) && (old(launcher) == Some(pf.script) || (temp !in old(temps) && synced))
      ensures launcher == if Managed(pf, old(launcher)) && temp !in old(temps) then Some(pf.script) else old(launcher)
      ensures temps == if Managed(pf, old(launcher)) && old(launcher) != Some(pf.script) then old(temps) - {temp} else old(temps)
    {
      if launcher.Some? {
        if !(pf.marker <= launcher.value) {
          return false;
        }
        if launcher.value == pf.script {
          return true;
        }
      }
      ok := PublishLauncher(pf.script, temp, synced);
    }

    /** The staged part of `install_binary_candidate`: copy, inspect the copy, rename it into place.
        The staging directory is gone afterwards, also when it was left over from another call. */
    method AddRelease(pf: Platform, candidate: Files, tag: string, revision: string, dir: string, synced: bool) returns (ok: bool)
      requires Inspects(pf, candidate, tag, revision) && tag !in releases
      modifies this`releases, this`staging
      ensures ok == (dir !in old(staging) && synced)
      ensures releases == if dir !in old(staging) then old(releases)[tag := Released(pf, candidate)] else old(releases)
      ensures staging == old(staging) - {dir}
      ensures Inspects(pf, Released(pf, candidate), tag, revision)
    {
      ok := Stage(pf, candidate, dir);
      InspectionReadsAssets(pf, candidate, Released(pf, candidate), tag, revision);
      if ok && Inspects(pf, staging[dir], tag, revision) {
        releases, staging := releases[tag := staging[dir]], staging - {dir};
        ok := synced;
      }
      if dir in staging {
        staging := staging - {dir};
      }
    }

    /** The release half of `install_binary_candidate`. */
    method EnsureRelease(pf: Platform, candidate: Files, tag: string, revision: string, dir: string, synced: bool) returns (ok: bool)
      requires Inspects(pf, candidate, tag, revision)
      modifies this`releases, this`staging
      ensures ok <==> if tag in old(releases) then Inspects(pf, old(releases)[tag], tag, revision) else dir !in old(staging) && synced
      ensures releases == if tag !in old(releases) && dir !in old(staging) then old(releases)[tag := Released(pf, candidate)] else old(releases)
      ensures staging == if tag in old(releases) then old(staging) else old(staging) - {dir}
      ensures ok || (tag in releases && tag !in old(releases)) ==> tag in releases && Verified(pf, releases[tag], tag)
    {
      if tag in releases {
        ok := Inspects(pf, releases[tag], tag, revision);
        if ok {
          InspectedIsVerified(pf, releases[tag], tag, revision);
        }
      } else {
        ok := AddRelease(pf, candidate, tag, revision, dir, synced);
        InspectedIsVerified(pf, Released(pf, candidate), tag, revision);
      }
    }

    /** The activation half: the activation that results is `Activate` of the one before. */
    method ActivateTag(tag: string, temp: string, synced: bool) returns (r: Result<Option<string>, InstallError>)
      requires ValidTag(tag)
      modifies this`active, this`temps
      ensures r.Ok? <==> Read(old(active)).Ok? && (Read(old(active)).value.current != Some(tag) ==> temp !in old(temps) && synced)
      ensures Read(old(active)).Err? ==> active == old(active)
      ensures Read(old(active)).Ok? ==>
                var a := Read(old(active)).value;
                if a.current == Some(tag) then active == old(active) && temps == old(temps)
                else && temps == old(temps) - {temp}
                     && active == (if temp in old(temps) then old(active) else Some(Print(tag, a.current)))
      ensures r.Ok? ==> r.value == Activate(Read(old(active)).value, tag).previous
      ensures Read(old(active)).Ok? && (Read(old(active)).value.current != Some(tag) ==> temp !in old(temps)) ==>
                Read(active) == Ok(Activate(Read(old(active)).value, tag))
    {
      hide Read, Print;
      var activation := Read(active);
      if activation.Err? {
        return Err(BadActivation);
      }
      var a := activation.value;
      if a.current == Some(tag) {
        return Ok(a.previous);
      }
      TagsAreValid(active);
      var published := PublishActivation(tag, a.current, temp, synced);
      if !published {
        return Err(NotPublished);
      }
      return Ok(a.current);
    }

    /** The steps of `install_binary_candidate` for an inspected candidate. */
    method InstallInspected(pf: Platform, candidate: Files, tag: string, revision: string, dir: string, temp: string, temp2: string, syncs: Syncs)
      returns (r: Result<Receipt, InstallError>)
      requires pf.Valid() && Inspects(pf, candidate, tag, revision) && ValidTag(tag)
      modifies this
      ensures r.Ok? <==> CanInstall(pf, old(State()), candidate, tag, revision, dir, temp, temp2, syncs)
      ensures r.Ok? ==>
                && State() == Installed(pf, old(State()), candidate, tag)
                && r.value == Receipt(tag, Activate(Read(old(active)).value, tag).previous, tag in old(releases))
      ensures if Activates(pf, old(State()), candidate, tag, revision, dir, temp, temp2, syncs)
              then active == WithActive(old(State()), tag).active && Read(active) == Ok(Activate(Read(old(active)).value, tag))
                   && tag in releases
              else active == old(active)
      ensures releases == old(releases) || (tag !in old(releases) && releases == old(releases)[tag := Released(pf, candidate)])
      ensures tag in releases && tag !in old(releases) ==> Verified(pf, releases[tag], tag)
      ensures staging.Keys <= old(staging).Keys
    {
      hide Inspects, Verified, Read, ValidTag, Released, Managed, Activate, Print;
      var already := tag in releases;
      var ready := EnsureRelease(pf, candidate, tag, revision, dir, syncs.release);
      if !ready {
        return Err(StagingFailed);
      }
      var launched := WriteLauncher(pf, temp, syncs.launcher);
      if !launched {
        return Err(UnmanagedLauncher);
      }
      var activated := ActivateTag(tag, temp2, syncs.activation);
      if activated.Err? {
        return Err(activated.error);
      }
      return Ok(Receipt(tag, activated.value, already));
    }

    /** `install_binary_candidate` with the lock held. */
    method Install(pf: Platform, candidate: Files, tag: string, revision: string, dir: string, temp: string, temp2: string, syncs: Syncs)
      returns (r: Result<Receipt, InstallError>)
      requires pf.Valid()
      modifies this
      ensures r.Ok? <==> CanInstall(pf, old(State()), candidate, tag, revision, dir, temp, temp2, syncs)
      ensures r.Ok? ==>
                && State() == Installed(pf, old(State()), candidate, tag)
                && r.value == Receipt(tag, Activate(Read(old(active)).value, tag).previous, tag in old(releases))
      ensures if Activates(pf, old(State()), candidate, tag, revision, dir, temp, temp2, syncs)
              then active == WithActive(old(State()), tag).active && Read(active) == Ok(Activate(Read(old(active)).value, tag))
              else active == old(active)
      ensures forall t | t in old(releases) :: t in releases && releases[t] == old(releases)[t]
      ensures releases.Keys <= old(releases).Keys + {tag}
      ensures staging.Keys <= old(staging).Keys
      ensures GoodDisk(pf, old(State())) ==> GoodDisk(pf, State())
    {
      if !Inspects(pf, candidate, tag, revision) {
        return Err(NotACandidate);
      }
      assert ValidTag(tag);
      hide Inspects, Verified, Read, ValidTag, Released, GoodDisk, GoodActivation, Managed, Activate, Print, CanInstall, Installed;
      r := InstallInspected(pf, candidate, tag, revision, dir, temp, temp2, syncs);
      StaysGood(pf, old(State()), State(), tag);
    }

    /** `rollback_binary_install` with the lock held. */
    method RollBack(pf: Platform, temp: string, synced: bool) returns (r: Result<Receipt, InstallError>)
      modifies this`active, this`temps
      ensures r.Ok? <==> CanRollBack(pf, old(State()), temp) && synced
      ensures r.Ok? ==> r.value == Receipt(Read(old(active)).value.previous.value, Read(old(active)).value.current, true)
      ensures if CanRollBack(pf, old(State()), temp)
              then State() == RolledBack(old(State())) && Read(active) == Ok(Swap(Read(old(active)).value))
              else active == old(active)
      ensures GoodDisk(pf, old(State())) ==> GoodDisk(pf, State())
    {
      hide Verified, Read, Print;
      var activation := Read(active);
      if activation.Err? {
        return Err(BadActivation);
      }
      var a := activation.value;
      if a.current.None? {
        return Err(NoCurrent);
      }
      if a.previous.None? {
        return Err(NoPrevious);
      }
      if a.current == a.previous {
        return Err(NotDistinct);
      }
      if a.previous.value !in releases || !Verified(pf, releases[a.previous.value], a.previous.value) {
        return Err(BadPrevious);
      }
      TagsAreValid(active);
      var published := PublishActivation(a.previous.value, a.current, temp, synced);
      if !published {
        return Err(NotPublished);
      }
      return Ok(Receipt(a.previous.value, a.current, true));
    }
  }

  lemma TagsAreValid(file: Option<string>)
    requires Read(file).Ok?
    ensures Read(file).value.current.Some? ==> ValidTag(Read(file).value.current.value)
    ensures Read(file).value.previous.Some? ==> ValidTag(Read(file).value.previous.value)
  {
    if Read(file).value.current.Some? {
      ReadIsPublishable(file);
    }
  }

  /** Adding verified releases and activating one of them keeps the disk good. */
  lemma StaysGood(pf: Platform, before: Disk, after: Disk, tag: string)
    requires forall t | t in before.releases :: t in after.releases && after.releases[t] == before.releases[t]
    requires forall t | t in after.releases && t !in before.releases :: Verified(pf, after.releases[t], t)
    requires after.active == before.active ||
               (tag in after.releases && Read(before.active).Ok? && Read(after.active) == Ok(Activate(Read(before.active).value, tag)))
    ensures GoodDisk(pf, before) ==> GoodDisk(pf, after)
  {
    hide Read, Verified;
  }
}
