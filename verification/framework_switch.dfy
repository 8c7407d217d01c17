/** Switching and rolling back the Framework lock, from src/delivery.rs.  The replaced lock is
    backed up under the digest of its parsed value before the active file is replaced.
  */
module FrameworkSwitch {
  import opened Json

  /** The files the switch works on: the active lock, a backup per lock value, any other file in
      the backup directory, and temporary files. */
  datatype Name = Active | Backup(of: Value) | OtherBackup(name: string) | Temp(name: string)

  type Files = map<Name, string>

  datatype TrustUse = NewActivation | Rollback

  /** What the switch takes from outside this model: the YAML reader and the verification of the
      lock against its installed Release, which yields the Release ID. */
  datatype Checks = Checks(parse: string -> Option<Value>, accept: (TrustUse, Value) -> Option<string>)

  datatype Receipt = Receipt(releaseId: string, backup: Name)

  datatype SwitchError = Unreadable | NotAccepted | NoActiveLock | BackupCollision | WriteFailed | NotABackup

  /** The lock value behind a text that can be backed up: it parses and has a canonical digest. */
  function LockValue(c: Checks, text: string): Option<Value> {
    match c.parse(text)
    case None => None
    case Some(v) => if CanonicalDigest(v).Some? then Some(v) else None
  }

  predicate Accepted(c: Checks, use: TrustUse, text: string) {
    c.parse(text).Some? && c.accept(use, c.parse(text).value).Some?
  }

  /** The active lock can be put aside: its backup is free or holds this very text. */
  predicate CanBackUp(c: Checks, files: Files) {
    && Active in files
    && LockValue(c, files[Active]).Some?
    && var backup := Backup(LockValue(c, files[Active]).value);
       backup in files ==> files[backup] == files[Active]
  }

  function BackupOfActive(c: Checks, files: Files): Name
    requires CanBackUp(c, files)
  {
    Backup(LockValue(c, files[Active]).value)
  }

  /** When the two writes find their temporary names free. */
  predicate TempsFree(c: Checks, files: Files, temp1: string, temp2: string)
    requires CanBackUp(c, files)
  {
    Temp(temp2) !in files && (BackupOfActive(c, files) !in files ==> Temp(temp1) !in files)
  }

  predicate CanSwitch(c: Checks, files: Files, candidate: string, use: TrustUse, temp1: string, temp2: string) {
    Accepted(c, use, candidate) && CanBackUp(c, files) && TempsFree(c, files, temp1, temp2)
  }

  predicate IsTemp(name: Name) {
    name.Temp?
  }

  /** Nothing but temporary files differs, except under the given names. */
  ghost predicate SameExcept(before: Files, after: Files, names: set<Name>) {
    forall n | !IsTemp(n) && n !in names :: (n in after <==> n in before) && (n in before ==> after[n] == before[n])
  }

  class FrameworkLock {
    var files: Files

    constructor (files: Files)
      ensures this.files == files
    {
      this.files := files;
    }

    /** `atomic_write`: a new temporary file, filled and renamed over the target. */
    method AtomicWrite(target: Name, text: string, temp: string) returns (ok: bool)
      requires !IsTemp(target)
      modifies this
      ensures ok == (Temp(temp) !in old(files))
      ensures files == if ok then old(files)[target := text] else old(files) - {Temp(temp)}
    {
      ok := Temp(temp) !in files;
      if ok {
        files := files[Temp(temp) := ""];
        files := files[Temp(temp) := text];
        files := (files - {Temp(temp)})[target := files[Temp(temp)]];
        assert files == old(files)[target := text];
      }
      if !ok && Temp(temp) in files {
        files := files - {Temp(temp)};
      }
    }

    /** `switch_framework_lock_for` for a candidate text that was read. */
    method Switch(c: Checks, candidate: string, use: TrustUse, temp1: string, temp2: string)
      returns (r: Result<Receipt, SwitchError>)
      modifies this
      ensures r.Ok? <==> CanSwitch(c, old(files), candidate, use, temp1, temp2)
      ensures r.Ok? ==>
                && files == old(files)[BackupOfActive(c, old(files)) := old(files)[Active]][Active := candidate]
                && r.value == Receipt(c.accept(use, c.parse(candidate).value).value, BackupOfActive(c, old(files)))
      ensures r.Err? ==> Active in files <==> Active in old(files)
      ensures r.Err? && Active in files ==> files[Active] == old(files)[Active]
      ensures forall v | Backup(v) in old(files) :: Backup(v) in files && files[Backup(v)] == old(files)[Backup(v)]
    {
      var parsed := c.parse(candidate);
      if parsed.None? {
        return Err(Unreadable);
      }
      var release := c.accept(use, parsed.value);
      if release.None? {
        return Err(NotAccepted);
      }
      if Active !in files {
        return Err(NoActiveLock);
      }
      var text := files[Active];
      var value := LockValue(c, text);
      if value.None? {
        return Err(NoActiveLock);
      }
      var backup := Backup(value.value);
      if backup in files {
        if files[backup] != text {
          return Err(BackupCollision);
        }
      } else {
        var saved := AtomicWrite(backup, text, temp1);
        if !saved {
          return Err(WriteFailed);
        }
      }
      assert files == old(files)[backup := text];
      var replaced := AtomicWrite(Active, candidate, temp2);
      if !replaced {
        return Err(WriteFailed);
      }
      return Ok(Receipt(release.value, backup));
    }

    /** `rollback_framework_lock`: only a file of the backup directory can be restored. */
    method RollBack(c: Checks, path: Name, temp1: string, temp2: string) returns (r: Result<Receipt, SwitchError>)
      modifies this
      ensures r.Ok? <==> (path.Backup? || path.OtherBackup?) && path in old(files)
                         && CanSwitch(c, old(files), old(files)[path], Rollback, temp1, temp2)
      ensures r.Ok? ==>
                && files == old(files)[BackupOfActive(c, old(files)) := old(files)[Active]][Active := old(files)[path]]
                && r.value.backup == BackupOfActive(c, old(files))
      ensures r.Err? ==> Active in files <==> Active in old(files)
      ensures r.Err? && Active in files ==> files[Active] == old(files)[Active]
      ensures forall v | Backup(v) in old(files) :: Backup(v) in files && files[Backup(v)] == old(files)[Backup(v)]
    {
      if !(path.Backup? || path.OtherBackup?) || path !in files {
        return Err(NotABackup);
      }
      r := Switch(c, files[path], Rollback, temp1, temp2);
    }
  }
}
