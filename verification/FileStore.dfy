/** internal/store/recovery.go, internal/store/store.go and the writers that drive them:
    the commands as sequences of atomic file operations, any of which may be the last one
    before a crash. */
module FileStore {
  import opened Types
  import opened Disk
  import opened ResetRuns
  import opened Reports
  import opened Messages

  datatype OpenMode = OpenReadWrite | OpenReadOnly | OpenRecoverReset

  datatype Error =
    | ErrPendingReset
    | ErrInvalidStoreMode
    | ErrRecoveryRequiredMissing
    | ErrRecoveryUidValidityMismatch(got: uint32, expected: uint32)
    | ErrReadOnly
    | ErrRemoveFailed
    | ErrRenameFailed

  /** How a store call ends. `Died` is a crash, or an operation whose error ends the command. */
  datatype Outcome = Done | Died | Failed(error: Error)

  datatype Removal = Removed | Stuck | Lost

  datatype RecoverMode = StatusOnly | ModeKeepOld | ModeDiscardOld

  /** What gc and reprocess do to the root files once the recovery check has passed. */
  datatype Edit = ReplaceData(data: DataFile) | DropEmail(path: EmailPath)

  /** What a finished fetch makes of the content. */
  function Fetched(c: Content, server: uint32, mails: seq<Msg>, inputs: seq<Report>): Content {
    Content(DataFile(Upsert(c.data.reports, inputs), AddMetas(c.data.index, Metas(server, mails))), Saved(c.emails, server, mails))
  }

  /** What finished edits make of the content. */
  function Edited(c: Content, edits: seq<Edit>): Content {
    if edits == [] then c
    else
      var init := Edited(c, edits[..|edits| - 1]);
      match edits[|edits| - 1]
      case ReplaceData(df) => init.(data := df)
      case DropEmail(path) => init.(emails := init.emails - {path})
  }

  datatype Command =
    | Fetch(server: ServerUidValidity, mails: seq<Msg>, reports: seq<Report>)
    | Maintain(edits: seq<Edit>)
    | Recover(mode: RecoverMode, yes: bool)

  /** The manifest makes a read-write open refuse. */
  predicate Blocks(d: Disk) {
    d.manifest.Some?
    && (d.sentinel.None? || (RecoveryOf(d).Some? && d.manifest.value.curr == RecoveryOf(d).value.curr))
  }

  /** A disk after a read-write open in which every removal took effect. */
  function Opened(d: Disk): Disk {
    Disk(Some(RootData(d)), Some(RootEmails(d)), Some(SentinelOf(d)), None, None)
  }

  /** The argument recover passes: the recorded current UIDVALIDITY, or 0 without a recovery. */
  predicate CalledByRecover(d: Disk, curr: uint32) {
    if RecoveryOf(d).Some? then curr == RecoveryOf(d).value.curr && curr != 0 else curr == 0
  }

  /** An empty store at `curr` with no reset bookkeeping and no root files. */
  function CleanDisk(curr: uint32): Disk {
    Disk(None, None, Some(Sentinel(Some(curr), None)), None, None)
  }

  /** Every recovery comes from a server, so its current UIDVALIDITY is not 0. */
  predicate NonZeroRecovery(d: Disk) {
    RecoveryOf(d).Some? ==> RecoveryOf(d).value.curr != 0
  }

  function PiecesLeft(staging: Option<Staging>): nat {
    if staging.None? then 0
    else
      1 + (if staging.value.data.Some? then 1 else 0)
      + if staging.value.emails.Some? then 1 + |staging.value.emails.value| else 0
  }

  /** The operation removes something that is in the staging directory. */
  predicate TakesAPiece(staging: Staging, op: Op) {
    match op
    case RemoveStagedEmail(path) => staging.emails.Some? && path in staging.emails.value
    case RemoveStagedEmailsDir => staging.emails == Some(map[])
    case RemoveStagedData => staging.data.Some?
    case RemoveStagingDir => staging == EmptyStaging
    case _ => false
  }

  lemma RemovesAPiece(d: Disk, op: Op)
    requires d.staging.Some? && TakesAPiece(d.staging.value, op)
    ensures PiecesLeft(Apply(d, op).staging) < PiecesLeft(d.staging)
    ensures Apply(d, op) == d.(staging := Apply(d, op).staging)
    ensures !Pending(d) ==> Allowed(d, op)
    ensures Unstranding(d, op) && Tidying(d, op)
    ensures Inv(d) ==> Inv(Apply(d, op))
  {
  }

  class FileStore {
    var disk: Disk
    var mode: OpenMode
    /** No crash during this command. */
    var steady: bool
    /** A removal of the staging directory may fail part way. */
    var stagingSticks: bool
    /** A removal of the manifest may fail. */
    var manifestSticks: bool

    /** This process holds the summary guard exclusively. A crash gives it up. */
    var guarded: bool

    ghost var start: Disk
    ghost var trace: seq<Op>

    /** The trace has led here. */
    ghost predicate Traced()
      reads this
    {
      disk == Run(start, trace)
    }

    /** Between calls the guard is free. */
    ghost predicate Valid()
      reads this
    {
      Traced() && Inv(start) && Inv(disk) && !guarded
    }

    /** Every operation so far was one the protocol allows, and if manifest removals take effect none came
        while a manifest was left over that it had to wait for. */
    ghost predicate Disciplined()
      reads this
    {
      AllAllowed(start, trace) && (!manifestSticks ==> ManifestsRemoved(start, trace))
    }

    /** The operation keeps the discipline. */
    ghost predicate Proper(op: Op)
      reads this
    {
      Allowed(disk, op) && (!manifestSticks ==> Unstranding(disk, op) && Tidying(disk, op))
    }

    constructor ()
      ensures Valid() && Disciplined() && disk == start == EmptyDisk && trace == []
    {
      disk, mode, start, trace := EmptyDisk, OpenReadOnly, EmptyDisk, [];
      steady, stagingSticks, manifestSticks, guarded := false, false, false, false;
    }

    // ---- one atomic operation ----

    /** Whatever changes the recovery happens under the exclusive guard. */
    method Do(op: Op) returns (alive: bool)
      requires Traced()
      requires WritesRecovery(disk, op) ==> guarded
      modifies `disk, `trace
      ensures Traced()
      ensures steady ==> alive
      ensures alive ==> disk == Apply(old(disk), op)
      ensures !alive ==> disk == old(disk)
      ensures old(Disciplined()) && old(Proper(op)) ==> Disciplined()
    {
      alive := MayDie(steady);
      if alive {
        RunSnoc(start, trace, op);
        ManifestsRemovedSnoc(start, trace, op);
        disk, trace := Apply(disk, op), trace + [op];
      }
    }

    /** os.RemoveAll(staging): the pieces go one at a time, in an order the directory decides. */
    method RemoveStaging() returns (r: Removal)
      requires Valid()
      modifies `disk, `trace
      ensures Valid()
      ensures disk == old(disk).(staging := disk.staging)
      ensures r == Removed ==> disk.staging.None?
      ensures r == Stuck ==> stagingSticks
      ensures r == Lost ==> !steady
      ensures old(Disciplined()) && !Pending(old(disk)) ==> Disciplined()
    {
      while disk.staging.Some?
        invariant Valid()
        invariant disk == old(disk).(staging := disk.staging)
        invariant old(Disciplined()) && !Pending(old(disk)) ==> Disciplined()
        decreases PiecesLeft(disk.staging)
      {
        var staged := disk.staging.value;
        var sticks: bool := *;
        if stagingSticks && sticks {
          return Stuck;
        }
        var dataFirst: bool := *;
        var op: Op;
        if staged.data.Some? && (dataFirst || staged.emails.None?) {
          op := RemoveStagedData;
        } else if staged.emails.Some? && staged.emails.value != map[] {
          assert staged.emails.value.Keys != {};
          var path :| path in staged.emails.value;
          op := RemoveStagedEmail(path);
        } else if staged.emails.Some? {
          op := RemoveStagedEmailsDir;
        } else {
          op := RemoveStagingDir;
        }
        RemovesAPiece(disk, op);
        var alive := Do(op);
        if !alive {
          return Lost;
        }
      }
      return Removed;
    }

    /** os.Remove(manifest). */
    method RemoveManifestFile() returns (r: Removal)
      requires Valid()
      modifies `disk, `trace
      ensures Valid()
      ensures r == Removed ==> disk == old(disk).(manifest := None)
      ensures r != Removed ==> disk == old(disk)
      ensures r == Stuck ==> manifestSticks
      ensures r == Lost ==> !steady
      ensures old(Disciplined()) && !Pending(old(disk)) ==> Disciplined()
    {
      var sticks: bool := *;
      if manifestSticks && sticks {
        return Stuck;
      }
      var alive := Do(RemoveManifest);
      return if alive then Removed else Lost;
    }

    // ---- opening ----

    /** Removes what a finished or abandoned reset left behind. The recovery in the sentinel
        decides, not the phase. Failed removals are logged and nothing else. */
    method CleanupCompletedReset() returns (r: Outcome)
      requires Valid()
      modifies `disk, `trace
      ensures Valid()
      ensures r == Failed(ErrPendingReset) <==> Blocks(old(disk))
      ensures r.Failed? ==> r.error == ErrPendingReset && disk == old(disk)
      ensures r == Died ==> !steady
      ensures disk == old(disk).(staging := disk.staging, manifest := disk.manifest)
      ensures disk.manifest == None || disk.manifest == old(disk).manifest
      ensures r == Done ==> !Pending(disk) && (!manifestSticks ==> disk.manifest == None)
      ensures r == Done && !stagingSticks ==> disk.staging == None
      ensures old(Disciplined()) ==> Disciplined()
    {
      if disk.manifest.Some? {
        if disk.sentinel.None? {
          return Failed(ErrPendingReset);
        }
        if disk.sentinel.value.recovery.Some? && disk.manifest.value.curr == disk.sentinel.value.recovery.value.curr {
          return Failed(ErrPendingReset);
        }
      }
      var staging := RemoveStaging();
      if staging == Lost {
        return Died;
      }
      if disk.manifest.Some? {
        var manifest := RemoveManifestFile();
        if manifest == Lost {
          return Died;
        }
      }
      return Done;
    }

    method Open(openMode: OpenMode) returns (r: Outcome)
      requires Valid()
      modifies `disk, `trace, `mode
      ensures Valid()
      ensures mode == openMode
      ensures r == Failed(ErrPendingReset) <==> openMode == OpenReadWrite && Blocks(old(disk))
      ensures Tidy(old(disk)) ==> (r == Failed(ErrPendingReset) <==> openMode == OpenReadWrite && Pending(old(disk)))
      ensures r.Failed? ==> r.error == ErrPendingReset && disk == old(disk)
      ensures r == Died ==> !steady
      ensures Abs(disk) == Abs(old(disk))
      ensures openMode == OpenReadOnly ==> disk == old(disk)
      ensures openMode == OpenReadWrite && r == Done && old(disk).data.None? ==> disk.data == Some(DataFile([], []))
      ensures openMode == OpenReadWrite && r == Done && old(disk).emails.None? ==> disk.emails == Some(map[])
      ensures openMode == OpenRecoverReset && r == Done ==>
                disk == old(disk).(sentinel := Some(SentinelOf(old(disk))))
      ensures openMode == OpenRecoverReset && r == Died ==> disk == old(disk)
      ensures openMode == OpenReadWrite && r == Done ==>
                disk == Opened(old(disk)).(staging := disk.staging, manifest := disk.manifest)
      ensures openMode == OpenReadWrite && r == Done && !stagingSticks ==> disk.staging == None
      ensures openMode == OpenReadWrite && r == Done && !manifestSticks ==> disk.manifest == None
      ensures openMode == OpenReadWrite && r == Done ==> !Pending(disk)
      ensures !manifestSticks && !Stranded(old(disk)) ==> !Stranded(disk)
      ensures Tidy(old(disk)) ==> Tidy(disk)
      ensures old(Disciplined()) ==> Disciplined()
    {
      mode := openMode;
      if openMode == OpenReadWrite {
        r := PrepareRoot();
        if r != Done {
          return;
        }
      }
      if openMode != OpenReadOnly {
        if disk.sentinel.None? {
          var alive := Do(WriteSentinel(FreshSentinel));
          if !alive {
            return Died;
          }
        }
      }
      return Done;
    }

    /** The read-write part: what a reset left is cleaned up before root files are made. */
    method PrepareRoot() returns (r: Outcome)
      requires Valid()
      modifies `disk, `trace
      ensures Valid()
      ensures r == Failed(ErrPendingReset) <==> Blocks(old(disk))
      ensures r.Failed? ==> r.error == ErrPendingReset && disk == old(disk)
      ensures r == Died ==> !steady
      ensures disk.sentinel == old(disk).sentinel && Abs(disk) == Abs(old(disk))
      ensures disk.manifest == None || disk.manifest == old(disk).manifest
      ensures r == Done ==>
                && !Pending(disk)
                && disk == Opened(old(disk)).(sentinel := disk.sentinel, staging := disk.staging, manifest := disk.manifest)
                && (!stagingSticks ==> disk.staging == None)
                && (!manifestSticks ==> disk.manifest == None)
      ensures !manifestSticks && !Stranded(old(disk)) ==> !Stranded(disk)
      ensures old(Disciplined()) ==> Disciplined()
    {
      r := CleanupCompletedReset();
      if r == Done {
        r := EnsureRootFiles();
      }
    }

    /** The emails/ directory and an empty tlsrpt.json, unless they exist. OpenRecoverReset skips
        this: the files may be in staging. */
    method EnsureRootFiles() returns (r: Outcome)
      requires Valid() && !Pending(disk)
      requires !manifestSticks ==> disk.manifest.None?
      modifies `disk, `trace
      ensures Valid()
      ensures r == Done || (r == Died && !steady)
      ensures disk == old(disk).(data := disk.data, emails := disk.emails)
      ensures RootData(disk) == RootData(old(disk)) && RootEmails(disk) == RootEmails(old(disk))
      ensures r == Done ==> disk.data.Some? && disk.emails.Some?
      ensures old(Disciplined()) ==> Disciplined()
    {
      if disk.emails.None? {
        var alive := Do(MakeEmailsDir);
        if !alive {
          return Died;
        }
      }
      if disk.data.None? {
        var alive := Do(WriteData(EmptyData));
        if !alive {
          return Died;
        }
      }
      return Done;
    }

    /** Reads the sentinel's recovery. */
    function LoadRecoveryRequired(): (r: Option<Recovery>)
      reads this
    {
      RecoveryOf(disk)
    }

    /** A committed manifest is bookkeeping, not a reset in progress. */
    predicate HasPendingReset()
      reads this
    {
      disk.manifest.Some? && disk.manifest.value.phase != Committed
    }

    // ---- sentinel writes ----

    /** Overwrites what was recorded. The discipline holds for what fetch has checked before the call: no
        recovery, and the same value or none. */
    method SaveUidValidity(v: uint32) returns (r: Outcome)
      requires Traced()
      modifies `disk, `trace
      ensures Traced()
      ensures mode == OpenReadOnly <==> r == Failed(ErrReadOnly)
      ensures r.Failed? ==> r.error == ErrReadOnly
      ensures r == Died ==> !steady
      ensures r == Done ==> disk == old(disk).(sentinel := Some(SentinelOf(old(disk)).(uidValidity := Some(v))))
      ensures r != Done ==> disk == old(disk)
      ensures RecoveryOf(old(disk)).None? && UidValidityOf(old(disk)) in {None, Some(v)} ==>
                && (old(Valid()) ==> Valid())
                && (old(Disciplined()) ==> Disciplined())
    {
      if mode == OpenReadOnly {
        return Failed(ErrReadOnly);
      }
      var alive := Do(WriteSentinel(SentinelOf(disk).(uidValidity := Some(v))));
      return if alive then Done else Died;
    }

    /** Overwrites what was recorded. The discipline holds for what fetch has checked before the call: no
        recovery, and `prev` recorded and superseded. */
    method SaveRecoveryRequired(prev: uint32, curr: uint32) returns (r: Outcome)
      requires Traced() && !guarded
      modifies `disk, `trace, `guarded
      ensures Traced() && !guarded
      ensures mode == OpenReadOnly <==> r == Failed(ErrReadOnly)
      ensures r.Failed? ==> r.error == ErrReadOnly
      ensures r == Died ==> !steady
      ensures r == Done ==> disk == old(disk).(sentinel := Some(SentinelOf(old(disk)).(recovery := Some(Recovery(prev, curr)))))
      ensures r != Done ==> disk == old(disk)
      ensures RecoveryOf(old(disk)).None? && UidValidityOf(old(disk)) == Some(prev) && prev != curr ==>
                && (old(Valid()) ==> Valid() && Live(disk) == Live(old(disk)))
                && (old(Disciplined()) && (!manifestSticks ==> old(disk).manifest.None?) ==> Disciplined())
    {
      if mode == OpenReadOnly {
        return Failed(ErrReadOnly);
      }
      guarded := true;
      var alive := Do(WriteSentinel(SentinelOf(disk).(recovery := Some(Recovery(prev, curr)))));
      guarded := false;
      return if alive then Done else Died;
    }

    /** keep-old: one sentinel write, refused while a write-ahead manifest stands. */
    method ApplyRecovery(newUidValidity: uint32) returns (r: Outcome)
      requires Valid()
      modifies `disk, `trace, `guarded
      ensures Valid()
      ensures r == Failed(ErrPendingReset) <==> mode != OpenReadOnly && PreCommitManifest(old(disk))
      ensures r == Failed(ErrReadOnly) <==> mode == OpenReadOnly
      ensures r.Failed? ==> r.error in {ErrPendingReset, ErrReadOnly}
      ensures r == Died ==> !steady
      ensures r == Done ==> disk == old(disk).(sentinel := Some(Sentinel(Some(newUidValidity), None)))
      ensures r != Done ==> disk == old(disk)
      ensures r == Done && RecoveryOf(old(disk)).Some? && newUidValidity == RecoveryOf(old(disk)).value.curr ==>
                Abs(disk) == Kept(Abs(old(disk)))
      ensures old(Disciplined()) && RecoveryOf(old(disk)).Some? && newUidValidity == RecoveryOf(old(disk)).value.curr
              ==> Disciplined()
    {
      if mode == OpenReadOnly {
        return Failed(ErrReadOnly);
      }
      var pending := HasPendingReset();
      if pending {
        return Failed(ErrPendingReset);
      }
      guarded := true;
      var alive := Do(WriteSentinel(Sentinel(Some(newUidValidity), None)));
      guarded := false;
      return if alive then Done else Died;
    }

    // ---- discard-old ----

    method RemoveStaleCommittedManifest() returns (r: Outcome)
      requires Valid()
      modifies `disk, `trace
      ensures Valid()
      ensures disk == old(disk).(staging := disk.staging, manifest := disk.manifest)
      ensures r == Done ==> disk == old(disk).(staging := None, manifest := None)
      ensures r != Done ==> disk.manifest == old(disk).manifest
      ensures r.Failed? ==> r.error == ErrRemoveFailed && (stagingSticks || manifestSticks)
      ensures r == Died ==> !steady
      ensures old(Disciplined()) && !Pending(old(disk)) ==> Disciplined()
    {
      var staging := RemoveStaging();
      match staging {
        case Stuck => return Failed(ErrRemoveFailed);
        case Lost => return Died;
        case Removed =>
      }
      var manifest := RemoveManifestFile();
      match manifest {
        case Stuck => return Failed(ErrRemoveFailed);
        case Lost => return Died;
        case Removed => return Done;
      }
    }

    /** Checks the recovery, wipes stale staging and writes the write-ahead manifest. */
    method InitResetManifest(curr: uint32) returns (r: Outcome)
      requires Valid() && disk.manifest.None?
      modifies `disk, `trace
      ensures Valid()
      ensures r == Failed(ErrRecoveryRequiredMissing) <==> RecoveryOf(old(disk)).None?
      ensures RecoveryOf(old(disk)).Some? && RecoveryOf(old(disk)).value.curr != curr <==>
              r == Failed(ErrRecoveryUidValidityMismatch(curr, if RecoveryOf(old(disk)).Some? then RecoveryOf(old(disk)).value.curr else 0))
      ensures r.Failed? && r.error != ErrRemoveFailed ==> disk == old(disk)
      ensures r == Failed(ErrRemoveFailed) ==> stagingSticks
      ensures r == Died ==> !steady
      ensures r == Done ==> disk == old(disk).(staging := Some(EmptyStaging), manifest := Some(Manifest(curr, ManifestWritten)))
      ensures r != Done ==> disk == old(disk).(staging := disk.staging)
      ensures r.Failed? ==> r.error in {ErrRecoveryRequiredMissing, ErrRemoveFailed}
                            || (RecoveryOf(old(disk)).Some? && RecoveryOf(old(disk)).value.curr != curr)
      ensures r != Failed(ErrInvalidStoreMode)
      ensures old(Disciplined()) ==> Disciplined()
    {
      var recovery := LoadRecoveryRequired();
      if recovery.None? {
        return Failed(ErrRecoveryRequiredMissing);
      }
      if recovery.value.curr != curr {
        return Failed(ErrRecoveryUidValidityMismatch(curr, recovery.value.curr));
      }
      var removal := RemoveStaging();
      match removal {
        case Stuck => return Failed(ErrRemoveFailed);
        case Lost => return Died;
        case Removed =>
      }
      var alive := Do(MakeStaging);
      if !alive {
        return Died;
      }
      alive := Do(WriteManifest(Manifest(curr, ManifestWritten)));
      return if alive then Done else Died;
    }

    /** Moves the root files into staging and commits. Absent files are no-ops, so it can start
        over from any layout a crash has left. */
    method AdvanceResetPhases(curr: uint32) returns (r: Outcome)
      requires Valid() && disk.manifest == Some(Manifest(curr, ManifestWritten))
      modifies `disk, `trace, `guarded
      ensures Valid()
      ensures r == Died ==> !steady
      ensures r.Failed? ==> r.error == ErrRenameFailed && !Pending(old(disk)) && old(disk).emails.Some?
      ensures r == Done ==>
                && disk.manifest == Some(Manifest(curr, Committed))
                && disk.sentinel == Some(Sentinel(Some(curr), None))
                && disk.data.None? && disk.emails.None? && disk.staging.Some?
      ensures SafelyResettable(old(disk)) ==> !r.Failed? && ResetEffect(old(disk), disk)
      ensures old(Disciplined()) && SafelyResettable(old(disk)) ==> Disciplined()
      ensures !Stranded(old(disk)) ==> !Stranded(disk)
      ensures Tidy(old(disk)) ==> Tidy(disk)
    {
      var alive := Do(MakeStaging);
      if !alive {
        return Died;
      }
      r := StageDataFile();
      if r != Done {
        return;
      }
      r := StageEmailsDir();
      if r != Done {
        return;
      }
      r := CommitReset(curr);
    }

    /** Renames tlsrpt.json into staging; an absent file is no error. */
    method StageDataFile() returns (r: Outcome)
      requires Valid() && PreCommitManifest(disk) && disk.staging.Some?
      modifies `disk, `trace
      ensures Valid()
      ensures r == Done || (r == Died && !steady)
      ensures r == Done ==>
                disk == if old(disk).data.None? then old(disk)
                        else old(disk).(data := None, staging := Some(old(disk).staging.value.(data := old(disk).data)))
      ensures r == Died ==> disk == old(disk)
      ensures SafelyResettable(old(disk)) ==> SafelyResettable(disk) && Abs(disk) == Abs(old(disk))
      ensures old(Disciplined()) && SafelyResettable(old(disk)) ==> Disciplined()
    {
      if disk.data.Some? {
        var alive := Do(StageData);
        if !alive {
          return Died;
        }
      }
      return Done;
    }

    /** Renames emails/ into staging; the rename needs its target absent or empty. */
    method StageEmailsDir() returns (r: Outcome)
      requires Valid() && PreCommitManifest(disk) && disk.staging.Some?
      modifies `disk, `trace
      ensures Valid()
      ensures r == Died ==> !steady
      ensures r.Failed? ==> r.error == ErrRenameFailed && !Pending(disk) && disk.emails.Some?
      ensures r == Done ==>
                disk == if old(disk).emails.None? then old(disk)
                        else old(disk).(emails := None, staging := Some(old(disk).staging.value.(emails := old(disk).emails)))
      ensures r != Done ==> disk == old(disk)
      ensures SafelyResettable(old(disk)) ==> !r.Failed? && SafelyResettable(disk) && Abs(disk) == Abs(old(disk))
      ensures old(Disciplined()) && SafelyResettable(old(disk)) ==> Disciplined()
    {
      if disk.emails.Some? {
        if !CanTakeEmails(disk) {
          return Failed(ErrRenameFailed);
        }
        var alive := Do(StageEmails);
        if !alive {
          return Died;
        }
      }
      return Done;
    }

    /** The commit: the sentinel write decides, the phase-4 manifest records it. Both run under
        the exclusive guard. */
    method CommitReset(curr: uint32) returns (r: Outcome)
      requires Valid() && disk.manifest == Some(Manifest(curr, ManifestWritten))
      requires disk.data.None? && disk.emails.None?
      modifies `disk, `trace, `guarded
      ensures Valid()
      ensures r == Done || (r == Died && !steady)
      ensures r == Done ==>
                disk == old(disk).(sentinel := Some(Sentinel(Some(curr), None)), manifest := Some(Manifest(curr, Committed)))
      ensures r == Died ==>
                disk == old(disk) || disk == old(disk).(sentinel := Some(Sentinel(Some(curr), None)))
      ensures old(Disciplined()) && SafelyResettable(old(disk)) ==> Disciplined()
    {
      guarded := true;
      var alive := Do(WriteSentinel(Sentinel(Some(curr), None)));
      if alive {
        alive := Do(WriteManifest(Manifest(curr, Committed)));
      }
      guarded := false;
      return if alive then Done else Died;
    }

    method ExecuteResetFromManifest(curr: uint32) returns (r: Outcome)
      requires Valid() && disk.manifest == Some(Manifest(curr, ManifestWritten))
      modifies `disk, `trace, `guarded
      ensures Valid()
      ensures r == Died ==> !steady
      ensures r == Failed(ErrRenameFailed) ==> !Pending(old(disk)) && old(disk).emails.Some?
      ensures r.Failed? ==> r.error == ErrRenameFailed || (r.error == ErrRemoveFailed && manifestSticks)
      ensures r == Done ==> disk == CleanDisk(curr).(staging := disk.staging)
      ensures r == Done && !stagingSticks ==> disk == CleanDisk(curr)
      ensures SafelyResettable(old(disk)) ==> r != Failed(ErrRenameFailed) && ResetEffect(old(disk), disk)
      ensures old(Disciplined()) && SafelyResettable(old(disk)) ==> Disciplined()
      ensures !Stranded(old(disk)) ==> !Stranded(disk)
      ensures Tidy(old(disk)) ==> Tidy(disk)
    {
      r := AdvanceResetPhases(curr);
      if r != Done {
        return;
      }
      var staging := RemoveStaging();
      if staging == Lost {
        return Died;
      }
      var manifest := RemoveManifestFile();
      match manifest {
        case Stuck => return Failed(ErrRemoveFailed);
        case Lost => return Died;
        case Removed => return Done;
      }
    }

    /** A committed manifest only needs cleaning up, unless a new recovery has been declared. */
    method ResumeOrCleanupCommitted(curr: uint32) returns (r: Outcome)
      requires Valid() && disk.manifest.Some? && disk.manifest.value.phase == Committed
      modifies `disk, `trace, `guarded
      ensures Valid()
      ensures r == Died ==> !steady
      ensures r == Failed(ErrRemoveFailed) ==> stagingSticks || manifestSticks
      ensures CalledByRecover(old(disk), curr) && r.Failed? ==> r == Failed(ErrRemoveFailed)
      ensures r != Failed(ErrInvalidStoreMode)
      ensures RecoveryOf(old(disk)).None? && r == Done ==> disk == old(disk).(staging := None, manifest := None)
      ensures RecoveryOf(old(disk)).Some? && r == Done ==>
                RecoveryOf(old(disk)).value.curr == curr && disk == CleanDisk(curr).(staging := disk.staging)
      ensures r == Done && !stagingSticks ==> disk.staging == None
      ensures ResetEffect(old(disk), disk)
      ensures old(Disciplined()) ==> Disciplined()
      ensures !Stranded(disk)
      ensures Tidy(old(disk)) ==> Tidy(disk)
    {
      r := RemoveStaleCommittedManifest();
      if r != Done {
        return;
      }
      var recovery := LoadRecoveryRequired();
      if recovery.None? {
        return Done;
      }
      r := InitResetManifest(curr);
      if r != Done {
        return;
      }
      r := ExecuteResetFromManifest(curr);
    }

    method ResetForRecovery(curr: uint32) returns (r: Outcome)
      requires Valid()
      modifies `disk, `trace, `guarded
      ensures Valid()
      ensures r == Failed(ErrInvalidStoreMode) <==> mode != OpenRecoverReset
      ensures r == Failed(ErrInvalidStoreMode) ==> disk == old(disk)
      ensures r == Died ==> !steady
      // every crash leaves the old data with its recovery, or the committed empty store
      ensures CalledByRecover(old(disk), curr) && !Stranded(old(disk)) ==> ResetEffect(old(disk), disk)
      ensures CalledByRecover(old(disk), curr) && !Stranded(old(disk)) && old(Disciplined()) ==> Disciplined()
      ensures CalledByRecover(old(disk), curr) && !Stranded(old(disk)) ==> !Stranded(disk)
      ensures Tidy(old(disk)) ==> Tidy(disk)
      ensures CalledByRecover(old(disk), curr) && !Stranded(old(disk)) && r.Failed? ==>
                || r == Failed(ErrInvalidStoreMode)
                || (r == Failed(ErrRemoveFailed) && (stagingSticks || manifestSticks))
                || (r == Failed(ErrRecoveryRequiredMissing) && RecoveryOf(old(disk)).None? && old(disk).manifest.None?)
      // a finished reset of a recorded recovery, or of a write-ahead manifest that outlived it
      ensures r == Done && CalledByRecover(old(disk), curr) && RecoveryOf(old(disk)).Some? ==>
                disk == CleanDisk(curr).(staging := disk.staging)
      ensures r == Done && curr == 0 && RecoveryOf(old(disk)).None? && PreCommitManifest(old(disk)) ==>
                disk == CleanDisk(old(disk).manifest.value.curr).(staging := disk.staging)
      ensures r == Done && !stagingSticks ==> disk.staging == None
      // without a recovery the store survives exactly when it was empty
      ensures r == Done && curr == 0 && RecoveryOf(old(disk)).None? && PreCommitManifest(old(disk)) ==>
                (Abs(disk) == Abs(old(disk)) <==> Live(old(disk)) == NoContent)
    {
      if mode != OpenRecoverReset {
        return Failed(ErrInvalidStoreMode);
      }
      var mfst := disk.manifest;
      if mfst.Some? {
        if mfst.value.phase == Committed {
          r := ResumeOrCleanupCommitted(curr);
          return;
        }
        if curr != 0 && mfst.value.curr != curr {
          r := RemoveStaleCommittedManifest();
          if r != Done {
            return;
          }
          mfst := None;
        }
      }
      if mfst.None? {
        r := InitResetManifest(curr);
        if r != Done {
          return;
        }
        mfst := Some(Manifest(curr, ManifestWritten));
      }
      r := ExecuteResetFromManifest(mfst.value.curr);
    }

    // ---- the commands ----

    /** recover: which mode opens the store, and what each state leads to. */
    method RunRecover(recoverMode: RecoverMode, yes: bool) returns (code: Exit)
      requires Valid()
      modifies `disk, `trace, `guarded, `mode
      ensures Valid()
      ensures code == Killed ==> !steady
      ensures !Stranded(old(disk)) && NonZeroRecovery(old(disk)) && old(Disciplined()) ==> Disciplined()
      ensures !Stranded(old(disk)) && !manifestSticks && NonZeroRecovery(old(disk)) ==> !Stranded(disk)
      ensures Tidy(old(disk)) ==> Tidy(disk)
      ensures !Stranded(old(disk)) && NonZeroRecovery(old(disk)) ==> RecoverEffect(old(disk), recoverMode, yes, code, disk)
      ensures steady && !stagingSticks && !manifestSticks && !Stranded(old(disk)) && NonZeroRecovery(old(disk)) ==>
                SteadyRecover(old(disk), recoverMode, yes, code, disk)
    {
      var destructive := recoverMode == ModeDiscardOld && yes;
      var status := Open(if destructive then OpenRecoverReset else OpenReadWrite);
      match status {
        case Failed(_) => return ExitError;
        case Died => return Killed;
        case Done =>
      }
      var recovery := LoadRecoveryRequired();
      var pendingReset := HasPendingReset();
      var r: Outcome := Done;
      if recovery.None? {
        if !pendingReset || !destructive {
          return ExitError;
        }
        r := ResetForRecovery(0);
      } else if recoverMode == ModeKeepOld {
        if pendingReset {
          return ExitError;
        }
        r := ApplyRecovery(recovery.value.curr);
      } else if destructive {
        r := ResetForRecovery(recovery.value.curr);
      } else {
        return ExitError;
      }
      match r {
        case Failed(_) => return ExitError;
        case Died => return Killed;
        case Done => return ExitOk;
      }
    }

    /** fetch as far as the store is concerned: fail closed on a recovery, validate
        UIDVALIDITY, then save emails, index, reports and UIDVALIDITY. */
    method RunFetch(server: ServerUidValidity, mails: seq<Msg>, inputs: seq<Report>) returns (code: Exit)
      requires Valid()
      modifies `disk, `trace, `guarded, `mode
      ensures Valid()
      ensures code == Killed ==> !steady
      ensures old(Disciplined()) ==> Disciplined()
      ensures !Stranded(old(disk)) && !manifestSticks ==> !Stranded(disk)
      ensures Tidy(old(disk)) && !manifestSticks ==> Tidy(disk)
      ensures RecoveryOf(old(disk)).Some? ==> code != ExitOk && Abs(disk) == Abs(old(disk))
      ensures NonZeroRecovery(old(disk)) ==> NonZeroRecovery(disk)
      ensures code == ExitOk ==> UidValidityOf(disk) == Some(server) && RecoveryOf(disk).None?
      ensures code == ExitOk ==> Live(disk) == Fetched(Live(old(disk)), server, mails, inputs)
      // each new message is indexed under its own date, where its file is
      ensures code == ExitOk && DistinctUids(mails) ==>
                forall m :: m in mails && (forall e :: e in Live(old(disk)).data.index ==> e.uid != m.uid || e.uidValidity != server) ==>
                  && IndexEntry(m.uid, server, m.date) in Live(disk).data.index
                  && var path := EmailPath(server, m.date.year, m.date.month, m.uid);
                     && PathOf(IndexEntry(m.uid, server, m.date)) == path
                     && path in Live(disk).emails
                     && Live(disk).emails[path] == if path in Live(old(disk)).emails then Live(old(disk)).emails[path] else m.mail
      ensures RecoveryOf(old(disk)).None? && UidValidityOf(old(disk)).Some? && UidValidityOf(old(disk)) != Some(server) ==>
                && code != ExitOk && Live(disk) == Live(old(disk)) && UidValidityOf(disk) == UidValidityOf(old(disk))
                && (RecoveryOf(disk).None? || RecoveryOf(disk) == Some(Recovery(UidValidityOf(old(disk)).value, server)))
                && (steady ==> code == ExitError && RecoveryOf(disk).Some?)
      ensures steady && RecoveryOf(old(disk)).None? && !Blocks(old(disk)) && UidValidityOf(old(disk)) in {None, Some(server)} ==>
                code == ExitOk
    {
      code := FetchSteps(server, mails, inputs);
      if DistinctUids(mails) {
        EntriesLeadToFiles(Live(old(disk)).data.index, Live(old(disk)).emails, server, mails);
      }
    }

    method FetchSteps(server: ServerUidValidity, mails: seq<Msg>, inputs: seq<Report>) returns (code: Exit)
      requires Valid()
      modifies `disk, `trace, `guarded, `mode
      ensures Valid()
      ensures code == Killed ==> !steady
      ensures old(Disciplined()) ==> Disciplined()
      ensures !Stranded(old(disk)) && !manifestSticks ==> !Stranded(disk)
      ensures Tidy(old(disk)) && !manifestSticks ==> Tidy(disk)
      ensures RecoveryOf(old(disk)).Some? ==> code != ExitOk && Abs(disk) == Abs(old(disk))
      ensures NonZeroRecovery(old(disk)) ==> NonZeroRecovery(disk)
      ensures code == ExitOk ==> UidValidityOf(disk) == Some(server) && RecoveryOf(disk).None?
      ensures code == ExitOk ==> Live(disk) == Fetched(Live(old(disk)), server, mails, inputs)
      ensures RecoveryOf(old(disk)).None? && UidValidityOf(old(disk)).Some? && UidValidityOf(old(disk)) != Some(server) ==>
                && code != ExitOk && Live(disk) == Live(old(disk)) && UidValidityOf(disk) == UidValidityOf(old(disk))
                && (RecoveryOf(disk).None? || RecoveryOf(disk) == Some(Recovery(UidValidityOf(old(disk)).value, server)))
                && (steady ==> code == ExitError && RecoveryOf(disk).Some?)
      ensures steady && RecoveryOf(old(disk)).None? && !Blocks(old(disk)) && UidValidityOf(old(disk)) in {None, Some(server)} ==>
                code == ExitOk
    {
      var status := Open(OpenReadWrite);
      match status {
        case Failed(_) => return ExitError;
        case Died => return Killed;
        case Done =>
      }
      var recovery := LoadRecoveryRequired();
      if recovery.Some? {
        return ExitError;
      }
      var stored := UidValidityOf(disk);
      if stored.None? {
        var saved := SaveUidValidity(server);
        if saved != Done {
          return Killed;
        }
      } else if stored.value != server {
        var saved := SaveRecoveryRequired(stored.value, server);
        return if saved == Done then ExitError else Killed;
      }
      code := SaveFetched(server, mails, inputs);
    }

    /** Steps 7 to 14 of fetch. */
    method SaveFetched(server: ServerUidValidity, mails: seq<Msg>, inputs: seq<Report>) returns (code: Exit)
      requires Valid() && mode == OpenReadWrite
      requires RecoveryOf(disk).None? && UidValidityOf(disk) == Some(server)
      requires !manifestSticks ==> disk.manifest.None?
      modifies `disk, `trace
      ensures Valid()
      ensures code == Killed ==> !steady
      ensures code != ExitError
      ensures code == ExitOk ==>
                disk == old(disk).(data := disk.data, emails := disk.emails)
                && Content(RootData(disk), RootEmails(disk))
                   == Fetched(Content(RootData(old(disk)), RootEmails(old(disk))), server, mails, inputs)
      ensures old(Disciplined()) ==> Disciplined()
      ensures old(disk.manifest.None?) ==> disk.manifest.None?
      ensures disk.sentinel == old(disk).sentinel
    {
      var alive := SaveMails(server, mails);
      if !alive {
        return Killed;
      }
      alive := SaveDataFile(RootData(disk).(index := AddMetas(RootData(disk).index, Metas(server, mails))));
      if !alive {
        return Killed;
      }
      alive := SaveDataFile(RootData(disk).(reports := Upsert(RootData(disk).reports, inputs)));
      if !alive {
        return Killed;
      }
      var saved := SaveUidValidity(server);
      return if saved == Done then ExitOk else Killed;
    }

    method SaveDataFile(df: DataFile) returns (alive: bool)
      requires Valid() && RecoveryOf(disk).None? && (!manifestSticks ==> disk.manifest.None?)
      modifies `disk, `trace
      ensures Valid()
      ensures steady ==> alive
      ensures disk == if alive then old(disk).(data := Some(df)) else old(disk)
      ensures old(Disciplined()) ==> Disciplined()
    {
      alive := Do(WriteData(df));
    }

    /** SaveEmail skips a path that exists already. */
    method SaveMails(server: ServerUidValidity, mails: seq<Msg>) returns (alive: bool)
      requires Valid() && RecoveryOf(disk).None? && UidValidityOf(disk) == Some(server)
      requires !manifestSticks ==> disk.manifest.None?
      modifies `disk, `trace
      ensures Valid()
      ensures steady ==> alive
      ensures disk == old(disk).(emails := disk.emails)
      ensures alive ==> RootEmails(disk) == Saved(RootEmails(old(disk)), server, mails)
      ensures old(Disciplined()) ==> Disciplined()
    {
      for i := 0 to |mails|
        invariant Valid()
        invariant old(Disciplined()) ==> Disciplined()
        invariant disk == old(disk).(emails := disk.emails)
        invariant RootEmails(disk) == Saved(RootEmails(old(disk)), server, mails[..i])
      {
        SavedSnoc(RootEmails(old(disk)), server, mails, i);
        var path := Path(server, mails[i]);
        if path !in RootEmails(disk) {
          alive := Do(WriteEmail(path, mails[i].mail));
          if !alive {
            return;
          }
        }
      }
      assert mails[..|mails|] == mails;
      alive := true;
    }

    /** gc and reprocess: fail closed on a recovery, then edit the root files. */
    method RunMaintenance(edits: seq<Edit>) returns (code: Exit)
      requires Valid()
      modifies `disk, `trace, `mode
      ensures Valid()
      ensures code == Killed ==> !steady
      ensures old(Disciplined()) ==> Disciplined()
      ensures !Stranded(old(disk)) && !manifestSticks ==> !Stranded(disk)
      ensures Tidy(old(disk)) && !manifestSticks ==> Tidy(disk)
      ensures RecoveryOf(old(disk)).Some? ==> code != ExitOk && Abs(disk) == Abs(old(disk))
      ensures RecoveryOf(disk) == RecoveryOf(old(disk)) && UidValidityOf(disk) == UidValidityOf(old(disk))
      ensures code == ExitOk ==> Live(disk) == Edited(Live(old(disk)), edits)
      ensures steady && RecoveryOf(old(disk)).None? && !Blocks(old(disk)) ==> code == ExitOk
    {
      var status := Open(OpenReadWrite);
      match status {
        case Failed(_) => return ExitError;
        case Died => return Killed;
        case Done =>
      }
      var recovery := LoadRecoveryRequired();
      if recovery.Some? {
        return ExitError;
      }
      var alive := ApplyEdits(edits);
      return if alive then ExitOk else Killed;
    }

    method ApplyEdits(edits: seq<Edit>) returns (alive: bool)
      requires Valid() && RecoveryOf(disk).None? && (!manifestSticks ==> disk.manifest.None?)
      modifies `disk, `trace
      ensures Valid()
      ensures steady ==> alive
      ensures old(Disciplined()) ==> Disciplined()
      ensures disk == old(disk).(data := disk.data, emails := disk.emails)
      ensures alive ==> Live(disk) == Edited(Live(old(disk)), edits)
    {
      for i := 0 to |edits|
        invariant Valid()
        invariant old(Disciplined()) ==> Disciplined()
        invariant disk == old(disk).(data := disk.data, emails := disk.emails)
        invariant Live(disk) == Edited(Live(old(disk)), edits[..i])
      {
        assert edits[..i + 1][..i] == edits[..i];
        alive := Do(match edits[i]
                    case ReplaceData(df) => WriteData(df)
                    case DropEmail(path) => RemoveEmail(path));
        if !alive {
          return;
        }
      }
      assert edits[..|edits|] == edits;
      alive := true;
    }

    // ---- whole runs ----

    /** What every command keeps when manifest removals take effect. */
    ghost predicate Sound()
      reads this
    {
      Valid() && Disciplined() && !Stranded(disk) && Tidy(disk) && NonZeroRecovery(disk)
    }

    /** Any commands in any order, each crashing wherever it likes, with staging removals that may
        fail: the disk is always one that allowed operations reach, so all of ResetRuns applies. */
    method Lifetime(commands: seq<Command>)
      requires Sound() && !manifestSticks
      modifies this
      ensures Sound() && start == old(start) && ManifestsRemoved(start, trace)
    {
      for i := 0 to |commands|
        invariant Sound() && !manifestSticks && start == old(start)
      {
        steady, stagingSticks := *, *;
        match commands[i] {
          case Fetch(server, mails, reports) => var _ := RunFetch(server, mails, reports);
          case Maintain(edits) => var _ := RunMaintenance(edits);
          case Recover(recoverMode, yes) => var _ := RunRecover(recoverMode, yes);
        }
      }
    }

    /** Convergence: however many confirmed discard-old runs crash, and wherever, one undisturbed
        run and the next read-write open leave the empty store at the recorded UIDVALIDITY. */
    method CrashesConverge(crashes: nat) returns (code: Exit, ghost before: Disk, ghost after: Disk)
      requires Sound() && !manifestSticks && RecoveryOf(disk).Some?
      modifies this
      ensures Sound()
      ensures Abs(before) == Abs(old(disk)) || Abs(before) == Discarded(Abs(old(disk)))
      ensures RecoveryOf(before).Some? || PreCommitManifest(before) ==>
                code == ExitOk && after == CleanDisk(RecoveryOf(old(disk)).value.curr)
      ensures disk == Opened(CleanDisk(RecoveryOf(old(disk)).value.curr))
      // no reports, no index, no emails, no reset bookkeeping
      ensures disk == Disk(Some(DataFile([], [])), Some(map[]),
                           Some(Sentinel(Some(old(disk).sentinel.value.recovery.value.curr), None)), None, None)
    {
      for i := 0 to crashes
        invariant Sound() && !manifestSticks
        invariant Abs(disk) == Abs(old(disk)) || Abs(disk) == Discarded(Abs(old(disk)))
      {
        steady, stagingSticks := false, *;
        var _ := RunRecover(ModeDiscardOld, true);
      }
      before := disk;
      steady, stagingSticks := true, false;
      code := RunRecover(ModeDiscardOld, true);
      after := disk;
      var status := Open(OpenReadWrite);
    }
  }

  /** A reset started here loses nothing but the store it was asked to discard. */
  predicate SafelyResettable(d: Disk) {
    PreCommitManifest(d) && (Pending(d) || (RecoveryOf(d).None? && d.data.None? && d.emails.None?))
  }

  /** The abstract store is as before, or its recovery has been carried out. */
  ghost predicate ResetEffect(before: Disk, after: Disk) {
    || Abs(after) == Abs(before)
    || (RecoveryOf(before).Some? && Abs(after) == Discarded(Abs(before)))
  }

  /** What one recover command, finished or crashed, can do to the abstract store. */
  ghost predicate RecoverEffect(before: Disk, mode: RecoverMode, yes: bool, code: Exit, after: Disk) {
    || Abs(after) == Abs(before)
    || (RecoveryOf(before).Some? && mode == ModeDiscardOld && yes && Abs(after) == Discarded(Abs(before)))
    || (RecoveryOf(before).Some? && mode == ModeKeepOld && Abs(after) == Kept(Abs(before)))
  }

  /** What an undisturbed recover command does. */
  ghost predicate SteadyRecover(before: Disk, mode: RecoverMode, yes: bool, code: Exit, after: Disk) {
    if mode == ModeDiscardOld && yes then
      if RecoveryOf(before).Some? then
        code == ExitOk && after == CleanDisk(RecoveryOf(before).value.curr)
      else if PreCommitManifest(before) then
        code == ExitOk && after == CleanDisk(before.manifest.value.curr)
      else
        code == ExitError && after == before.(sentinel := Some(SentinelOf(before)))
    else if Blocks(before) then
      code == ExitError && after == before
    else if mode == ModeKeepOld && RecoveryOf(before).Some? then
      code == ExitOk && after == Opened(before).(sentinel := Some(Sentinel(Some(RecoveryOf(before).value.curr), None)))
    else
      code == ExitError && after == Opened(before)
  }

  /** Fail closed, both ways: a read-write open refuses exactly while a reset is uncommitted. */
  lemma BlocksExactlyWhilePending(d: Disk, ops: seq<Op>)
    requires AllAllowed(EmptyDisk, ops) && ManifestsRemoved(EmptyDisk, ops) && d == Run(EmptyDisk, ops)
    ensures Blocks(d) <==> Pending(d)
  {
    assert ops[..|ops|] == ops;
    RunNeverStranded(EmptyDisk, ops, |ops|);
    RunKeepsInv(EmptyDisk, ops, |ops|);
  }
}
