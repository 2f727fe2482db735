/** internal/storelock/storelock.go and cmd/tlsrpt-digest/boot.go: which locks a command holds, in what
    order it takes them, and that it gives them back. */
module Boot {
  import opened Types

  /** The kernel's view of the two lock files. An flock belongs to an open file description. */
  class Kernel {
    var nextFile: nat
    /** The holder of LOCK_EX on the store lock file. */
    var storeLock: Option<nat>
    /** The holders of LOCK_SH on the guard file. */
    var shared: set<nat>

    ghost predicate Valid()
      reads this
    {
      && (storeLock.Some? ==> storeLock.value < nextFile)
      && (forall f :: f in shared ==> f < nextFile)
    }

    constructor ()
      ensures Valid() && storeLock == None && shared == {}
    {
      nextFile, storeLock, shared := 0, None, {};
    }
  }

  datatype AcquireError = ErrLockHeld | ErrLockFile

  class FlockHandle {
    const kernel: Kernel
    var file: Option<nat>

    constructor (kernel: Kernel, file: nat)
      ensures this.kernel == kernel && this.file == Some(file)
    {
      this.kernel, this.file := kernel, Some(file);
    }

    /** Close of a closed handle does nothing: it cannot release a lock somebody else has taken since. */
    method Close()
      requires kernel.Valid()
      modifies this`file, kernel`storeLock
      ensures kernel.Valid() && file == None
      ensures kernel.storeLock == if old(file).Some? && old(kernel.storeLock) == old(file) then None else old(kernel.storeLock)
    {
      if file.None? {
        return;
      }
      var f := file.value;
      file := None;
      if kernel.storeLock == Some(f) {
        kernel.storeLock := None;
      }
    }
  }

  /** LOCK_EX|LOCK_NB: fails at once when anybody holds the lock, and then leaves it alone. */
  method Acquire(kernel: Kernel, fileOpens: bool) returns (handle: FlockHandle?, error: AcquireError)
    requires kernel.Valid()
    modifies kernel`nextFile, kernel`storeLock
    ensures kernel.Valid()
    ensures kernel.nextFile >= old(kernel.nextFile)
    ensures handle != null ==>
              && fresh(handle) && handle.kernel == kernel && old(kernel.storeLock).None?
              && handle.file.Some? && kernel.storeLock == handle.file && old(kernel.nextFile) <= handle.file.value
    ensures handle == null ==> kernel.storeLock == old(kernel.storeLock)
    ensures handle != null <==> fileOpens && old(kernel.storeLock).None?
    ensures handle == null ==> (error == ErrLockHeld <==> fileOpens && old(kernel.storeLock).Some?)
  {
    handle, error := null, ErrLockFile;
    if !fileOpens {
      return;
    }
    var f := kernel.nextFile;
    kernel.nextFile := f + 1;
    if kernel.storeLock.Some? {
      error := ErrLockHeld;
      return;
    }
    kernel.storeLock := Some(f);
    handle := new FlockHandle(kernel, f);
  }

  /** What of the file system and the configuration a command finds usable. */
  datatype Found = Found(prepared: bool, lockFileOpens: bool, storeOpens: bool, guardOpens: bool)

  datatype Subcommand = Fetch | Summary | Reprocess | Gc | Recover

  class BootContext {
    const kernel: Kernel
    var lockHandle: FlockHandle?
    var guard: Option<nat>

    ghost predicate Valid()
      reads this, kernel, lockHandle
    {
      && kernel.Valid()
      && (lockHandle != null ==> lockHandle.kernel == kernel && lockHandle.file.Some? && kernel.storeLock == lockHandle.file)
      && (guard.Some? ==> guard.value in kernel.shared)
    }

    constructor (kernel: Kernel)
      requires kernel.Valid()
      ensures Valid() && this.kernel == kernel && lockHandle == null && guard == None
    {
      this.kernel, this.lockHandle, this.guard := kernel, null, None;
    }

    /** Gives up the guard, then the lock. A second Close finds nothing to give up. */
    method Close()
      requires Valid()
      modifies this`lockHandle, this`guard, lockHandle, kernel`storeLock, kernel`shared
      ensures Valid() && lockHandle == null && guard == None
      ensures kernel.storeLock == if old(lockHandle) != null then None else old(kernel.storeLock)
      ensures kernel.shared == if old(guard).Some? then old(kernel.shared) - {old(guard).value} else old(kernel.shared)
    {
      if guard.Some? {
        kernel.shared := kernel.shared - {guard.value};
        guard := None;
      }
      if lockHandle != null {
        lockHandle.Close();
        lockHandle := null;
      }
    }

    /** A summary takes the shared guard and no lock; every other command that is not a dry run takes the store
        lock before it opens the store. */
    method Bootstrap(subcommand: Subcommand, dryRun: bool, found: Found) returns (ok: bool)
      requires Valid() && lockHandle == null && guard == None
      modifies this`lockHandle, this`guard, kernel
      ensures Valid()
      ensures ok <==>
                && found.prepared && found.storeOpens
                && (subcommand == Summary ==> found.guardOpens)
                && (subcommand != Summary && !dryRun ==> found.lockFileOpens && old(kernel.storeLock).None?)
      ensures ok ==> (subcommand == Summary <==> guard.Some?)
      ensures ok ==> (subcommand != Summary && !dryRun <==> lockHandle != null)
      ensures lockHandle != null ==> old(kernel.storeLock).None?
      // a failure leaves no lock behind, and nobody else's lock is touched
      ensures !ok ==> lockHandle == null && guard == None
      ensures lockHandle == null ==> kernel.storeLock == old(kernel.storeLock)
      ensures kernel.shared == if guard.Some? then old(kernel.shared) + {guard.value} else old(kernel.shared)
      ensures guard.Some? ==> guard.value !in old(kernel.shared)
    {
      if !found.prepared {
        return false;
      }
      if subcommand == Summary {
        if !found.storeOpens || !found.guardOpens {
          return false;
        }
        var f := kernel.nextFile;
        kernel.nextFile, kernel.shared, guard := f + 1, kernel.shared + {f}, Some(f);
        return true;
      }
      if !dryRun {
        var handle, _ := Acquire(kernel, found.lockFileOpens);
        if handle == null {
          return false;
        }
        lockHandle := handle;
      }
      if !found.storeOpens {
        Close();
        return false;
      }
      return true;
    }
  }

  /** While one command holds the store lock no other writer can start, and a stale Close changes nothing. */
  method LockIsExclusive(kernel: Kernel, first: BootContext, second: BootContext, subcommand: Subcommand, found: Found, stale: FlockHandle)
    returns (ok: bool)
    requires first.kernel == kernel == second.kernel && first != second
    requires first.Valid() && first.lockHandle != null && second.Valid() && second.lockHandle == null && second.guard == None
    requires stale.kernel == kernel && stale.file == None && stale != first.lockHandle
    requires subcommand != Summary
    modifies second`lockHandle, second`guard, stale`file, kernel
    ensures !ok && first.Valid() && kernel.storeLock == old(kernel.storeLock)
  {
    stale.Close();
    ok := second.Bootstrap(subcommand, false, found);
  }
}
