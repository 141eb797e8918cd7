/** The start-up script as it runs: the shared volume and one container's shell, command by command. */
module InstallScript {
  import opened InstallLock

  /** The volume all containers mount. */
  class SharedVolume {
    var lockDirectory: bool
    var installedMarker: bool
    ghost var containers: map<nat, At>
    ghost var installs: seq<nat>

    ghost function Abstract(): Volume
      reads this
    {
      Volume(lockDirectory, installedMarker, containers, installs)
    }

    constructor ()
      ensures Abstract() == Empty
    {
      lockDirectory, installedMarker, containers, installs := false, false, map[], [];
    }
  }

  datatype Command =
    | TestMarker | MakeModules | MakeLock | RemoveStore | TryInstall | CreateMarker
    | RemoveLock | RemoveLockAndFail | PollMarker | Ready | Failed

  /** The shell of one container. */
  class Shell {
    const id: nat
    const volume: SharedVolume
    var retryCount: nat
    var next: Command

    /** Where the script stands. */
    function Stands(): At
      reads this
    {
      match next
      case TestMarker => CheckMarker
      case MakeModules => PrepareVolume
      case MakeLock => TakeLock
      case RemoveStore => Wipe
      case TryInstall => Install(retryCount)
      case CreateMarker => TouchMarker
      case RemoveLock => ReleaseInstalled
      case RemoveLockAndFail => ReleaseFailed
      case PollMarker => Waiting
      case Ready => Past
      case Failed => Exited
    }

    ghost predicate Valid()
      reads this, volume
    {
      && id in volume.containers && volume.containers[id] == Stands()
      && (next in {TestMarker, MakeModules, MakeLock, RemoveStore} ==> retryCount == 0)
    }

    constructor (id: nat, volume: SharedVolume)
      requires id !in volume.containers
      modifies volume
      ensures Valid() && this.id == id && this.volume == volume
      ensures volume.Abstract() == Step(old(volume.Abstract()), Starts(id))
    {
      this.id, this.volume, retryCount, next := id, volume, 0, TestMarker;
      new;
      volume.containers := volume.containers[id := CheckMarker];
    }

    method Go(to: Command)
      requires id in volume.containers
      modifies this`next, volume`containers
      ensures next == to && volume.containers == old(volume.containers)[id := Stands()]
    {
      next := to;
      volume.containers := volume.containers[id := Stands()];
    }

    method LookForMarker()
      requires Valid() && next == TestMarker
      modifies this`next, volume`containers
      ensures Valid() && volume.Abstract() == Step(old(volume.Abstract()), Runs(id, false))
      ensures next == if volume.installedMarker then Ready else MakeModules
    {
      Go(if volume.installedMarker then Ready else MakeModules);
    }

    method PrepareModules()
      requires Valid() && next == MakeModules
      modifies this`next, volume`containers
      ensures Valid() && volume.Abstract() == Step(old(volume.Abstract()), Runs(id, false))
      ensures next == MakeLock
    {
      Go(MakeLock);
    }

    /** `mkdir` of the lock directory, which only one container can win. */
    method AcquireLock()
      requires Valid() && next == MakeLock
      modifies this`next, volume`containers, volume`lockDirectory
      ensures Valid() && volume.Abstract() == Step(old(volume.Abstract()), Runs(id, false))
      ensures next == (if old(volume.lockDirectory) then PollMarker else RemoveStore) && volume.lockDirectory
    {
      if !volume.lockDirectory {
        volume.lockDirectory := true;
        Go(RemoveStore);
      } else {
        Go(PollMarker);
      }
    }

    method ClearStore()
      requires Valid() && next == RemoveStore
      modifies this`next, volume`containers
      ensures Valid() && volume.Abstract() == Step(old(volume.Abstract()), Runs(id, false))
      ensures next == TryInstall
    {
      Go(TryInstall);
    }

    /** One turn of the `until` loop: an install attempt, and what follows when it fails. */
    method Attempt(succeeds: bool)
      requires Valid() && next == TryInstall
      modifies this`next, this`retryCount, volume`containers, volume`installs
      ensures Valid() && volume.Abstract() == Step(old(volume.Abstract()), Runs(id, succeeds))
      ensures succeeds ==> next == CreateMarker && retryCount == old(retryCount)
      ensures !succeeds ==> retryCount == old(retryCount) + 1
      ensures !succeeds ==> next == if retryCount >= MAX_RETRIES then RemoveLockAndFail else TryInstall
    {
      if succeeds {
        volume.installs := volume.installs + [id];
        Go(CreateMarker);
        return;
      }
      retryCount := retryCount + 1;
      Go(if retryCount >= MAX_RETRIES then RemoveLockAndFail else TryInstall);
    }

    method TouchInstalled()
      requires Valid() && next == CreateMarker
      modifies this`next, volume`containers, volume`installedMarker
      ensures Valid() && volume.Abstract() == Step(old(volume.Abstract()), Runs(id, false))
      ensures next == RemoveLock && volume.installedMarker
    {
      volume.installedMarker := true;
      Go(RemoveLock);
    }

    /** `rmdir` of the lock directory, after the marker or after the last attempt. */
    method RemoveLockDirectory()
      requires Valid() && next in {RemoveLock, RemoveLockAndFail}
      modifies this`next, volume`containers, volume`lockDirectory
      ensures Valid() && volume.Abstract() == Step(old(volume.Abstract()), Runs(id, false))
      ensures next == (if old(next) == RemoveLock then Ready else Failed) && !volume.lockDirectory
    {
      volume.lockDirectory := false;
      Go(if next == RemoveLock then Ready else Failed);
    }

    /** One turn of the waiting loop. */
    method Poll()
      requires Valid() && next == PollMarker
      modifies this`next, volume`containers
      ensures Valid() && volume.Abstract() == Step(old(volume.Abstract()), Runs(id, false))
    {
      Go(if volume.installedMarker then Ready else PollMarker);
    }

    /** The `until` loop: attempts up to the first that succeeds, three at most. */
    method UntilInstalled(attempts: nat -> bool) returns (installed: bool)
      requires Valid() && next == TryInstall && retryCount == 0
      modifies this`next, this`retryCount, volume`containers, volume`installs
      ensures Valid() && installed == SomeAttempt(attempts, MAX_RETRIES)
      ensures next == if installed then CreateMarker else RemoveLockAndFail
    {
      hide Step, SharedVolume.Abstract;
      while !attempts(retryCount)
        invariant Valid() && next == TryInstall && retryCount < MAX_RETRIES
        invariant !SomeAttempt(attempts, retryCount)
        decreases MAX_RETRIES - retryCount
      {
        Attempt(false);
        if next == RemoveLockAndFail {
          return false;
        }
      }
      Attempt(true);
      return true;
    }

    /**
     * A container alone on a volume nobody has locked: it goes through exactly when the marker is
     * there or one of the first three attempts succeeds, and the lock is gone either way.
     */
    method RunAlone(attempts: nat -> bool) returns (passed: bool)
      requires Valid() && next == TestMarker && !volume.lockDirectory
      modifies this, volume
      ensures Valid() && !volume.lockDirectory
      ensures next == if passed then Ready else Failed
      ensures passed <==> old(volume.installedMarker) || attempts(0) || attempts(1) || attempts(2)
      ensures volume.installedMarker == passed
    {
      hide Step, SharedVolume.Abstract, SomeAttempt;
      LookForMarker();
      if next == Ready {
        return true;
      }
      PrepareModules();
      AcquireLock();
      ClearStore();
      FirstThree(attempts);
      passed := InstallLocked(attempts);
    }

    /** With the lock won: installs, leaves the marker when that succeeds, and gives the lock up. */
    method InstallLocked(attempts: nat -> bool) returns (passed: bool)
      requires Valid() && next == TryInstall && retryCount == 0 && !volume.installedMarker
      modifies this, volume
      ensures Valid() && !volume.lockDirectory
      ensures next == if passed then Ready else Failed
      ensures passed == SomeAttempt(attempts, MAX_RETRIES) == volume.installedMarker
    {
      hide Step, SharedVolume.Abstract, SomeAttempt;
      passed := UntilInstalled(attempts);
      if passed {
        TouchInstalled();
      }
      RemoveLockDirectory();
    }
  }

  lemma FirstThree(attempts: nat -> bool)
    ensures SomeAttempt(attempts, MAX_RETRIES) <==> attempts(0) || attempts(1) || attempts(2)
  {
  }

  /** One of the first `n` attempts succeeds. */
  ghost predicate SomeAttempt(attempts: nat -> bool, n: nat) { exists k: nat :: k < n && attempts(k) }
}
