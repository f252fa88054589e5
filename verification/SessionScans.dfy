/** A supervisor's and a scanner's code, step by step among other actors (`runtime.py`).

    `Runtime` is what the operating system shows: the state of every session, changed by whoever moves
    next. Between any two steps of a method below, other creators, supervisors and scanners make any
    moves they can. */
module SessionScans {
  import opened Wrappers
  import opened SessionRuntime

  datatype Sighting = Active | Recent | Stale | Removed | InvalidOrVanished | Failed

  /** These entries are gone; a directory lists them in any order. */
  predicate Emptied(directory: Directory, entries: seq<Entry>) {
    && (LockEntry in entries ==> !directory.lockFile)
    && (MarkerEntry in entries ==> directory.marker.None?)
  }

  predicate IsOthers(move: Move, scanner: ScannerId) {
    move.ByAScanner? ==> move.scanner != scanner
  }

  lemma OthersKeepPhase(s: System, move: Move, scanner: ScannerId)
    requires CanMove(move, s) && IsOthers(move, scanner)
    ensures ScannerOf(AfterMove(move, s), scanner) == ScannerOf(s, scanner)
  {
    hide CanOwner, AfterOwner;
  }

  lemma BehaviourExtends(systems: seq<System>, move: Move)
    requires IsBehaviour(systems) && CanMove(move, systems[|systems| - 1])
    ensures IsBehaviour(systems + [AfterMove(move, systems[|systems| - 1])])
  {
    hide CanMove, AfterMove;
    var longer := systems + [AfterMove(move, systems[|systems| - 1])];
    forall i | 0 <= i < |longer| - 1 ensures Next(longer[i], longer[i + 1]) {
      if i < |systems| - 1 {
        assert Next(systems[i], systems[i + 1]);
      }
    }
  }

  class Runtime {
    var systems: seq<System>    // every state so far
    ghost var faults: nat       // how many calls of this process failed

    ghost predicate Valid()
      reads `systems
    {
      IsBehaviour(systems)
    }

    function Now(): System
      reads `systems
    {
      if systems == [] then System(map[], map[]) else systems[|systems| - 1]
    }

    constructor ()
      ensures Valid() && faults == 0
    {
      systems, faults := [System(map[], map[])], 0;
    }

    /** Whether the next call of the operating system works. */
    method Draw() returns (works: bool)
      modifies `faults
      ensures faults >= old(faults) && (works <==> faults == old(faults))
    {
      works := *;
      if !works {
        faults := faults + 1;
      }
    }

    /** Makes one move. */
    method Make(move: Move)
      requires Valid() && CanMove(move, Now())
      modifies `systems
      ensures Valid() && Now() == AfterMove(move, old(Now())) && old(systems) <= systems
    {
      hide CanMove, AfterMove;
      BehaviourExtends(systems, move);
      systems := systems + [AfterMove(move, Now())];
    }

    /** Other creators, supervisors and scanners make any moves they can. `start` is where the scan of this session
        began. */
    method Others(scanner: ScannerId, ghost id: SessionId, ghost start: System)
      requires Valid() && Spares(start, Now(), scanner, id)
      modifies `systems
      ensures Valid() && old(systems) <= systems
      ensures ScannerOf(Now(), scanner) == ScannerOf(old(Now()), scanner)
      ensures Undisturbed(old(Now()), scanner, id) ==> SessionOf(Now(), id) == SessionOf(old(Now()), id)
      ensures Spares(start, Now(), scanner, id)
    {
      hide CanMove, AfterMove, IsBehaviour, Spares;
      var moves: seq<Move> := *;
      for i := 0 to |moves|
        invariant Valid() && old(systems) <= systems
        invariant ScannerOf(Now(), scanner) == ScannerOf(old(Now()), scanner)
        invariant Undisturbed(old(Now()), scanner, id) ==> SessionOf(Now(), id) == SessionOf(old(Now()), id)
        invariant Spares(start, Now(), scanner, id)
      {
        if IsOthers(moves[i], scanner) && CanMove(moves[i], Now()) {
          OthersKeepPhase(Now(), moves[i], scanner);
          NotEmpty(systems);
          OthersSpareEnded(systems, moves[i], start, scanner, id);
          if Undisturbed(Now(), scanner, id) {
            OthersLeaveItAlone(systems, |systems| - 1, scanner, id, moves[i]);
          }
          Make(moves[i]);
        }
      }
    }

    /** One step of a scanner in a session. */
    method ScanStep(scanner: ScannerId, ghost id: SessionId, scan: ScannerMove, ghost start: System)
      requires Valid() && CanMove(ByAScanner(scanner, scan), Now()) && Spares(start, Now(), scanner, id)
      requires InSession(ScannerOf(Now(), scanner)) && ScannerOf(Now(), scanner).id == id && !scan.ScannerDies?
      modifies `systems
      ensures Valid() && Now() == AfterMove(ByAScanner(scanner, scan), old(Now())) && old(systems) <= systems
      ensures Spares(start, Now(), scanner, id)
    {
      hide IsBehaviour, CanMove, AfterMove, Spares;
      OwnStepSpares(Now(), start, scanner, id, scan);
      Make(ByAScanner(scanner, scan));
    }

    /** Everyone but the owner of this session makes any moves they can. */
    method OthersThanOwner(id: SessionId)
      requires Valid()
      requires var owner := SessionOf(Now(), id).owner; HoldsLock(owner) || Unpublished(owner)
      modifies `systems
      ensures Valid() && old(systems) <= systems
      ensures SessionOf(Now(), id) == SessionOf(old(Now()), id)
    {
      hide CanMove, AfterMove, IsBehaviour, HoldsLock, Unpublished;
      var moves: seq<Move> := *;
      for i := 0 to |moves|
        invariant Valid() && old(systems) <= systems
        invariant SessionOf(Now(), id) == SessionOf(old(Now()), id)
      {
        if (moves[i].ByTheOwner? ==> moves[i].id != id) && CanMove(moves[i], Now()) {
          NotEmpty(systems);
          OthersSpare(systems, moves[i], id);
          Make(moves[i]);
        }
      }
    }

    /** One step of the session's owner, after whatever others did. */
    method OwnStep(id: SessionId, own: OwnerMove)
      requires Valid() && CanOwner(own, SessionOf(Now(), id))
      requires var owner := SessionOf(Now(), id).owner; HoldsLock(owner) || Unpublished(owner)
      modifies `systems
      ensures Valid() && old(systems) <= systems
      ensures SessionOf(Now(), id) == AfterOwner(own, SessionOf(old(Now()), id))
    {
      hide IsBehaviour, CanOwner, AfterOwner, HoldsLock, Unpublished;
      OthersThanOwner(id);
      Make(ByTheOwner(id, own));
    }

    /** The first half of `create_session_runtime`: the directory and the lock. */
    method LockDirectory(id: SessionId) returns (locked: bool)
      requires Valid() && SessionOf(Now(), id).owner.Waiting?
      modifies `systems, `faults
      ensures Valid() && faults >= old(faults) && old(systems) <= systems
      ensures locked <==> faults == old(faults)
      ensures var Session(owner, directory) := SessionOf(Now(), id);
              if locked then owner.Locked? && directory.holder.ByOwner? && directory.linked && directory.lockFile
              else owner.Waiting? || owner.Discarding?
    {
      hide IsBehaviour, CanMove, AfterMove;
      OthersThanOwner(id);
      var works := Draw();
      if !works {
        return false;
      }
      OwnStep(id, MakeDirectory);
      works := Draw();
      if !works {
        OwnStep(id, FailCreation);
        return false;
      }
      OwnStep(id, MakeLockFile);
      OthersThanOwner(id);
      NotEmpty(systems);
      CreatorsGetTheirLock(systems, |systems| - 1, id);
      works := Draw();
      if !works {
        OwnStep(id, FailCreation);
        return false;
      }
      OwnStep(id, TakeLock);
      return true;
    }

    /** `create_session_runtime`. The lock attempt is never refused, so when nothing else fails the
        session is created: complete, locked and running. */
    method CreateSession(id: SessionId, createdAt: int) returns (created: bool)
      requires Valid() && SessionOf(Now(), id).owner.Waiting?
      modifies `systems, `faults
      ensures Valid() && faults >= old(faults) && old(systems) <= systems
      ensures created <==> faults == old(faults)
      ensures var Session(owner, directory) := SessionOf(Now(), id);
              if created then
                && owner.Running? && directory.holder.ByOwner?
                && directory.linked && directory.lockFile && directory.marker == Some(Marker(createdAt))
              else owner.Waiting? || owner.Discarding?
    {
      hide IsBehaviour, CanMove, AfterMove;
      var locked := LockDirectory(id);
      if !locked {
        return false;
      }
      var works := Draw();
      if !works {
        OwnStep(id, FailCreation);
        return false;
      }
      OwnStep(id, WriteMarker(createdAt));
      works := Draw();
      if !works {
        OwnStep(id, FailCreation);
        return false;
      }
      OwnStep(id, HandOut);
      return true;
    }

    /** `SessionRuntime.close`, which deletes the directory under its lock and then releases the lock. */
    method Close(id: SessionId) returns (removed: bool)
      requires Valid() && SessionOf(Now(), id).owner.Running?
      modifies `systems, `faults
      ensures Valid() && faults >= old(faults) && old(systems) <= systems
      ensures SessionOf(Now(), id).owner.Ended? && !SessionOf(Now(), id).directory.holder.ByOwner?
      ensures removed ==> !SessionOf(Now(), id).directory.linked
      ensures faults == old(faults) ==> removed
    {
      hide IsBehaviour, CanMove, AfterMove;
      OwnStep(id, BeginClose);
      removed := false;
      var lockFirst: bool := *;
      var entries := if lockFirst then [LockEntry, MarkerEntry] else [MarkerEntry, LockEntry];
      for i := 0 to |entries|
        invariant Valid() && faults >= old(faults) && old(systems) <= systems
        invariant SessionOf(Now(), id).owner.Closing?
        invariant Emptied(SessionOf(Now(), id).directory, entries[..i])
      {
        var works := Draw();
        if !works {
          OwnStep(id, Finish);
          return;
        }
        OwnStep(id, DeleteOwn(entries[i]));
      }
      assert entries[..|entries|] == entries && LockEntry in entries && MarkerEntry in entries;
      var works := Draw();
      if works {
        OwnStep(id, RemoveOwn);
        removed := true;
      }
      OwnStep(id, Finish);
    }

    /** `_open_valid_lock` and `_read_valid_marker`. */
    method ReadOpenMarker(scanner: ScannerId, id: SessionId, remove: bool, now: int, ghost start: System)
      returns (marker: Option<Marker>)
      requires Spares(start, Now(), scanner, id)
      requires Valid() && ScannerOf(Now(), scanner) == Opened(remove, now, id)
      modifies `systems, `faults
      ensures Spares(start, Now(), scanner, id)
      ensures Valid() && faults >= old(faults) && old(systems) <= systems
      ensures ScannerOf(Now(), scanner) ==
              if marker.Some? then MarkerRead(remove, now, id, marker.value) else Scanning(remove, now)
      ensures faults == old(faults) && remove && Abandoned(SessionOf(old(Now()), id)) ==>
                marker == SessionOf(old(Now()), id).directory.marker &&
                SessionOf(Now(), id) == SessionOf(old(Now()), id)
    {
      hide IsBehaviour, CanMove, AfterMove, Spares;
      Others(scanner, id, start);
      var works := Draw();
      if !works || !SessionOf(Now(), id).directory.lockFile {
        var _ := StopWith(scanner, InvalidOrVanished, id, start);
        return None;
      }
      OpensLock(Now(), scanner);
      ScanStep(scanner, id, OpenLock, start);
      Others(scanner, id, start);
      works := Draw();
      if !works || SessionOf(Now(), id).directory.marker.None? {
        var _ := StopWith(scanner, InvalidOrVanished, id, start);
        return None;
      }
      marker := SessionOf(Now(), id).directory.marker;
      ReadsMarker(Now(), scanner);
      ScanStep(scanner, id, ReadMarker, start);
    }

    /** `_inspect_open_session`. Whatever others do meanwhile, the scan ends with its locks released; and
        when nothing fails, a removing scan removes every complete stale session whose owner is gone, and
        leaves it alone before it is stale. */
    method InspectOpenSession(scanner: ScannerId, id: SessionId, remove: bool, now: int, ghost start: System)
      returns (sighting: Sighting)
      requires Spares(start, Now(), scanner, id)
      requires Valid() && ScannerOf(Now(), scanner) == Opened(remove, now, id)
      modifies `systems, `faults
      ensures Spares(start, Now(), scanner, id)
      ensures Valid() && faults >= old(faults) && old(systems) <= systems
      ensures ScannerOf(Now(), scanner) == Scanning(remove, now)
      ensures faults == old(faults) && remove && Abandoned(SessionOf(old(Now()), id)) ==>
                if now - SessionOf(old(Now()), id).directory.marker.value.createdAt >= 300 then
                  sighting == Removed && Vanished(SessionOf(Now(), id))
                else
                  sighting == Recent && SessionOf(Now(), id) == SessionOf(old(Now()), id)
      ensures faults == old(faults) && remove && DiedStale(old(systems), id, now) ==>
                sighting == Removed && Vanished(SessionOf(Now(), id))
    {
      hide IsBehaviour, CanMove, AfterMove, DiedStale, Spares;
      NotEmpty(systems);
      DeadAreStale(systems, id, now);
      if remove && SessionOf(Now(), id).owner.Ended? {
        NobodyHolds(systems, scanner, id);
      }
      var marker := ReadOpenMarker(scanner, id, remove, now, start);
      if marker.None? {
        return InvalidOrVanished;
      }
      sighting := InspectMarkedSession(scanner, id, remove, now, marker.value, start);
    }

    /** Its second half, with the marker read: the lock decides whether the session is active. */
    method InspectMarkedSession(scanner: ScannerId, id: SessionId, remove: bool, now: int, marker: Marker,
                                ghost start: System)
      returns (sighting: Sighting)
      requires Spares(start, Now(), scanner, id)
      requires Valid() && ScannerOf(Now(), scanner) == MarkerRead(remove, now, id, marker)
      modifies `systems, `faults
      ensures Spares(start, Now(), scanner, id)
      ensures Valid() && faults >= old(faults) && old(systems) <= systems
      ensures ScannerOf(Now(), scanner) == Scanning(remove, now)
      ensures var session := SessionOf(old(Now()), id);
              faults == old(faults) && remove && Abandoned(session) && session.directory.holder.Free? ==>
                if now - marker.createdAt >= 300 then
                  sighting == Removed && Vanished(SessionOf(Now(), id))
                else
                  sighting == Recent && SessionOf(Now(), id) == session
    {
      hide IsBehaviour, CanMove, AfterMove, Spares;
      Others(scanner, id, start);
      var works := Draw();
      if !works {
        sighting := StopWith(scanner, InvalidOrVanished, id, start);
        return;
      }
      if !SessionOf(Now(), id).directory.holder.Free? {
        SeesActive(Now(), scanner);
        ScanStep(scanner, id, SeeActive, start);
        return Active;
      }
      TriesLock(Now(), scanner);
      ScanStep(scanner, id, TryLock, start);
      sighting := InspectUnlockedSession(scanner, id, remove, now, marker, start);
    }

    /** `_inspect_unlocked_session`, by a scanner that just took the session's lock. */
    method InspectUnlockedSession(scanner: ScannerId, id: SessionId, remove: bool, now: int, marker: Marker,
                                  ghost start: System)
      returns (sighting: Sighting)
      requires Spares(start, Now(), scanner, id)
      requires Valid() && ScannerOf(Now(), scanner) == Holding(remove, now, id, marker)
      requires SessionOf(Now(), id).directory.holder == ByScanner(scanner)
      modifies `systems, `faults
      ensures Spares(start, Now(), scanner, id)
      ensures Valid() && faults >= old(faults) && old(systems) <= systems
      ensures ScannerOf(Now(), scanner) == Scanning(remove, now)
      ensures sighting in {Recent, Stale, Removed, Failed}
      ensures sighting == Recent <==> now - marker.createdAt < 300
      ensures var session := SessionOf(old(Now()), id);
              faults == old(faults) && remove && session.owner.Ended? && session.directory.linked ==>
                if now - marker.createdAt >= 300 then
                  sighting == Removed && Vanished(SessionOf(Now(), id))
                else
                  SessionOf(Now(), id) == session.(directory := session.directory.(holder := Free))
    {
      hide IsBehaviour, CanMove, AfterMove, Spares;
      Others(scanner, id, start);
      if now - marker.createdAt < SESSION_STALE_SECONDS {
        SeesRecent(Now(), scanner);
        ScanStep(scanner, id, SeeRecent, start);
        return Recent;
      }
      if !remove {
        SeesStale(Now(), scanner);
        ScanStep(scanner, id, SeeStale, start);
        return Stale;
      }
      StartsDeleting(Now(), scanner);
      ScanStep(scanner, id, StartDelete, start);
      sighting := DeleteOpenSession(scanner, id, now, marker, start);
    }

    /** An error: the lock file is closed and the scan goes on with the next entry. */
    method StopWith(scanner: ScannerId, reason: Sighting, ghost id: SessionId, ghost start: System)
      returns (sighting: Sighting)
      requires Spares(start, Now(), scanner, id)
      requires Valid() && InSession(ScannerOf(Now(), scanner)) && ScannerOf(Now(), scanner).id == id
      modifies `systems
      ensures Spares(start, Now(), scanner, id)
      ensures Valid() && old(systems) <= systems && sighting == reason
      ensures var phase := ScannerOf(old(Now()), scanner);
              ScannerOf(Now(), scanner) == Scanning(phase.remove, phase.now)
    {
      hide IsBehaviour;
      ScanStep(scanner, id, GiveUp, start);
      return reason;
    }

    /** `_delete_open_session`, by a scanner that holds the session's lock. */
    method DeleteOpenSession(scanner: ScannerId, id: SessionId, now: int, marker: Marker, ghost start: System)
      returns (sighting: Sighting)
      requires Spares(start, Now(), scanner, id)
      requires Valid() && ScannerOf(Now(), scanner) == Deleting(true, now, id, marker)
      modifies `systems, `faults
      ensures Spares(start, Now(), scanner, id)
      ensures Valid() && faults >= old(faults) && old(systems) <= systems
      ensures ScannerOf(Now(), scanner) == Scanning(true, now)
      ensures sighting in {Removed, Failed}
      ensures faults == old(faults) && SessionOf(old(Now()), id).owner.Ended? &&
              SessionOf(old(Now()), id).directory.linked ==>
                sighting == Removed && Vanished(SessionOf(Now(), id))
    {
      hide IsBehaviour, Spares;
      ghost var fate := SessionOf(Now(), id);
      var lockFirst: bool := *;
      var entries := if lockFirst then [LockEntry, MarkerEntry] else [MarkerEntry, LockEntry];
      for i := 0 to |entries|
        invariant Valid() && faults >= old(faults) && old(systems) <= systems && Spares(start, Now(), scanner, id)
        invariant ScannerOf(Now(), scanner) == Deleting(true, now, id, marker)
        invariant fate.owner.Ended? ==>
          && SessionOf(Now(), id).owner == fate.owner
          && SessionOf(Now(), id).directory.linked == fate.directory.linked
          && Emptied(SessionOf(Now(), id).directory, entries[..i])
      {
        Others(scanner, id, start);
        var works := Draw();
        if !works {
          sighting := StopWith(scanner, Failed, id, start);
          return;
        }
        ScanStep(scanner, id, Delete(entries[i]), start);
      }
      assert entries[..|entries|] == entries && LockEntry in entries && MarkerEntry in entries;
      Others(scanner, id, start);
      var works := Draw();
      var directory := SessionOf(Now(), id).directory;
      if !works || !directory.linked || directory.lockFile || directory.marker.Some? {
        sighting := StopWith(scanner, Failed, id, start);
        return;
      }
      ScanStep(scanner, id, RemoveDirectory, start);
      return Removed;
    }

    /** `_inspect_entry`, for an entry whose name is a session's. */
    method InspectEntry(scanner: ScannerId, id: SessionId, remove: bool, now: int) returns (sighting: Option<Sighting>)
      requires Valid() && ScannerOf(Now(), scanner) == Scanning(remove, now)
      modifies `systems, `faults
      ensures Valid() && faults >= old(faults) && old(systems) <= systems
      ensures ScannerOf(Now(), scanner) == Scanning(remove, now)
      ensures Spares(old(Now()), Now(), scanner, id)
      ensures remove && Vanished(SessionOf(old(Now()), id)) ==> SessionOf(Now(), id) == SessionOf(old(Now()), id)
      ensures faults == old(faults) && remove && StaleAt(old(Now()), id, now) ==> Vanished(SessionOf(Now(), id))
      ensures faults == old(faults) && remove && RecentAt(old(Now()), id, now) ==>
                SessionOf(Now(), id) == SessionOf(old(Now()), id)
    {
      hide IsBehaviour, CanMove, AfterMove, Spares, DiedStale;
      ghost var start := Now();
      SparesNothing(start, scanner, id);
      Others(scanner, id, start);
      if !SessionOf(Now(), id).directory.linked {
        return None;
      }
      var works := Draw();
      if !works {
        return Some(InvalidOrVanished);
      }
      MayOpen(Now(), scanner, id);
      OpeningSpares(Now(), scanner, id);
      Make(ByAScanner(scanner, OpenSession(id)));
      var seen := InspectOpenSession(scanner, id, remove, now, start);
      return Some(seen);
    }

    /** `_scan_open_root`, over the entries in the order the directory lists them. An unlimited removing scan in
        which nothing fails leaves no session that was abandoned and stale when it began, and leaves alone those
        that were abandoned less than five minutes after they began. */
    method ScanOpenRoot(scanner: ScannerId, ids: seq<SessionId>, remove: bool, limit: Option<nat>, now: int)
      returns (sightings: seq<Sighting>, truncated: bool)
      requires Valid() && ScannerOf(Now(), scanner) == Scanning(remove, now)
      modifies `systems, `faults
      ensures Valid() && faults >= old(faults) && old(systems) <= systems
      ensures ScannerOf(Now(), scanner) == Scanning(remove, now)
      ensures truncated <==> limit.Some? && limit.value < |ids|
      ensures faults == old(faults) && remove ==> forall i ::
                0 <= i < |ids| && (limit.Some? ==> i < limit.value) ==>
                  match SessionOf(old(Now()), ids[i])
                  case Session(Ended, Directory(true, true, Some(Marker(createdAt)), _)) =>
                    now - createdAt >= 300 ==>
                      SessionOf(Now(), ids[i]).owner.Ended? && !SessionOf(Now(), ids[i]).directory.linked
                  case _ => true
      ensures faults == old(faults) && remove ==> forall id ::
                match SessionOf(old(Now()), id)
                case Session(Ended, Directory(true, true, Some(Marker(createdAt)), _)) =>
                  now - createdAt < 300 ==> SessionOf(Now(), id) == SessionOf(old(Now()), id)
                case _ => true
    {
      hide IsBehaviour, Spares;
      sightings, truncated := [], false;
      ghost var start := Now();
      var index := 0;
      NothingScanned(start, ids, now);
      while index < |ids|
        invariant 0 <= index <= |ids| && (limit.Some? ==> index <= limit.value)
        invariant Valid() && faults >= old(faults) && old(systems) <= systems
        invariant ScannerOf(Now(), scanner) == Scanning(remove, now) && !truncated
        invariant faults == old(faults) && remove ==> Scanned(start, Now(), ids, index, now)
      {
        if limit.Some? && index >= limit.value {
          truncated := true;
          break;
        }
        ghost var before := Now();
        var sighting := InspectEntry(scanner, ids[index], remove, now);
        if faults == old(faults) && remove {
          ScannedOneMore(start, before, Now(), scanner, ids, index, now);
        }
        if sighting.Some? {
          sightings := sightings + [sighting.value];
        }
        index := index + 1;
      }
      if faults == old(faults) && remove {
        ScannedAll(start, Now(), ids, index, now);
      }
    }
  }

  /** Nobody has the lock of an ended owner's session that a removing scanner is about to look at. */
  lemma NobodyHolds(systems: seq<System>, scanner: ScannerId, id: SessionId)
    requires IsBehaviour(systems)
    requires var s := systems[|systems| - 1];
             && ScannerOf(s, scanner).Opened? && ScannerOf(s, scanner).remove && SessionOf(s, id).owner.Ended?
    ensures SessionOf(systems[|systems| - 1], id).directory.holder.Free?
  {
    var s := systems[|systems| - 1];
    BehaviourIsSound(systems, |systems| - 1);
    assert ScannerSound(s, scanner);
    assert SessionSound(s, id);
    assert forall other :: other != scanner ==> ScannerOf(s, other).Outside?;
  }

  /** Scanners and other owners leave a session to its owner until that owner gives it up. */
  lemma OthersSpare(systems: seq<System>, move: Move, id: SessionId)
    requires IsBehaviour(systems) && CanMove(move, systems[|systems| - 1])
    requires var owner := SessionOf(systems[|systems| - 1], id).owner; HoldsLock(owner) || Unpublished(owner)
    requires move.ByTheOwner? ==> move.id != id
    ensures SessionOf(AfterMove(move, systems[|systems| - 1]), id) == SessionOf(systems[|systems| - 1], id)
  {
    if move.ByAScanner? {
      ScansSpareLiveSessions(systems, |systems| - 1, move.scanner, move.scan, id);
    }
  }

  lemma NotEmpty(systems: seq<System>)
    requires IsBehaviour(systems)
    ensures systems != []
  {
  }

  /** Nobody but this scanner can change the session now. */
  predicate Undisturbed(s: System, scanner: ScannerId, id: SessionId) {
    var phase := ScannerOf(s, scanner);
    !phase.Outside? && phase.remove && SessionOf(s, id).owner.Ended?
  }

  /** Since `start`, a removing scan has changed no session of an ended owner but this one. */
  ghost predicate Spares(start: System, now: System, scanner: ScannerId, id: SessionId) {
    var phase := ScannerOf(now, scanner);
    && !phase.Outside?
    && (phase.remove ==> forall other {:trigger SessionOf(now, other)} :: other != id && SessionOf(start, other).owner.Ended? ==>
                                        SessionOf(now, other) == SessionOf(start, other))
  }

  /** Gone for good: nobody links the directory of an ended owner again. */
  predicate Vanished(session: Session) {
    session.owner.Ended? && !session.directory.linked
  }

  predicate StaleAt(s: System, id: SessionId, now: int) {
    Abandoned(SessionOf(s, id)) && IsStale(SessionOf(s, id), now)
  }

  predicate RecentAt(s: System, id: SessionId, now: int) {
    Abandoned(SessionOf(s, id)) && !IsStale(SessionOf(s, id), now)
  }

  /** Of the sessions that were abandoned and stale at the start, those looked at are gone and the others as they
      were. */
  ghost predicate Scanned(start: System, s: System, ids: seq<SessionId>, done: nat, now: int)
    requires done <= |ids|
  {
    forall id {:trigger SessionOf(s, id)} ::
      && (StaleAt(start, id, now) ==>
            if id in ids[..done] then Vanished(SessionOf(s, id)) else SessionOf(s, id) == SessionOf(start, id))
      && (RecentAt(start, id, now) ==> SessionOf(s, id) == SessionOf(start, id))
  }

  lemma NothingScanned(start: System, ids: seq<SessionId>, now: int)
    ensures Scanned(start, start, ids, 0, now)
  {
  }

  lemma ScannedOneMore(start: System, before: System, after: System, scanner: ScannerId, ids: seq<SessionId>,
                       done: nat, now: int)
    requires done < |ids| && Scanned(start, before, ids, done, now) && Spares(before, after, scanner, ids[done])
    requires ScannerOf(after, scanner).Scanning? && ScannerOf(after, scanner).remove
    requires StaleAt(before, ids[done], now) ==> Vanished(SessionOf(after, ids[done]))
    requires Vanished(SessionOf(before, ids[done])) ==> SessionOf(after, ids[done]) == SessionOf(before, ids[done])
    requires RecentAt(before, ids[done], now) ==> SessionOf(after, ids[done]) == SessionOf(before, ids[done])
    ensures Scanned(start, after, ids, done + 1, now)
  {
    assert ids[..done + 1] == ids[..done] + [ids[done]];
    forall id | StaleAt(start, id, now)
      ensures if id in ids[..done + 1] then Vanished(SessionOf(after, id)) else SessionOf(after, id) == SessionOf(start, id)
    {
      assert SessionOf(before, id).owner.Ended?;
      if id != ids[done] {
        assert SessionOf(after, id) == SessionOf(before, id);
      }
    }
    forall id | RecentAt(start, id, now) ensures SessionOf(after, id) == SessionOf(start, id) {
      assert SessionOf(before, id) == SessionOf(start, id);
      if id != ids[done] {
        assert SessionOf(after, id) == SessionOf(before, id);
      }
    }
  }

  lemma ScannedAll(start: System, s: System, ids: seq<SessionId>, done: nat, now: int)
    requires done <= |ids| && Scanned(start, s, ids, done, now)
    ensures forall i :: 0 <= i < done && StaleAt(start, ids[i], now) ==> Vanished(SessionOf(s, ids[i]))
    ensures forall id :: RecentAt(start, id, now) ==> SessionOf(s, id) == SessionOf(start, id)
  {
    forall i | 0 <= i < done && StaleAt(start, ids[i], now) ensures Vanished(SessionOf(s, ids[i])) {
      assert ids[..done][i] == ids[i];
    }
  }

  lemma SparesNothing(s: System, scanner: ScannerId, id: SessionId)
    requires !ScannerOf(s, scanner).Outside?
    ensures Spares(s, s, scanner, id)
  {
  }

  lemma MayOpen(s: System, scanner: ScannerId, id: SessionId)
    requires ScannerOf(s, scanner).Scanning? && SessionOf(s, id).directory.linked
    ensures CanScanner(OpenSession(id), s, scanner)
  {
  }

  // What an interrupted deletion leaves

  /** An owner is gone and the lock file too, but not the directory. */
  predicate Leftover(session: Session) {
    session.owner.Ended? && session.directory.linked && !session.directory.lockFile
  }

  /** No scanner that looks at the session has its lock file open. */
  ghost predicate OnlyOpened(s: System, id: SessionId) {
    forall scanner :: InSession(ScannerOf(s, scanner)) && ScannerOf(s, scanner).id == id ==> ScannerOf(s, scanner).Opened?
  }

  /** No scan ever removes such a directory. */
  lemma {:induction false} LeftoverStays(systems: seq<System>, i: nat, j: nat, id: SessionId)
    requires IsBehaviour(systems) && i <= j < |systems|
    requires Leftover(SessionOf(systems[i], id)) && OnlyOpened(systems[i], id)
    ensures Leftover(SessionOf(systems[j], id)) && OnlyOpened(systems[j], id)
    decreases j
  {
    hide IsBehaviour;
    if i < j {
      LeftoverStays(systems, i, j - 1, id);
      StepOf(systems, j - 1);
      LeftoverStep(systems[j - 1], systems[j], id);
    }
  }

  lemma LeftoverStep(s: System, t: System, id: SessionId)
    requires Next(s, t) && Leftover(SessionOf(s, id)) && OnlyOpened(s, id)
    ensures Leftover(SessionOf(t, id)) && OnlyOpened(t, id)
  {
    hide RootAvailable;
    var move :| CanMove(move, s) && t == AfterMove(move, s);
    if move.ByAScanner? {
      assert InSession(ScannerOf(s, move.scanner)) && ScannerOf(s, move.scanner).id == id ==>
        ScannerOf(s, move.scanner).Opened?;
      forall scanner | InSession(ScannerOf(t, scanner)) && ScannerOf(t, scanner).id == id
        ensures ScannerOf(t, scanner).Opened? {
        assert scanner != move.scanner ==> ScannerOf(t, scanner) == ScannerOf(s, scanner);
      }
    } else {
      assert forall scanner :: ScannerOf(t, scanner) == ScannerOf(s, scanner);
    }
  }

  /** It is reached: an owner that dies in the middle of closing, the lock file deleted first; unless somebody has the
      file open. */
  lemma ClosingCanLeaveIt(s: System, id: SessionId)
    requires SessionOf(s, id).owner.Closing? && SessionOf(s, id).directory.linked && OnlyOpened(s, id)
    ensures CanMove(ByTheOwner(id, DeleteOwn(LockEntry)), s)
    ensures var deleted := AfterMove(ByTheOwner(id, DeleteOwn(LockEntry)), s);
            && CanMove(ByTheOwner(id, OwnerDies), deleted)
            && var dead := AfterMove(ByTheOwner(id, OwnerDies), deleted);
            && Leftover(SessionOf(dead, id)) && OnlyOpened(dead, id)
  {
    var deleted := AfterMove(ByTheOwner(id, DeleteOwn(LockEntry)), s);
    var dead := AfterMove(ByTheOwner(id, OwnerDies), deleted);
    assert forall scanner :: ScannerOf(dead, scanner) == ScannerOf(s, scanner);
  }

  /** Or a scanner that dies in the middle of removing an ended owner's session. */
  lemma ScanCanLeaveIt(systems: seq<System>, i: nat, scanner: ScannerId, id: SessionId)
    requires IsBehaviour(systems) && i < |systems|
    requires ScannerOf(systems[i], scanner).Deleting? && ScannerOf(systems[i], scanner).id == id
    requires SessionOf(systems[i], id).owner.Ended? && SessionOf(systems[i], id).directory.linked
    ensures CanMove(ByAScanner(scanner, Delete(LockEntry)), systems[i])
    ensures var deleted := AfterMove(ByAScanner(scanner, Delete(LockEntry)), systems[i]);
            && CanMove(ByAScanner(scanner, ScannerDies), deleted)
            && var dead := AfterMove(ByAScanner(scanner, ScannerDies), deleted);
            && Leftover(SessionOf(dead, id)) && OnlyOpened(dead, id)
  {
    hide IsBehaviour;
    var s := systems[i];
    BehaviourIsSound(systems, i);
    assert ScannerSound(s, scanner);
    var deleted := AfterMove(ByAScanner(scanner, Delete(LockEntry)), s);
    var dead := AfterMove(ByAScanner(scanner, ScannerDies), deleted);
    forall other ensures ScannerOf(dead, other).Outside? {
      assert other != scanner ==> ScannerOf(s, other).Outside?;
    }
  }

  lemma OthersSpareEnded(systems: seq<System>, move: Move, start: System, scanner: ScannerId, id: SessionId)
    requires IsBehaviour(systems) && CanMove(move, systems[|systems| - 1]) && IsOthers(move, scanner)
    requires Spares(start, systems[|systems| - 1], scanner, id)
    ensures Spares(start, AfterMove(move, systems[|systems| - 1]), scanner, id)
  {
    NotEmpty(systems);
    hide IsBehaviour, CanMove, AfterMove;
    var now := systems[|systems| - 1];
    OthersKeepPhase(now, move, scanner);
    if ScannerOf(now, scanner).remove {
      forall other | other != id && SessionOf(start, other).owner.Ended?
        ensures SessionOf(AfterMove(move, now), other) == SessionOf(start, other) {
        assert SessionOf(now, other) == SessionOf(start, other);
        OthersLeaveItAlone(systems, |systems| - 1, scanner, other, move);
      }
    }
  }

  lemma OwnStepSpares(s: System, start: System, scanner: ScannerId, id: SessionId, scan: ScannerMove)
    requires CanMove(ByAScanner(scanner, scan), s)
    requires InSession(ScannerOf(s, scanner)) && ScannerOf(s, scanner).id == id
    requires !scan.ScannerDies? && Spares(start, s, scanner, id)
    ensures Spares(start, AfterMove(ByAScanner(scanner, scan), s), scanner, id)
  {
    hide RootAvailable;
    var after := AfterMove(ByAScanner(scanner, scan), s);
    forall other | other != id ensures SessionOf(after, other) == SessionOf(s, other) {
    }
  }

  lemma OpeningSpares(s: System, scanner: ScannerId, id: SessionId)
    requires CanScanner(OpenSession(id), s, scanner)
    ensures var move := ByAScanner(scanner, OpenSession(id));
            && CanMove(move, s) && SessionOf(AfterMove(move, s), id) == SessionOf(s, id)
            && ScannerOf(AfterMove(move, s), scanner) == Opened(ScannerOf(s, scanner).remove, ScannerOf(s, scanner).now, id)
            && forall start :: Spares(start, s, scanner, id) ==> Spares(start, AfterMove(move, s), scanner, id)
  {
    var after := AfterMove(ByAScanner(scanner, OpenSession(id)), s);
    assert forall other :: SessionOf(after, other) == SessionOf(s, other);
  }

  /** A complete session whose owner is gone. */
  predicate Abandoned(session: Session) {
    && session.owner.Ended? && session.directory.linked && session.directory.lockFile
    && session.directory.marker.Some?
  }

  /** The owner had written its marker, died at step `death`, and nobody has begun to delete its session since. */
  ghost predicate DiedComplete(systems: seq<System>, death: nat, id: SessionId)
    requires death + 1 < |systems|
  {
    var before, after := SessionOf(systems[death], id).owner, SessionOf(systems[death + 1], id).owner;
    && (before.Published? || before.Running?) && after.Ended?
    && forall k, scanner :: death < k < |systems| && ScannerOf(systems[k], scanner).Deleting? ==>
                              ScannerOf(systems[k], scanner).id != id
  }

  /** Such a session stays complete, with the marker that the owner wrote, for a later scan. */
  lemma {:induction false} DeadStayComplete(systems: seq<System>, death: nat, i: nat, id: SessionId)
    requires IsBehaviour(systems) && death + 1 < |systems| && DiedComplete(systems, death, id) && death < i < |systems|
    ensures Abandoned(SessionOf(systems[i], id))
    ensures SessionOf(systems[i], id).directory.marker == SessionOf(systems[death], id).directory.marker
    decreases i
  {
    hide IsBehaviour;
    StepOf(systems, i - 1);
    if i == death + 1 {
      LiveSessionIsComplete(systems, death, id);
      DyingKeepsDirectory(systems[death], systems[i], id);
    } else {
      DeadStayComplete(systems, death, i - 1, id);
      NobodyDeletes(systems[i - 1], systems[i], id);
    }
  }

  /** The owner died after it had written a marker that is stale by now, and nobody has begun to delete its
      session since. */
  ghost predicate DiedStale(systems: seq<System>, id: SessionId, now: int) {
    exists death :: 0 <= death < |systems| - 1 && DiedComplete(systems, death, id) &&
                    var marker := SessionOf(systems[death], id).directory.marker;
                    marker.Some? && now - marker.value.createdAt >= SESSION_STALE_SECONDS
  }

  lemma DeadAreStale(systems: seq<System>, id: SessionId, now: int)
    requires IsBehaviour(systems)
    ensures DiedStale(systems, id, now) ==>
              var session := SessionOf(systems[|systems| - 1], id);
              Abandoned(session) && IsStale(session, now)
  {
    hide IsBehaviour, DiedComplete;
    NotEmpty(systems);
    if DiedStale(systems, id, now) {
      var death :| 0 <= death < |systems| - 1 && DiedComplete(systems, death, id) &&
                   var marker := SessionOf(systems[death], id).directory.marker;
                   marker.Some? && now - marker.value.createdAt >= SESSION_STALE_SECONDS;
      DeadStayComplete(systems, death, |systems| - 1, id);
    }
  }

  lemma StepOf(systems: seq<System>, i: nat)
    requires IsBehaviour(systems) && i + 1 < |systems|
    ensures Next(systems[i], systems[i + 1])
  {
  }

  lemma DyingKeepsDirectory(s: System, t: System, id: SessionId)
    requires Next(s, t) && SessionOf(t, id).owner.Ended?
    requires SessionOf(s, id).owner.Published? || SessionOf(s, id).owner.Running?
    ensures var before, after := SessionOf(s, id).directory, SessionOf(t, id).directory;
            after.linked == before.linked && after.lockFile == before.lockFile && after.marker == before.marker
  {
  }

  lemma OwnersDeleteNothing(s: System, move: Move, id: SessionId)
    requires CanMove(move, s) && move.ByTheOwner? && SessionOf(s, id).owner.Ended?
    ensures var before, after := SessionOf(s, id).directory, SessionOf(AfterMove(move, s), id).directory;
            && SessionOf(AfterMove(move, s), id).owner.Ended?
            && after.linked == before.linked && after.lockFile == before.lockFile && after.marker == before.marker
  {
  }

  lemma ScannersDeleteNothing(s: System, move: Move, id: SessionId)
    requires CanMove(move, s) && move.ByAScanner? && SessionOf(s, id).owner.Ended?
    requires ScannerOf(s, move.scanner).Deleting? ==> ScannerOf(s, move.scanner).id != id
    ensures var before, after := SessionOf(s, id).directory, SessionOf(AfterMove(move, s), id).directory;
            && SessionOf(AfterMove(move, s), id).owner.Ended?
            && after.linked == before.linked && after.lockFile == before.lockFile && after.marker == before.marker
  {
    hide RootAvailable;
  }

  lemma NobodyDeletes(s: System, t: System, id: SessionId)
    requires Next(s, t) && SessionOf(s, id).owner.Ended?
    requires forall scanner :: ScannerOf(s, scanner).Deleting? ==> ScannerOf(s, scanner).id != id
    ensures var before, after := SessionOf(s, id).directory, SessionOf(t, id).directory;
            && SessionOf(t, id).owner.Ended?
            && after.linked == before.linked && after.lockFile == before.lockFile && after.marker == before.marker
  {
    hide CanMove, AfterMove;
    var move :| CanMove(move, s) && t == AfterMove(move, s);
    if move.ByAScanner? {
      ScannersDeleteNothing(s, move, id);
    } else {
      OwnersDeleteNothing(s, move, id);
    }
  }

  predicate IsStale(session: Session, now: int)
    requires session.directory.marker.Some?
  {
    now - session.directory.marker.value.createdAt >= SESSION_STALE_SECONDS
  }

  // What each step of a scanner does

  lemma OpensLock(s: System, scanner: ScannerId)
    requires var phase := ScannerOf(s, scanner); phase.Opened? && SessionOf(s, phase.id).directory.lockFile
    ensures var move, phase := ByAScanner(scanner, OpenLock), ScannerOf(s, scanner);
            && CanMove(move, s)
            && ScannerOf(AfterMove(move, s), scanner) == LockOpened(phase.remove, phase.now, phase.id)
            && SessionOf(AfterMove(move, s), phase.id) == SessionOf(s, phase.id)
  {
  }

  lemma ReadsMarker(s: System, scanner: ScannerId)
    requires var phase := ScannerOf(s, scanner); phase.LockOpened? && SessionOf(s, phase.id).directory.marker.Some?
    ensures var move, phase := ByAScanner(scanner, ReadMarker), ScannerOf(s, scanner);
            && CanMove(move, s)
            && ScannerOf(AfterMove(move, s), scanner) ==
               MarkerRead(phase.remove, phase.now, phase.id, SessionOf(s, phase.id).directory.marker.value)
            && SessionOf(AfterMove(move, s), phase.id) == SessionOf(s, phase.id)
  {
  }

  lemma SeesActive(s: System, scanner: ScannerId)
    requires var phase := ScannerOf(s, scanner); phase.MarkerRead? && !SessionOf(s, phase.id).directory.holder.Free?
    ensures var move, phase := ByAScanner(scanner, SeeActive), ScannerOf(s, scanner);
            CanMove(move, s) && ScannerOf(AfterMove(move, s), scanner) == Scanning(phase.remove, phase.now)
  {
  }

  lemma TriesLock(s: System, scanner: ScannerId)
    requires var phase := ScannerOf(s, scanner); phase.MarkerRead? && SessionOf(s, phase.id).directory.holder.Free?
    ensures var move, phase := ByAScanner(scanner, TryLock), ScannerOf(s, scanner);
            && CanMove(move, s)
            && ScannerOf(AfterMove(move, s), scanner) == Holding(phase.remove, phase.now, phase.id, phase.marker)
            && var session := SessionOf(s, phase.id);
            SessionOf(AfterMove(move, s), phase.id) ==
            session.(directory := session.directory.(holder := ByScanner(scanner)))
  {
  }

  lemma SeesRecent(s: System, scanner: ScannerId)
    requires var phase := ScannerOf(s, scanner);
             phase.Holding? && phase.now - phase.marker.createdAt < SESSION_STALE_SECONDS
    ensures var move, phase := ByAScanner(scanner, SeeRecent), ScannerOf(s, scanner);
            && CanMove(move, s) && ScannerOf(AfterMove(move, s), scanner) == Scanning(phase.remove, phase.now)
            && var session := SessionOf(s, phase.id);
            SessionOf(AfterMove(move, s), phase.id) ==
            session.(directory := Unlocked(session.directory, ByScanner(scanner)))
  {
  }

  lemma SeesStale(s: System, scanner: ScannerId)
    requires var phase := ScannerOf(s, scanner);
             phase.Holding? && !phase.remove && phase.now - phase.marker.createdAt >= SESSION_STALE_SECONDS
    ensures var move, phase := ByAScanner(scanner, SeeStale), ScannerOf(s, scanner);
            CanMove(move, s) && ScannerOf(AfterMove(move, s), scanner) == Scanning(phase.remove, phase.now)
  {
  }

  lemma StartsDeleting(s: System, scanner: ScannerId)
    requires var phase := ScannerOf(s, scanner);
             phase.Holding? && phase.remove && phase.now - phase.marker.createdAt >= SESSION_STALE_SECONDS
    ensures var move, phase := ByAScanner(scanner, StartDelete), ScannerOf(s, scanner);
            && CanMove(move, s)
            && ScannerOf(AfterMove(move, s), scanner) == Deleting(phase.remove, phase.now, phase.id, phase.marker)
            && SessionOf(AfterMove(move, s), phase.id) == SessionOf(s, phase.id)
  {
  }
}
