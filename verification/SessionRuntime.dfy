/** The liveness protocol of session directories (`runtime.py`).

    A creator makes a directory, creates and locks its lock file, and only then writes the marker. Its
    supervisor keeps the lock until it has deleted the directory. Scanners, which exclude each other by
    a lock on the root when they may remove, look at a session's lock only after they read its marker.
    Every actor can fail or die between any two steps, and its locks go with it. */
module SessionRuntime {
  import opened Wrappers

  type SessionId = nat
  type ScannerId = nat

  const SESSION_STALE_SECONDS := 300

  datatype Marker = Marker(createdAt: int)

  datatype Holder = Free | ByOwner | ByScanner(scanner: ScannerId)

  /** One session directory; `holder` has the lock on its lock file, linked or not. */
  datatype Directory = Directory(linked: bool, lockFile: bool, marker: Option<Marker>, holder: Holder)

  datatype Owner =
    | Waiting         // nothing made yet
    | MadeDirectory
    | MadeLockFile
    | Locked          // holds the lock, no marker yet
    | Published       // marker written, creation not finished
    | Running         // a supervisor owns the session
    | Closing         // deleting its own directory, lock still held
    | Discarding      // creation failed: lock released, leftovers being deleted
    | Ended           // closed, failed or dead

  datatype Session = Session(owner: Owner, directory: Directory)

  datatype Scanner =
    | Outside
    | Scanning(remove: bool, now: int)                                        // holds the root lock
    | Opened(remove: bool, now: int, id: SessionId)                           // directory open
    | LockOpened(remove: bool, now: int, id: SessionId)                       // lock file open
    | MarkerRead(remove: bool, now: int, id: SessionId, marker: Marker)
    | Holding(remove: bool, now: int, id: SessionId, marker: Marker)          // lock taken
    | Deleting(remove: bool, now: int, id: SessionId, marker: Marker)

  datatype System = System(sessions: map<SessionId, Session>, scanners: map<ScannerId, Scanner>)

  const Absent := Session(Waiting, Directory(false, false, None, Free))

  function SessionOf(s: System, id: SessionId): Session {
    if id in s.sessions then s.sessions[id] else Absent
  }

  function ScannerOf(s: System, scanner: ScannerId): Scanner {
    if scanner in s.scanners then s.scanners[scanner] else Outside
  }

  function WithSession(s: System, id: SessionId, session: Session): System {
    s.(sessions := s.sessions[id := session])
  }

  function WithScanner(s: System, scanner: ScannerId, phase: Scanner): System {
    s.(scanners := s.scanners[scanner := phase])
  }

  // Moves

  datatype Entry = LockEntry | MarkerEntry

  datatype OwnerMove =
    | MakeDirectory
    | MakeLockFile
    | TakeLock
    | LockRefused                   // the lock attempt of a creator fails
    | WriteMarker(createdAt: int)
    | HandOut
    | FailCreation                  // any step of the creation fails: the lock is closed first
    | MarkRunning                   // the marker is replaced, in one step
    | BeginClose
    | DeleteOwn(entry: Entry)
    | RemoveOwn
    | Finish                        // done, or gave up deleting: the lock is closed last
    | OwnerDies

  datatype ScannerMove =
    | Enter(remove: bool, now: int)
    | Leave
    | OpenSession(id: SessionId)
    | OpenLock
    | ReadMarker
    | TryLock
    | SeeActive                     // the lock is taken
    | SeeRecent
    | SeeStale
    | StartDelete
    | Delete(entry: Entry)
    | RemoveDirectory
    | GiveUp                        // an invalid, vanished or unsafe entry, or any other error
    | ScannerDies

  predicate MayDelete(owner: Owner) {
    owner.Closing? || owner.Discarding?
  }

  predicate CanOwner(move: OwnerMove, session: Session) {
    var owner, directory := session.owner, session.directory;
    match move
    case MakeDirectory => owner.Waiting?
    case MakeLockFile => owner.MadeDirectory?
    case TakeLock => owner.MadeLockFile? && directory.holder.Free?
    case LockRefused => owner.MadeLockFile? && !directory.holder.Free?
    case WriteMarker(_) => owner.Locked?
    case HandOut => owner.Published?
    case FailCreation => owner.MadeDirectory? || owner.MadeLockFile? || owner.Locked? || owner.Published?
    case MarkRunning => owner.Running? && directory.marker.Some?
    case BeginClose => owner.Running?
    case DeleteOwn(entry) => MayDelete(owner)
    case RemoveOwn => MayDelete(owner) && !directory.lockFile && directory.marker.None?
    case Finish => MayDelete(owner)
    case OwnerDies => !owner.Waiting?
  }

  function Without(directory: Directory, entry: Entry): Directory {
    match entry
    case LockEntry => directory.(lockFile := false)
    case MarkerEntry => directory.(marker := None)
  }

  function Unlocked(directory: Directory, holder: Holder): Directory {
    if directory.holder == holder then directory.(holder := Free) else directory
  }

  function AfterOwner(move: OwnerMove, session: Session): Session
    requires CanOwner(move, session)
  {
    var Session(owner, directory) := session;
    match move
    case MakeDirectory => Session(MadeDirectory, directory.(linked := true))
    case MakeLockFile => Session(MadeLockFile, directory.(lockFile := true))
    case TakeLock => Session(Locked, directory.(holder := ByOwner))
    case LockRefused => Session(Discarding, directory)
    case WriteMarker(createdAt) => Session(Published, directory.(marker := Some(Marker(createdAt))))
    case HandOut => Session(Running, directory)
    case FailCreation => Session(Discarding, Unlocked(directory, ByOwner))
    case MarkRunning => session
    case BeginClose => Session(Closing, directory)
    case DeleteOwn(entry) => Session(owner, Without(directory, entry))
    case RemoveOwn => Session(owner, directory.(linked := false))
    case Finish => Session(Ended, Unlocked(directory, ByOwner))
    case OwnerDies => Session(Ended, Unlocked(directory, ByOwner))
  }

  /** The root lock: a scanner that removes excludes every other scanner. */
  predicate RootAvailable(s: System, scanner: ScannerId, remove: bool) {
    forall other :: other in s.scanners && other != scanner && !s.scanners[other].Outside? ==>
      !remove && !s.scanners[other].remove
  }

  predicate InSession(phase: Scanner) {
    !phase.Outside? && !phase.Scanning?
  }

  predicate CanScanner(move: ScannerMove, s: System, scanner: ScannerId) {
    var phase := ScannerOf(s, scanner);
    match move
    case Enter(remove, _) => phase.Outside? && RootAvailable(s, scanner, remove)
    case Leave => phase.Scanning?
    case OpenSession(id) => phase.Scanning? && SessionOf(s, id).directory.linked
    case OpenLock => phase.Opened? && SessionOf(s, phase.id).directory.lockFile
    case ReadMarker => phase.LockOpened? && SessionOf(s, phase.id).directory.marker.Some?
    case TryLock => phase.MarkerRead? && SessionOf(s, phase.id).directory.holder.Free?
    case SeeActive => phase.MarkerRead? && !SessionOf(s, phase.id).directory.holder.Free?
    case SeeRecent => phase.Holding? && phase.now - phase.marker.createdAt < SESSION_STALE_SECONDS
    case SeeStale => phase.Holding? && !phase.remove && phase.now - phase.marker.createdAt >= SESSION_STALE_SECONDS
    case StartDelete => phase.Holding? && phase.remove && phase.now - phase.marker.createdAt >= SESSION_STALE_SECONDS
    case Delete(_) => phase.Deleting?
    case RemoveDirectory =>
      && phase.Deleting?
      && var directory := SessionOf(s, phase.id).directory;
      && directory.linked && !directory.lockFile && directory.marker.None?
    case GiveUp => InSession(phase)
    case ScannerDies => true
  }

  /** The scanner returns to the root, or leaves, and closes the lock file it had open. */
  function Back(s: System, scanner: ScannerId, next: Scanner): System {
    var phase := ScannerOf(s, scanner);
    if InSession(phase) then
      var session := SessionOf(s, phase.id);
      WithScanner(WithSession(s, phase.id, session.(directory := Unlocked(session.directory, ByScanner(scanner)))),
                  scanner, next)
    else WithScanner(s, scanner, next)
  }

  function AfterScanner(move: ScannerMove, s: System, scanner: ScannerId): System
    requires CanScanner(move, s, scanner)
  {
    var phase := ScannerOf(s, scanner);
    match move
    case Enter(remove, now) => WithScanner(s, scanner, Scanning(remove, now))
    case Leave => WithScanner(s, scanner, Outside)
    case OpenSession(id) => WithScanner(s, scanner, Opened(phase.remove, phase.now, id))
    case OpenLock => WithScanner(s, scanner, LockOpened(phase.remove, phase.now, phase.id))
    case ReadMarker =>
      WithScanner(s, scanner, MarkerRead(phase.remove, phase.now, phase.id,
                                         SessionOf(s, phase.id).directory.marker.value))
    case TryLock =>
      var session := SessionOf(s, phase.id);
      WithScanner(WithSession(s, phase.id, session.(directory := session.directory.(holder := ByScanner(scanner)))),
                  scanner, Holding(phase.remove, phase.now, phase.id, phase.marker))
    case StartDelete => WithScanner(s, scanner, Deleting(phase.remove, phase.now, phase.id, phase.marker))
    case Delete(entry) =>
      var session := SessionOf(s, phase.id);
      WithSession(s, phase.id, session.(directory := Without(session.directory, entry)))
    case RemoveDirectory =>
      var session := SessionOf(s, phase.id);
      var removed := WithSession(s, phase.id, session.(directory := session.directory.(linked := false)));
      Back(removed, scanner, Scanning(phase.remove, phase.now))
    case ScannerDies => Back(s, scanner, Outside)
    case _ => Back(s, scanner, Scanning(phase.remove, phase.now))
  }

  datatype Move = ByTheOwner(id: SessionId, own: OwnerMove) | ByAScanner(scanner: ScannerId, scan: ScannerMove)

  predicate CanMove(move: Move, s: System) {
    match move
    case ByTheOwner(id, own) => CanOwner(own, SessionOf(s, id))
    case ByAScanner(scanner, scan) => CanScanner(scan, s, scanner)
  }

  function AfterMove(move: Move, s: System): System
    requires CanMove(move, s)
  {
    match move
    case ByTheOwner(id, own) => WithSession(s, id, AfterOwner(own, SessionOf(s, id)))
    case ByAScanner(scanner, scan) => AfterScanner(scan, s, scanner)
  }

  ghost predicate Next(s: System, t: System) {
    exists move :: CanMove(move, s) && t == AfterMove(move, s)
  }

  ghost predicate IsBehaviour(systems: seq<System>) {
    && systems != [] && systems[0] == System(map[], map[])
    && forall i :: 0 <= i < |systems| - 1 ==> Next(systems[i], systems[i + 1])
  }

  // The invariant

  /** The owner has not given its lock up. */
  predicate HoldsLock(owner: Owner) {
    owner.Locked? || owner.Published? || owner.Running? || owner.Closing?
  }

  /** The owner never wrote a marker. */
  predicate Unpublished(owner: Owner) {
    owner.Waiting? || owner.MadeDirectory? || owner.MadeLockFile? || owner.Locked?
  }

  predicate HasReadMarker(phase: Scanner) {
    phase.MarkerRead? || phase.Holding? || phase.Deleting?
  }

  predicate HasTakenLock(phase: Scanner) {
    phase.Holding? || phase.Deleting?
  }

  ghost predicate SessionSound(s: System, id: SessionId) {
    var Session(owner, directory) := SessionOf(s, id);
    && (directory.holder.ByOwner? <==> HoldsLock(owner))
    && (Unpublished(owner) ==> directory.marker.None? && !directory.holder.ByScanner?)
    && (directory.holder.ByScanner? ==>
          var phase := ScannerOf(s, directory.holder.scanner);
          HasTakenLock(phase) && phase.id == id)
    && (owner.Waiting? ==> !directory.linked && !directory.lockFile)
    && (owner.MadeDirectory? ==> !directory.lockFile)
  }

  ghost predicate ScannerSound(s: System, scanner: ScannerId) {
    var phase := ScannerOf(s, scanner);
    && (HasReadMarker(phase) ==> !Unpublished(SessionOf(s, phase.id).owner))
    && (HasTakenLock(phase) ==> SessionOf(s, phase.id).directory.holder == ByScanner(scanner))
    && (phase.Deleting? ==> phase.remove && phase.now - phase.marker.createdAt >= SESSION_STALE_SECONDS)
    && (!phase.Outside? && phase.remove ==>
          forall other :: other != scanner ==> ScannerOf(s, other).Outside?)
  }

  ghost predicate Sound(s: System) {
    && (forall id :: SessionSound(s, id))
    && (forall scanner :: ScannerSound(s, scanner))
  }

  lemma OwnerMoveKeepsSound(s: System, id: SessionId, own: OwnerMove)
    requires Sound(s) && CanOwner(own, SessionOf(s, id))
    ensures Sound(AfterMove(ByTheOwner(id, own), s))
  {
    var t := AfterMove(ByTheOwner(id, own), s);
    assert SessionSound(s, id);
    forall other ensures SessionSound(t, other) {
      assert SessionSound(s, other);
    }
    forall scanner ensures ScannerSound(t, scanner) {
      assert ScannerSound(s, scanner);
      assert forall other :: ScannerOf(t, other) == ScannerOf(s, other);
    }
  }

  lemma BackKeepsSound(s: System, scanner: ScannerId, next: Scanner)
    requires Sound(s)
    requires var phase := ScannerOf(s, scanner);
             next.Outside? ||
             (next.Scanning? && !phase.Outside? && next.remove == phase.remove && next.now == phase.now)
    ensures Sound(Back(s, scanner, next))
  {
    var t := Back(s, scanner, next);
    assert ScannerSound(s, scanner);
    assert forall other :: other != scanner ==> ScannerOf(t, other) == ScannerOf(s, other);
    forall id ensures SessionSound(t, id) {
      assert SessionSound(s, id);
    }
    forall other ensures ScannerSound(t, other) {
      assert ScannerSound(s, other);
    }
  }

  /** The moves that change nothing but the scanner's own phase. */
  lemma PhaseChangeKeepsSound(s: System, scanner: ScannerId, next: Scanner)
    requires Sound(s)
    requires var phase := ScannerOf(s, scanner);
             && !HasTakenLock(phase) == !HasTakenLock(next) && (HasTakenLock(next) ==> next.id == phase.id)
             && (!next.Outside? ==> next.remove ==> forall other :: other != scanner ==> ScannerOf(s, other).Outside?)
             && (phase.Outside? && !next.Outside? ==>
                   forall other :: other != scanner ==> ScannerOf(s, other).Outside? || !ScannerOf(s, other).remove)
             && (HasReadMarker(next) ==> !Unpublished(SessionOf(s, next.id).owner))
             && (next.Deleting? ==> next.remove && next.now - next.marker.createdAt >= SESSION_STALE_SECONDS)
    ensures Sound(WithScanner(s, scanner, next))
  {
    var t := WithScanner(s, scanner, next);
    assert ScannerSound(s, scanner);
    assert forall other :: other != scanner ==> ScannerOf(t, other) == ScannerOf(s, other);
    forall id ensures SessionSound(t, id) {
      assert SessionSound(s, id);
    }
    forall other ensures ScannerSound(t, other) {
      assert ScannerSound(s, other);
    }
  }

  lemma ScannerMoveKeepsSound(s: System, scanner: ScannerId, scan: ScannerMove)
    requires Sound(s) && CanScanner(scan, s, scanner)
    ensures Sound(AfterScanner(scan, s, scanner))
  {
    hide SessionSound, ScannerSound;
    var phase := ScannerOf(s, scanner);
    ScannerFacts(s, scanner);
    match scan
    case Enter(remove, now) =>
      OthersOutside(s, scanner, remove);
      PhaseChangeKeepsSound(s, scanner, Scanning(remove, now));
    case Leave => PhaseChangeKeepsSound(s, scanner, Outside);
    case OpenSession(id) => PhaseChangeKeepsSound(s, scanner, Opened(phase.remove, phase.now, id));
    case OpenLock => PhaseChangeKeepsSound(s, scanner, LockOpened(phase.remove, phase.now, phase.id));
    case ReadMarker =>
      PublishedMarker(s, phase.id);
      PhaseChangeKeepsSound(s, scanner, AfterScanner(scan, s, scanner).scanners[scanner]);
    case TryLock => TryLockKeepsSound(s, scanner);
    case StartDelete =>
      PhaseChangeKeepsSound(s, scanner, Deleting(phase.remove, phase.now, phase.id, phase.marker));
    case Delete(entry) => DeleteKeepsSound(s, scanner, entry);
    case RemoveDirectory => RemoveKeepsSound(s, scanner);
    case ScannerDies => BackKeepsSound(s, scanner, Outside);
    case _ => BackKeepsSound(s, scanner, Scanning(phase.remove, phase.now));
  }

  lemma ScannerFacts(s: System, scanner: ScannerId)
    requires Sound(s)
    ensures var phase := ScannerOf(s, scanner);
            && (HasReadMarker(phase) ==> !Unpublished(SessionOf(s, phase.id).owner))
            && (HasTakenLock(phase) ==> SessionOf(s, phase.id).directory.holder == ByScanner(scanner))
            && (!phase.Outside? && phase.remove ==>
                  forall other :: other != scanner ==> ScannerOf(s, other).Outside?)
  {
    assert ScannerSound(s, scanner);
  }

  lemma PublishedMarker(s: System, id: SessionId)
    requires Sound(s) && SessionOf(s, id).directory.marker.Some?
    ensures !Unpublished(SessionOf(s, id).owner)
  {
    assert SessionSound(s, id);
  }

  lemma OthersOutside(s: System, scanner: ScannerId, remove: bool)
    requires RootAvailable(s, scanner, remove)
    ensures remove ==> forall other :: other != scanner ==> ScannerOf(s, other).Outside?
    ensures forall other :: other != scanner ==> ScannerOf(s, other).Outside? || !ScannerOf(s, other).remove
  {
  }

  lemma TryLockKeepsSound(s: System, scanner: ScannerId)
    requires Sound(s) && CanScanner(TryLock, s, scanner)
    ensures Sound(AfterScanner(TryLock, s, scanner))
  {
    var t := AfterScanner(TryLock, s, scanner);
    assert ScannerSound(s, scanner);
    assert forall other :: other != scanner ==> ScannerOf(t, other) == ScannerOf(s, other);
    forall id ensures SessionSound(t, id) {
      assert SessionSound(s, id);
    }
    forall other ensures ScannerSound(t, other) {
      assert ScannerSound(s, other);
    }
  }

  lemma DeleteKeepsSound(s: System, scanner: ScannerId, entry: Entry)
    requires Sound(s) && CanScanner(Delete(entry), s, scanner)
    ensures Sound(AfterScanner(Delete(entry), s, scanner))
  {
    var t := AfterScanner(Delete(entry), s, scanner);
    assert forall other :: ScannerOf(t, other) == ScannerOf(s, other);
    forall id ensures SessionSound(t, id) {
      assert SessionSound(s, id);
    }
    forall other ensures ScannerSound(t, other) {
      assert ScannerSound(s, other);
    }
  }

  lemma RemoveKeepsSound(s: System, scanner: ScannerId)
    requires Sound(s) && CanScanner(RemoveDirectory, s, scanner)
    ensures Sound(AfterScanner(RemoveDirectory, s, scanner))
  {
    var phase := ScannerOf(s, scanner);
    var session := SessionOf(s, phase.id);
    var removed := WithSession(s, phase.id, session.(directory := session.directory.(linked := false)));
    assert forall other :: ScannerOf(removed, other) == ScannerOf(s, other);
    forall id ensures SessionSound(removed, id) {
      assert SessionSound(s, id);
    }
    forall other ensures ScannerSound(removed, other) {
      assert ScannerSound(s, other);
    }
    BackKeepsSound(removed, scanner, Scanning(phase.remove, phase.now));
  }

  lemma NextKeepsSound(s: System, t: System)
    requires Sound(s) && Next(s, t)
    ensures Sound(t)
  {
    hide Sound, CanOwner, CanScanner, AfterOwner, AfterScanner;
    var move :| CanMove(move, s) && t == AfterMove(move, s);
    match move
    case ByTheOwner(id, own) => OwnerMoveKeepsSound(s, id, own);
    case ByAScanner(scanner, scan) => ScannerMoveKeepsSound(s, scanner, scan);
  }

  lemma {:induction false} BehaviourIsSound(systems: seq<System>, i: nat)
    requires IsBehaviour(systems) && i < |systems|
    ensures Sound(systems[i])
  {
    hide Next, Sound;
    if i == 0 {
      StartIsSound();
    } else {
      BehaviourIsSound(systems, i - 1);
      NextKeepsSound(systems[i - 1], systems[i]);
    }
  }

  lemma StartIsSound()
    ensures Sound(System(map[], map[]))
  {
  }

  // Results

  /** What a scanner's step does to a session it is not entitled to: nothing. No scan touches a session
      whose creator or supervisor is alive and has neither failed nor finished closing it. */
  lemma ScansSpareLiveSessions(systems: seq<System>, i: nat, scanner: ScannerId, scan: ScannerMove, id: SessionId)
    requires IsBehaviour(systems) && i < |systems| && CanScanner(scan, systems[i], scanner)
    requires HoldsLock(SessionOf(systems[i], id).owner) || Unpublished(SessionOf(systems[i], id).owner)
    ensures SessionOf(AfterScanner(scan, systems[i], scanner), id) == SessionOf(systems[i], id)
  {
    BehaviourIsSound(systems, i);
    assert SessionSound(systems[i], id);
    assert ScannerSound(systems[i], scanner);
  }

  /** A running supervisor's session stays complete, whatever scanners and other owners did. */
  lemma LiveSessionIsComplete(systems: seq<System>, i: nat, id: SessionId)
    requires IsBehaviour(systems) && i < |systems|
    requires SessionOf(systems[i], id).owner.Published? || SessionOf(systems[i], id).owner.Running?
    ensures var directory := SessionOf(systems[i], id).directory;
            directory.linked && directory.lockFile && directory.marker.Some? && directory.holder.ByOwner?
  {
    BehaviourIsSound(systems, i);
    LiveIsLinked(systems, i, id);
    assert SessionSound(systems[i], id);
  }

  /** What a creator has made is there until it, or its supervisor, gives it up. */
  predicate Complete(session: Session) {
    var Session(owner, directory) := session;
    && (owner.MadeDirectory? || owner.MadeLockFile? || owner.Locked? || owner.Published? || owner.Running? ==>
          directory.linked)
    && (owner.MadeLockFile? || owner.Locked? || owner.Published? || owner.Running? ==> directory.lockFile)
    && (owner.Published? || owner.Running? ==> directory.marker.Some?)
  }

  /** A scanner changes entries only of sessions whose owner is past all that. */
  lemma ScannerKeepsComplete(s: System, scanner: ScannerId, scan: ScannerMove, id: SessionId)
    requires Sound(s) && CanScanner(scan, s, scanner) && Complete(SessionOf(s, id))
    ensures Complete(SessionOf(AfterScanner(scan, s, scanner), id))
  {
    assert ScannerSound(s, scanner);
    assert SessionSound(s, id);
  }

  lemma NextKeepsComplete(s: System, t: System, id: SessionId)
    requires Sound(s) && Next(s, t) && Complete(SessionOf(s, id))
    ensures Complete(SessionOf(t, id))
  {
    hide Sound, CanScanner, AfterScanner;
    var move :| CanMove(move, s) && t == AfterMove(move, s);
    if move.ByAScanner? {
      ScannerKeepsComplete(s, move.scanner, move.scan, id);
    }
  }

  lemma {:induction false} LiveIsLinked(systems: seq<System>, i: nat, id: SessionId)
    requires IsBehaviour(systems) && i < |systems|
    ensures Complete(SessionOf(systems[i], id))
  {
    hide Next, Sound;
    if i > 0 {
      LiveIsLinked(systems, i - 1, id);
      BehaviourIsSound(systems, i - 1);
      NextKeepsComplete(systems[i - 1], systems[i], id);
    }
  }

  /** No scanner makes a creator's lock attempt fail. */
  lemma CreatorsGetTheirLock(systems: seq<System>, i: nat, id: SessionId)
    requires IsBehaviour(systems) && i < |systems| && SessionOf(systems[i], id).owner.MadeLockFile?
    ensures CanOwner(TakeLock, SessionOf(systems[i], id)) && !CanOwner(LockRefused, SessionOf(systems[i], id))
  {
    BehaviourIsSound(systems, i);
    assert SessionSound(systems[i], id);
  }

  /** A scanner that looks at a live session can only see that its lock is taken. */
  lemma LiveSessionsSeenActive(systems: seq<System>, i: nat, scanner: ScannerId)
    requires IsBehaviour(systems) && i < |systems| && ScannerOf(systems[i], scanner).MarkerRead?
    requires HoldsLock(SessionOf(systems[i], ScannerOf(systems[i], scanner).id).owner)
    ensures CanScanner(SeeActive, systems[i], scanner) && !CanScanner(TryLock, systems[i], scanner)
  {
    BehaviourIsSound(systems, i);
    assert SessionSound(systems[i], ScannerOf(systems[i], scanner).id);
  }

  /** A removing scan that reached a session of a dead owner cannot be held off: nobody has its lock, and
      once it is stale the scan may only delete it. */
  lemma DeadSessionsAreTaken(systems: seq<System>, i: nat, scanner: ScannerId)
    requires IsBehaviour(systems) && i < |systems|
    requires var phase := ScannerOf(systems[i], scanner);
             HasReadMarker(phase) && phase.remove && SessionOf(systems[i], phase.id).owner.Ended?
    ensures var phase := ScannerOf(systems[i], scanner);
            && (phase.MarkerRead? ==>
                  CanScanner(TryLock, systems[i], scanner) && !CanScanner(SeeActive, systems[i], scanner))
            && (phase.Holding? && phase.now - phase.marker.createdAt >= SESSION_STALE_SECONDS ==>
                  && CanScanner(StartDelete, systems[i], scanner)
                  && !CanScanner(SeeRecent, systems[i], scanner) && !CanScanner(SeeStale, systems[i], scanner))
            && (phase.Holding? && phase.now - phase.marker.createdAt < SESSION_STALE_SECONDS ==>
                  !CanScanner(StartDelete, systems[i], scanner))
  {
    BehaviourIsSound(systems, i);
    var s := systems[i];
    var phase := ScannerOf(s, scanner);
    assert ScannerSound(s, scanner);
    assert SessionSound(s, phase.id);
  }

  /** While a removing scanner is inside, nobody else touches the session of an ended owner, or the
      scanner: so its own steps decide what happens to it. */
  lemma OthersLeaveItAlone(systems: seq<System>, i: nat, scanner: ScannerId, id: SessionId, move: Move)
    requires IsBehaviour(systems) && i < |systems| && CanMove(move, systems[i])
    requires !ScannerOf(systems[i], scanner).Outside? && ScannerOf(systems[i], scanner).remove
    requires SessionOf(systems[i], id).owner.Ended?
    requires move.ByAScanner? ==> move.scanner != scanner
    ensures SessionOf(AfterMove(move, systems[i]), id) == SessionOf(systems[i], id)
    ensures ScannerOf(AfterMove(move, systems[i]), scanner) == ScannerOf(systems[i], scanner)
  {
    BehaviourIsSound(systems, i);
    assert ScannerSound(systems[i], scanner);
    assert SessionSound(systems[i], id);
    if move.ByAScanner? {
      assert ScannerOf(systems[i], move.scanner).Outside?;
    }
  }
}
