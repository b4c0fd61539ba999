/**
 * The singleton lock file: ownership is the identity of the file behind a lease's descriptor with the file at the
 * path, and the metadata lives in two alternating slots.
 */
module SingletonLock {
  import opened Prelude

  const SLOT_COUNT := 2

  /** The fields a process never changes, and the heartbeat time. */
  datatype Metadata = Metadata(kind: string, pid: int, startedAt: int, version: Option<string>, updatedAt: int)

  /** A slot that is being written reads as nothing. */
  datatype Slot = Torn | Full(metadata: Metadata)

  type Inode = nat

  datatype Lease = Lease(fd: Option<Inode>, released: bool, activeSlot: nat, current: Metadata)

  // ------------------------------------------------------------- ownership

  predicate StillOwnsPath(path: Option<Inode>, l: Lease) {
    l.fd.Some? && path == l.fd
  }

  /** A heartbeat of an owner writes the next slot of its own file; a lease that lost the path closes and ends. */
  function HeartbeatLease(path: Option<Inode>, l: Lease, now: int): Lease {
    if l.released || l.fd.None? then l
    else if !StillOwnsPath(path, l) then l.(fd := None, released := true)
    else l.(current := l.current.(updatedAt := now), activeSlot := (l.activeSlot + 1) % SLOT_COUNT)
  }

  function HeartbeatFiles(
      path: Option<Inode>, files: map<Inode, seq<Slot>>, l: Lease, now: int): map<Inode, seq<Slot>> {
    if l.released || !StillOwnsPath(path, l) || l.fd.value !in files then files
    else
      var slot := (l.activeSlot + 1) % SLOT_COUNT;
      var slots := files[l.fd.value];
      if slot < |slots| then files[l.fd.value := slots[slot := Full(l.current.(updatedAt := now))]] else files
  }

  function ReleasedLease(l: Lease): Lease {
    if l.released then l else l.(released := true, fd := None)
  }

  /** A release removes the path only if it still leads to the lease's own file. */
  function PathAfterRelease(path: Option<Inode>, l: Lease): Option<Inode> {
    if !l.released && StillOwnsPath(path, l) then None else path
  }

  class FileSystem {
    var path: Option<Inode>
    var files: map<Inode, seq<Slot>>

    constructor ()
      ensures path == None && files == map[]
    {
      path, files := None, map[];
    }
  }

  class LeaseHandle {
    var released: bool
    var ownedFd: Option<Inode>
    var activeSlot: nat
    var current: Metadata

    function View(): Lease
      reads this
    {
      Lease(ownedFd, released, activeSlot, current)
    }

    constructor (fd: Inode, metadata: Metadata)
      ensures View() == Lease(Some(fd), false, SLOT_COUNT - 1, metadata)
    {
      released, ownedFd, activeSlot, current := false, Some(fd), SLOT_COUNT - 1, metadata;
    }

    method Heartbeat(fs: FileSystem, now: int)
      requires fs as object != this
      modifies this, fs`files
      ensures View() == HeartbeatLease(fs.path, old(View()), now)
      ensures fs.files == HeartbeatFiles(fs.path, old(fs.files), old(View()), now)
    {
      if released || ownedFd == None { return; }
      if fs.path != ownedFd {
        ownedFd := None;
        released := true;
        return;
      }
      current := current.(updatedAt := now);
      var nextSlot := (activeSlot + 1) % SLOT_COUNT;
      var fd := ownedFd.value;
      if fd in fs.files && nextSlot < |fs.files[fd]| {
        fs.files := fs.files[fd := fs.files[fd][nextSlot := Full(current)]];
      }
      activeSlot := nextSlot;
    }

    method Release(fs: FileSystem)
      requires fs as object != this
      modifies this, fs`path
      ensures View() == ReleasedLease(old(View()))
      ensures fs.path == PathAfterRelease(old(fs.path), old(View()))
    {
      if released { return; }
      released := true;
      var ownsPath := ownedFd.Some? && fs.path == ownedFd;
      ownedFd := None;
      if ownsPath { fs.path := None; }
    }
  }

  // -------------------------------------------------- competing processes

  /**
   * An acquirer that found the lock stale next removes the path, then tries to create it. It keeps which file it judged
   * and what it read there, if anything.
   */
  datatype Takeover = MayRemove(judged: Option<nat>, seen: Option<Metadata>) | MayCreate

  /** A file a process created at the path and is still initialising. */
  datatype Opening = Opening(ino: Inode, birth: nat, metadata: Metadata)

  /**
   * Inodes are reused, so files are told apart by the number of their creation: `births` gives it for each inode,
   * `created` counts. `releasing` holds, for each release between its check and its removal, the file that was checked.
   */
  datatype World = World(
    path: Option<Inode>, files: map<Inode, seq<Slot>>, births: map<Inode, nat>, created: nat,
    leases: map<nat, Lease>, openings: map<nat, Opening>, takeovers: map<nat, Takeover>, releasing: map<nat, nat>)

  /**
   * Creation opens an empty file and writes its slots one by one; a slot that is only partly written reads like one not
   * begun. A release is one step, or a check and a removal with other steps in between.
   */
  datatype Step =
    | Open(process: nat, ino: Inode, metadata: Metadata)
    | OpenFails(process: nat)
    | WriteInitialSlot(process: nat)
    | Obtain(process: nat, lease: nat)
    | InitFails(process: nat)
    | JudgeStale(process: nat, now: int, staleMs: int, pidRunning: bool, probeActive: bool)
    | RemoveStale(process: nat)
    | HeartbeatOf(lease: nat, now: int)
    | ReleaseOf(lease: nat)
    | ReleaseCheck(lease: nat)
    | ReleaseRemove(lease: nat)
    | Die(lease: nat)
    | DieAcquiring(process: nat)

  const START := World(None, map[], map[], 0, map[], map[], map[], map[])

  predicate HeldOpen(w: World, ino: Inode) {
    || (exists l | l in w.leases :: w.leases[l].fd == Some(ino))
    || (exists p | p in w.openings :: w.openings[p].ino == ino)
  }

  function ReadAt(w: World): Option<Metadata> {
    if w.path.Some? && w.path.value in w.files then Latest(w.files[w.path.value]) else None
  }

  /** The file the path leads to. */
  function FileAt(w: World): Option<nat> {
    if w.path.Some? && w.path.value in w.births then Some(w.births[w.path.value]) else None
  }

  /** A fresh heartbeat by a running process, or an active probe, keeps an acquirer out. */
  predicate MayTakeOver(existing: Option<Metadata>, now: int, staleMs: int, pidRunning: bool, probeActive: bool) {
    && !(existing.Some? && now - existing.value.updatedAt < staleMs && existing.value.pid > 0 && pidRunning)
    && !probeActive
  }

  /** Exclusive creation succeeds only where nothing is; the new file's inode is held open by nobody. */
  predicate Enabled(w: World, s: Step) {
    match s
    case Open(process, ino, _) =>
      && w.path == None && !HeldOpen(w, ino) && process !in w.openings
      && (process in w.takeovers ==> w.takeovers[process].MayCreate?)
    case OpenFails(process) => w.path.Some? && process in w.takeovers && w.takeovers[process].MayCreate?
    case WriteInitialSlot(process) =>
      process in w.openings && w.openings[process].ino in w.files && |w.files[w.openings[process].ino]| < SLOT_COUNT
    case Obtain(process, lease) =>
      && process in w.openings && w.openings[process].ino in w.files && |w.files[w.openings[process].ino]| == SLOT_COUNT
      && lease !in w.leases && lease !in w.releasing
    case InitFails(process) => process in w.openings
    case JudgeStale(process, now, staleMs, pidRunning, probeActive) =>
      && process !in w.openings && process !in w.takeovers
      && MayTakeOver(ReadAt(w), now, staleMs, pidRunning, probeActive)
    case RemoveStale(process) => process in w.takeovers && w.takeovers[process].MayRemove?
    case HeartbeatOf(lease, _) => lease in w.leases
    case ReleaseOf(lease) => lease in w.leases
    case ReleaseCheck(lease) => lease in w.leases
    case ReleaseRemove(lease) => lease in w.releasing
    case Die(lease) => lease in w.leases
    case DieAcquiring(process) => process in w.openings || process in w.takeovers
  }

  /** A failed initialisation removes whatever the path leads to, as a takeover does. */
  function Next(w: World, s: Step): World
    requires Enabled(w, s)
  {
    match s
    case Open(process, ino, metadata) =>
      var birth := w.created + 1;
      w.(path := Some(ino), files := w.files[ino := []], births := w.births[ino := birth], created := birth,
      openings := w.openings[process := Opening(ino, birth, metadata)], takeovers := w.takeovers - {process})
    case OpenFails(process) => w.(takeovers := w.takeovers - {process})
    case WriteInitialSlot(process) =>
      var o := w.openings[process];
      w.(files := w.files[o.ino := w.files[o.ino] + [Full(o.metadata)]])
    case Obtain(process, lease) =>
      var o := w.openings[process];
      w.(openings := w.openings - {process},
          leases := w.leases[lease := Lease(Some(o.ino), false, SLOT_COUNT - 1, o.metadata)])
    case InitFails(process) => w.(path := None, openings := w.openings - {process})
    case JudgeStale(process, _, _, _, _) => w.(takeovers := w.takeovers[process := MayRemove(FileAt(w), ReadAt(w))])
    case RemoveStale(process) => w.(path := None, takeovers := w.takeovers[process := MayCreate])
    case HeartbeatOf(lease, now) =>
      var l := w.leases[lease];
      w.(files := HeartbeatFiles(w.path, w.files, l, now), leases := w.leases[lease := HeartbeatLease(w.path, l, now)])
    case ReleaseOf(lease) =>
      var l := w.leases[lease];
      w.(path := PathAfterRelease(w.path, l), leases := w.leases[lease := ReleasedLease(l)])
    case ReleaseCheck(lease) =>
      var l := w.leases[lease];
      w.(leases := w.leases[lease := ReleasedLease(l)],
      releasing :=
        if !l.released && StillOwnsPath(w.path, l) && FileAt(w).Some? then w.releasing[lease := FileAt(w).value]
        else w.releasing)
    case ReleaseRemove(lease) => w.(path := None, releasing := w.releasing - {lease})
    case Die(lease) =>
      w.(leases := w.leases[lease := w.leases[lease].(fd := None, released := true)],
          releasing := w.releasing - {lease})
    case DieAcquiring(process) => w.(openings := w.openings - {process}, takeovers := w.takeovers - {process})
  }

  ghost predicate IsRun(worlds: seq<World>, steps: seq<Step>) {
    && |worlds| == |steps| + 1
    && worlds[0] == START
    && (forall i :: 0 <= i < |steps| ==> Enabled(worlds[i], steps[i]) && worlds[i + 1] == Next(worlds[i], steps[i]))
  }

  /** No file is held open twice. */
  ghost predicate DistinctFiles(w: World) {
    && (forall a, b :: a in w.leases && b in w.leases && a != b && w.leases[a].fd.Some?
          ==> w.leases[a].fd != w.leases[b].fd)
    && (forall p, q :: p in w.openings && q in w.openings && p != q ==> w.openings[p].ino != w.openings[q].ino)
    && (forall a, p :: a in w.leases && p in w.openings ==> w.leases[a].fd != Some(w.openings[p].ino))
  }

  /** The path leads to the file created last, if anywhere. */
  ghost predicate PathIsNewest(w: World) {
    w.path.Some? ==> w.path.value in w.files && FileAt(w) == Some(w.created)
  }

  /** A lease's file has all its slots; a file being initialised has those written so far. */
  ghost predicate SlotsWritten(w: World) {
    && (forall a :: a in w.leases && w.leases[a].fd.Some? ==>
          w.leases[a].fd.value in w.files && |w.files[w.leases[a].fd.value]| == SLOT_COUNT)
    && (forall ino, k :: ino in w.files && 0 <= k < |w.files[ino]| ==> w.files[ino][k].Full?)
  }

  ghost predicate WorldInv(w: World) {
    DistinctFiles(w) && PathIsNewest(w) && SlotsWritten(w)
  }

  /** Nothing is held open that was not before. */
  ghost predicate OpensNothing(w: World, w': World) {
    && (forall l :: l in w'.leases && w'.leases[l].fd.Some? ==> l in w.leases && w'.leases[l].fd == w.leases[l].fd)
    && (forall p :: p in w'.openings ==> p in w.openings && w'.openings[p] == w.openings[p])
  }

  lemma OthersOpenNothing(w: World, s: Step)
    requires Enabled(w, s) && !s.Open? && !s.Obtain?
    ensures OpensNothing(w, Next(w, s))
  {
    hide ReadAt, FileAt, MayTakeOver, HeartbeatFiles, PathAfterRelease;
  }

  lemma OpensNothingKeepsInv(w: World, w': World)
    requires OpensNothing(w, w')
    ensures DistinctFiles(w) ==> DistinctFiles(w')
    ensures SlotsWritten(w) && w'.files == w.files ==> SlotsWritten(w')
  {
  }

  lemma OpeningKeepsInv(w: World, s: Step)
    requires Enabled(w, s) && (s.Open? || s.Obtain?) && DistinctFiles(w)
    ensures DistinctFiles(Next(w, s))
    ensures SlotsWritten(w) ==> SlotsWritten(Next(w, s))
  {
  }

  lemma StepKeepsDistinctFiles(w: World, s: Step)
    requires DistinctFiles(w) && Enabled(w, s)
    ensures DistinctFiles(Next(w, s))
  {
    hide Enabled, Next, DistinctFiles, OpensNothing;
    if s.Open? || s.Obtain? {
      OpeningKeepsInv(w, s);
    } else {
      OthersOpenNothing(w, s);
      OpensNothingKeepsInv(w, Next(w, s));
    }
  }

  lemma StepKeepsPathNewest(w: World, s: Step)
    requires PathIsNewest(w) && Enabled(w, s)
    ensures PathIsNewest(Next(w, s))
  {
  }

  lemma StepKeepsSlots(w: World, s: Step)
    requires SlotsWritten(w) && DistinctFiles(w) && Enabled(w, s)
    ensures SlotsWritten(Next(w, s))
  {
    hide Enabled, Next, SlotsWritten, DistinctFiles, OpensNothing;
    match s
    case Open(_, _, _) => OpeningKeepsInv(w, s);
    case Obtain(_, _) => OpeningKeepsInv(w, s);
    case WriteInitialSlot(process) => InitialWriteKeepsSlots(w, process);
    case HeartbeatOf(lease, now) => HeartbeatKeepsSlots(w, lease, now);
    case _ =>
      OthersOpenNothing(w, s);
      OthersKeepFiles(w, s);
      OpensNothingKeepsInv(w, Next(w, s));
  }

  lemma OthersKeepFiles(w: World, s: Step)
    requires Enabled(w, s) && !s.Open? && !s.WriteInitialSlot? && !s.HeartbeatOf?
    ensures Next(w, s).files == w.files
  {
  }

  lemma InitialWriteKeepsSlots(w: World, process: nat)
    requires SlotsWritten(w) && DistinctFiles(w) && Enabled(w, WriteInitialSlot(process))
    ensures SlotsWritten(Next(w, WriteInitialSlot(process)))
  {
  }

  lemma HeartbeatKeepsSlots(w: World, lease: nat, now: int)
    requires SlotsWritten(w) && Enabled(w, HeartbeatOf(lease, now))
    ensures SlotsWritten(Next(w, HeartbeatOf(lease, now)))
  {
  }

  lemma {:induction false} RunKeepsInv(worlds: seq<World>, steps: seq<Step>, i: nat)
    requires IsRun(worlds, steps) && i <= |steps|
    ensures WorldInv(worlds[i])
  {
    hide DistinctFiles, PathIsNewest, SlotsWritten, Enabled, Next;
    if i > 0 {
      var k := i - 1;
      RunKeepsInv(worlds, steps, k);
      assert Enabled(worlds[k], steps[k]) && worlds[k + 1] == Next(worlds[k], steps[k]);
      StepKeepsDistinctFiles(worlds[k], steps[k]);
      StepKeepsPathNewest(worlds[k], steps[k]);
      StepKeepsSlots(worlds[k], steps[k]);
    } else {
      StartInv();
    }
  }

  lemma StartInv()
    ensures WorldInv(START)
  {
  }

  predicate Owns(w: World, lease: nat) {
    lease in w.leases && StillOwnsPath(w.path, w.leases[lease])
  }

  /** At most one lease at a time owns the path, however many processes compete. */
  lemma AtMostOneOwner(worlds: seq<World>, steps: seq<Step>, i: nat, a: nat, b: nat)
    requires IsRun(worlds, steps) && i <= |steps|
    requires Owns(worlds[i], a) && Owns(worlds[i], b)
    ensures a == b
  {
    RunKeepsInv(worlds, steps, i);
  }

  lemma LoserStaysLoser(w: World, s: Step, lease: nat)
    requires DistinctFiles(w) && Enabled(w, s) && lease in w.leases && !Owns(w, lease)
    ensures lease in Next(w, s).leases && !Owns(Next(w, s), lease)
  {
    hide ReadAt, FileAt, MayTakeOver, HeartbeatFiles;
  }

  /** A lease that lost the path never gets it back. */
  lemma {:induction false} LostForever(worlds: seq<World>, steps: seq<Step>, i: nat, j: nat, lease: nat)
    requires IsRun(worlds, steps) && i <= j <= |steps|
    requires lease in worlds[i].leases && !Owns(worlds[i], lease)
    ensures lease in worlds[j].leases && !Owns(worlds[j], lease)
    decreases j - i
  {
    hide Enabled, Next, DistinctFiles, PathIsNewest, SlotsWritten, Owns;
    if i < j {
      var k := j - 1;
      LostForever(worlds, steps, i, k, lease);
      RunKeepsInv(worlds, steps, k);
      assert Enabled(worlds[k], steps[k]) && worlds[k + 1] == Next(worlds[k], steps[k]);
      LoserStaysLoser(worlds[k], steps[k], lease);
    }
  }

  /** A loser's heartbeat or release leaves the path alone, and every file at it: only its own lease ends. */
  lemma LoserDoesNoHarm(worlds: seq<World>, steps: seq<Step>, i: nat, lease: nat)
    requires IsRun(worlds, steps) && i < |steps| && !Owns(worlds[i], lease)
    requires steps[i].ReleaseOf? || steps[i].ReleaseCheck? || steps[i].HeartbeatOf?
    requires steps[i].lease == lease
    ensures worlds[i + 1].path == worlds[i].path && worlds[i + 1].files == worlds[i].files
    ensures worlds[i + 1].releasing == worlds[i].releasing
    ensures forall other :: other != lease && Owns(worlds[i], other) ==> Owns(worlds[i + 1], other)
  {
    assert Enabled(worlds[i], steps[i]);
  }

  /** A creation leads the path to its new, still unreadable file, which the creator keeps open. */
  lemma CreationLeadsHere(worlds: seq<World>, steps: seq<Step>, i: nat)
    requires IsRun(worlds, steps) && i < |steps| && steps[i].Open?
    ensures var s, w' := steps[i], worlds[i + 1];
            && worlds[i].path.None? && w'.path == Some(s.ino) && ReadAt(w').None?
            && s.process in w'.openings && w'.openings[s.process].ino == s.ino
            && w'.openings[s.process].metadata == s.metadata
            && FileAt(w') == Some(w'.openings[s.process].birth) && s.process !in w'.takeovers
  {
    assert Enabled(worlds[i], steps[i]) && worlds[i + 1] == Next(worlds[i], steps[i]);
  }

  /** A new lease owns the path exactly when it still leads to the file its process created, and no lease owned it. */
  lemma ObtainedOwnsIff(worlds: seq<World>, steps: seq<Step>, i: nat)
    requires IsRun(worlds, steps) && i < |steps| && steps[i].Obtain?
    ensures var s := steps[i];
            && s.process in worlds[i].openings
            && (Owns(worlds[i + 1], s.lease) <==> worlds[i].path == Some(worlds[i].openings[s.process].ino))
            && (Owns(worlds[i + 1], s.lease) ==>
                  FileAt(worlds[i + 1]) == FileAt(worlds[i]) && forall l :: !Owns(worlds[i], l))
            && worlds[i + 1].leases[s.lease].current == worlds[i].openings[s.process].metadata
  {
    assert Enabled(worlds[i], steps[i]) && worlds[i + 1] == Next(worlds[i], steps[i]);
    RunKeepsInv(worlds, steps, i);
  }

  /** An owner's release frees the path; a loser ends with its next heartbeat; neither lease acts again. */
  lemma LeaseEnds(worlds: seq<World>, steps: seq<Step>, i: nat, lease: nat)
    requires IsRun(worlds, steps) && i < |steps| && lease in worlds[i].leases
    requires worlds[i].leases[lease].fd.Some? && !worlds[i].leases[lease].released
    requires steps[i].ReleaseOf? || (steps[i].HeartbeatOf? && !Owns(worlds[i], lease))
    requires steps[i].lease == lease
    ensures Owns(worlds[i], lease) ==> worlds[i + 1].path.None?
    ensures var l := worlds[i + 1].leases[lease];
            l.released && l.fd.None?
    ensures !Owns(worlds[i + 1], lease)
  {
    assert Enabled(worlds[i], steps[i]) && worlds[i + 1] == Next(worlds[i], steps[i]);
  }

  /** What can take the path from an owner: its own end, or a removal that does not look at what it removes. */
  lemma PathLossHasACause(worlds: seq<World>, steps: seq<Step>, i: nat, owner: nat)
    requires IsRun(worlds, steps) && i < |steps|
    requires Owns(worlds[i], owner) && !Owns(worlds[i + 1], owner)
    ensures var s := steps[i];
            || s.RemoveStale? || s.InitFails? || s.ReleaseRemove?
            || ((s.ReleaseOf? || s.ReleaseCheck? || s.Die?) && s.lease == owner)
  {
    RunKeepsInv(worlds, steps, i);
    assert Enabled(worlds[i], steps[i]);
  }

  // -------------------------------------------- what a removal takes away

  /** Some file was created by the steps from i on, before j. */
  ghost predicate OpenedBetween(steps: seq<Step>, i: nat, j: nat)
    requires j <= |steps|
  {
    exists k :: i <= k < j && steps[k].Open?
  }

  lemma OpenedSnoc(steps: seq<Step>, i: nat, k: nat)
    requires i <= k < |steps|
    ensures OpenedBetween(steps, i, k + 1) <==> OpenedBetween(steps, i, k) || steps[k].Open?
  {
  }

  lemma OpenCounts(w: World, s: Step)
    requires Enabled(w, s)
    ensures Next(w, s).created == w.created + (if s.Open? then 1 else 0)
    ensures !s.Open? ==> Next(w, s).path == None || Next(w, s).path == w.path
    ensures s.Open? ==> w.path == None
  {
  }

  lemma {:induction false} CreationsCounted(worlds: seq<World>, steps: seq<Step>, i: nat, j: nat)
    requires IsRun(worlds, steps) && i <= j <= |steps|
    ensures worlds[j].created >= worlds[i].created
    ensures worlds[j].created > worlds[i].created <==> OpenedBetween(steps, i, j)
    ensures !OpenedBetween(steps, i, j) ==> worlds[j].path == None || worlds[j].path == worlds[i].path
    decreases j - i
  {
    if i < j {
      hide Enabled, Next, OpenedBetween;
      var k := j - 1;
      assert Enabled(worlds[k], steps[k]) && worlds[k + 1] == Next(worlds[k], steps[k]);
      CreationsCounted(worlds, steps, i, k);
      OpenedSnoc(steps, i, k);
      OpenCounts(worlds[k], steps[k]);
    }
  }

  /**
   * Between two moments the path comes to lead to another file exactly when a file was created in between, which takes
   * that the path was empty then.
   */
  lemma PathChangedIffRecreated(worlds: seq<World>, steps: seq<Step>, i: nat, j: nat)
    requires IsRun(worlds, steps) && i <= j <= |steps|
    ensures worlds[j].path.Some? ==> (FileAt(worlds[j]) != FileAt(worlds[i]) <==> OpenedBetween(steps, i, j))
    ensures OpenedBetween(steps, i, j) ==> exists k :: i <= k < j && worlds[k].path == None
  {
    RunKeepsInv(worlds, steps, i);
    RunKeepsInv(worlds, steps, j);
    CreationsCounted(worlds, steps, i, j);
    if OpenedBetween(steps, i, j) {
      var k :| i <= k < j && steps[k].Open?;
      assert Enabled(worlds[k], steps[k]);
      OpenCounts(worlds[k], steps[k]);
    }
  }

  /**
   * The removal would take away another lock than the process judged: another file, the same one with newer metadata,
   * or one that showed it nothing.
   */
  predicate TakesUnjudged(w: World, process: nat) {
    && w.path.Some? && process in w.takeovers && w.takeovers[process].MayRemove?
    && !(w.takeovers[process].judged == FileAt(w) && w.takeovers[process].seen == ReadAt(w)
         && w.takeovers[process].seen.Some?)
  }

  /** No process's clock goes back between its heartbeats. */
  ghost predicate ForwardClock(worlds: seq<World>, steps: seq<Step>)
    requires |worlds| == |steps| + 1
  {
    forall k :: 0 <= k < |steps| ==> ClockForward(worlds[k], steps[k])
  }

  predicate ClockForward(w: World, s: Step) {
    s.HeartbeatOf? && s.lease in w.leases ==> s.now >= w.leases[s.lease].current.updatedAt
  }

  /** The owner of the path renews its metadata with a later time. */
  predicate Renews(w: World, s: Step) {
    s.HeartbeatOf? && Owns(w, s.lease) && s.now > w.leases[s.lease].current.updatedAt
  }

  ghost predicate RenewedBetween(worlds: seq<World>, steps: seq<Step>, i: nat, j: nat)
    requires |worlds| == |steps| + 1 && j <= |steps|
  {
    exists k :: i <= k < j && Renews(worlds[k], steps[k])
  }

  /** A lease's metadata is in its active slot and the other slot holds no newer one. */
  ghost predicate ShowsCurrent(slots: seq<Slot>, l: Lease) {
    && |slots| == SLOT_COUNT && l.activeSlot < SLOT_COUNT && slots[l.activeSlot] == Full(l.current)
    && slots[1 - l.activeSlot].Full?
    && slots[1 - l.activeSlot].metadata.updatedAt <= l.current.updatedAt
    && slots[1 - l.activeSlot].metadata.(updatedAt := l.current.updatedAt) == l.current
  }

  ghost predicate LeasesShown(w: World) {
    && (forall l :: l in w.leases && w.leases[l].released ==> w.leases[l].fd == None)
    && (forall l :: l in w.leases && w.leases[l].fd.Some? ==>
          w.leases[l].fd.value in w.files && ShowsCurrent(w.files[w.leases[l].fd.value], w.leases[l]))
    && (forall p :: p in w.openings ==>
          w.openings[p].ino in w.files
          && forall k :: 0 <= k < |w.files[w.openings[p].ino]|
               ==> w.files[w.openings[p].ino][k] == Full(w.openings[p].metadata))
  }

  /** No lease and no opening is new or changed. */
  ghost predicate NothingRenewed(w: World, w': World) {
    && (forall l :: l in w'.leases
          ==> l in w.leases && (w'.leases[l] == w.leases[l] || (w'.leases[l].released && w'.leases[l].fd == None)))
    && (forall p :: p in w'.openings ==> p in w.openings && w'.openings[p] == w.openings[p])
    && w'.files == w.files
  }

  lemma NothingRenewedKeepsShown(w: World, w': World)
    requires LeasesShown(w) && NothingRenewed(w, w')
    ensures LeasesShown(w')
  {
    hide ShowsCurrent;
  }

  lemma OthersRenewNothing(w: World, s: Step)
    requires Enabled(w, s) && !s.Open? && !s.Obtain? && !s.WriteInitialSlot? && !s.HeartbeatOf?
    ensures NothingRenewed(w, Next(w, s))
  {
    hide ReadAt, FileAt, MayTakeOver, PathAfterRelease;
  }

  lemma OpenKeepsShown(w: World, s: Step)
    requires LeasesShown(w) && Enabled(w, s) && s.Open?
    ensures LeasesShown(Next(w, s))
  {
    hide ShowsCurrent;
  }

  lemma ObtainKeepsShown(w: World, s: Step)
    requires LeasesShown(w) && Enabled(w, s) && s.Obtain?
    ensures LeasesShown(Next(w, s))
  {
  }

  lemma InitialWriteKeepsShown(w: World, s: Step)
    requires LeasesShown(w) && DistinctFiles(w) && Enabled(w, s) && s.WriteInitialSlot?
    ensures LeasesShown(Next(w, s))
  {
    hide ShowsCurrent;
  }

  lemma HeartbeatShows(slots: seq<Slot>, l: Lease, now: int)
    requires ShowsCurrent(slots, l) && now >= l.current.updatedAt
    ensures var slot := (l.activeSlot + 1) % SLOT_COUNT;
            var m := l.current.(updatedAt := now);
            ShowsCurrent(slots[slot := Full(m)], l.(current := m, activeSlot := slot))
  {
  }

  /** What a heartbeat does to its own lease and file. */
  lemma HeartbeatShowsOwn(w: World, s: Step)
    requires LeasesShown(w) && Enabled(w, s) && s.HeartbeatOf? && ClockForward(w, s)
    ensures var w' := Next(w, s);
            var l := w'.leases[s.lease];
            && (l.released ==> l.fd == None)
            && (l.fd.Some? ==>
                  && l.fd == w.leases[s.lease].fd && l.fd.value in w'.files
                  && ShowsCurrent(w'.files[l.fd.value], l))
            && (forall x :: x in w.files && Some(x) != w.leases[s.lease].fd
                  ==> x in w'.files && w'.files[x] == w.files[x])
  {
    var l := w.leases[s.lease];
    if !l.released && StillOwnsPath(w.path, l) { HeartbeatShows(w.files[l.fd.value], l, s.now); }
  }

  lemma HeartbeatKeepsShown(w: World, s: Step)
    requires LeasesShown(w) && DistinctFiles(w) && Enabled(w, s) && s.HeartbeatOf? && ClockForward(w, s)
    ensures LeasesShown(Next(w, s))
  {
    hide ShowsCurrent, HeartbeatFiles, HeartbeatLease;
    HeartbeatShowsOwn(w, s);
  }

  lemma StepKeepsShown(w: World, s: Step)
    requires LeasesShown(w) && DistinctFiles(w) && Enabled(w, s) && ClockForward(w, s)
    ensures LeasesShown(Next(w, s))
  {
    hide LeasesShown, DistinctFiles, Enabled, Next, NothingRenewed;
    match s
    case Open(_, _, _) => OpenKeepsShown(w, s);
    case Obtain(_, _) => ObtainKeepsShown(w, s);
    case WriteInitialSlot(_) => InitialWriteKeepsShown(w, s);
    case HeartbeatOf(_, _) => HeartbeatKeepsShown(w, s);
    case _ =>
      OthersRenewNothing(w, s);
      NothingRenewedKeepsShown(w, Next(w, s));
  }

  lemma {:induction false} RunKeepsShown(worlds: seq<World>, steps: seq<Step>, i: nat)
    requires IsRun(worlds, steps) && ForwardClock(worlds, steps) && i <= |steps|
    ensures LeasesShown(worlds[i])
  {
    hide WorldInv, Enabled, Next, ClockForward;
    if i > 0 {
      hide LeasesShown;
      var k := i - 1;
      RunKeepsShown(worlds, steps, k);
      RunKeepsInv(worlds, steps, k);
      assert Enabled(worlds[k], steps[k]) && worlds[k + 1] == Next(worlds[k], steps[k])
          && ClockForward(worlds[k], steps[k]);
      assert DistinctFiles(worlds[k]) by { InvIsDistinct(worlds[k]); }
      StepKeepsShown(worlds[k], steps[k]);
    }
  }

  lemma InvIsDistinct(w: World)
    requires WorldInv(w)
    ensures DistinctFiles(w)
  {
  }

  lemma ShownIsRead(slots: seq<Slot>, l: Lease)
    requires ShowsCurrent(slots, l)
    ensures Latest(slots) == Some(l.current)
  {
    LatestOfTwo(slots);
  }

  /** What is read at a path that stays is changed by nothing but its owner's renewal, and then to something newer. */
  lemma ReadingStep(w: World, s: Step)
    requires LeasesShown(w) && DistinctFiles(w) && Enabled(w, s) && ClockForward(w, s)
    requires !s.Open? && w.path.Some? && Next(w, s).path == w.path && ReadAt(w).Some?
    ensures ReadAt(Next(w, s)).Some?
    ensures if Renews(w, s) then ReadAt(Next(w, s)).value.updatedAt > ReadAt(w).value.updatedAt
        else ReadAt(Next(w, s)) == ReadAt(w)
  {
    hide Latest;
    if s.HeartbeatOf? {
      HeartbeatReading(w, s);
    } else if s.WriteInitialSlot? {
      InitialWriteReading(w, s);
    } else {
      OthersKeepFiles(w, s);
    }
  }

  lemma HeartbeatReading(w: World, s: Step)
    requires LeasesShown(w) && Enabled(w, s) && ClockForward(w, s) && s.HeartbeatOf? && w.path.Some? && ReadAt(w).Some?
    ensures ReadAt(Next(w, s)).Some?
    ensures if Renews(w, s) then ReadAt(Next(w, s)).value.updatedAt > ReadAt(w).value.updatedAt
        else ReadAt(Next(w, s)) == ReadAt(w)
  {
    hide Latest;
    var l := w.leases[s.lease];
    if StillOwnsPath(w.path, l) {
      var slots := w.files[l.fd.value];
      var slot := (l.activeSlot + 1) % SLOT_COUNT;
      var m := l.current.(updatedAt := s.now);
      HeartbeatShows(slots, l, s.now);
      ShownIsRead(slots, l);
      ShownIsRead(slots[slot := Full(m)], l.(current := m, activeSlot := slot));
    }
  }

  lemma InitialWriteReading(w: World, s: Step)
    requires LeasesShown(w) && Enabled(w, s) && s.WriteInitialSlot? && w.path.Some? && ReadAt(w).Some?
    ensures ReadAt(Next(w, s)) == ReadAt(w)
  {
    var o := w.openings[s.process];
    if w.path == Some(o.ino) {
      var slots := w.files[o.ino];
      assert slots == [Full(o.metadata)];
      assert slots + [Full(o.metadata)] == [Full(o.metadata), Full(o.metadata)];
      LatestOfFew(slots);
      LatestOfTwo(slots + [Full(o.metadata)]);
    }
  }

  /**
   * Over a stretch in which no file is created, the reading at a path that is still there changes exactly when renewed.
   */
  lemma {:induction false} ReadingChangedIffRenewed(worlds: seq<World>, steps: seq<Step>, i: nat, j: nat)
    requires IsRun(worlds, steps) && ForwardClock(worlds, steps) && i <= j <= |steps| && !OpenedBetween(steps, i, j)
    requires worlds[j].path.Some? && ReadAt(worlds[i]).Some?
    ensures worlds[i].path == worlds[j].path
    ensures ReadAt(worlds[j]).Some? && ReadAt(worlds[j]).value.updatedAt >= ReadAt(worlds[i]).value.updatedAt
    ensures ReadAt(worlds[j]) != ReadAt(worlds[i]) <==> RenewedBetween(worlds, steps, i, j)
    ensures RenewedBetween(worlds, steps, i, j)
        ==> ReadAt(worlds[j]).value.updatedAt > ReadAt(worlds[i]).value.updatedAt
    decreases j - i
  {
    hide Enabled, Next, ReadAt, LeasesShown, WorldInv, Renews, ClockForward, OpenedBetween, RenewedBetween;
    if i < j {
      var k := j - 1;
      assert Enabled(worlds[k], steps[k]) && worlds[k + 1] == Next(worlds[k], steps[k])
          && ClockForward(worlds[k], steps[k]);
      OpenedSnoc(steps, i, k);
      OpenCounts(worlds[k], steps[k]);
      ReadingChangedIffRenewed(worlds, steps, i, k);
      RunKeepsShown(worlds, steps, k);
      RunKeepsInv(worlds, steps, k);
      InvIsDistinct(worlds[k]);
      ReadingStep(worlds[k], steps[k]);
      RenewedSnoc(worlds, steps, i, k);
    } else {
      NothingRenewedYet(worlds, steps, i);
    }
  }

  lemma RenewedSnoc(worlds: seq<World>, steps: seq<Step>, i: nat, k: nat)
    requires |worlds| == |steps| + 1 && i <= k < |steps|
    ensures RenewedBetween(worlds, steps, i, k + 1)
        <==> RenewedBetween(worlds, steps, i, k) || Renews(worlds[k], steps[k])
  {
    hide Renews;
  }

  lemma NothingRenewedYet(worlds: seq<World>, steps: seq<Step>, i: nat)
    requires |worlds| == |steps| + 1 && i <= |steps|
    ensures !RenewedBetween(worlds, steps, i, i)
  {
  }

  /** Between a process's judgement and its removal it keeps what it judged. */
  lemma {:induction false} JudgementKept(worlds: seq<World>, steps: seq<Step>, i: nat, j: nat, process: nat)
    requires IsRun(worlds, steps) && i < j <= |steps|
    requires steps[i].JudgeStale? && steps[i].process == process
    requires forall k :: i < k < j ==> !(steps[k].JudgeStale? && steps[k].process == process)
    requires process in worlds[j].takeovers && worlds[j].takeovers[process].MayRemove?
    ensures worlds[j].takeovers[process] == MayRemove(FileAt(worlds[i]), ReadAt(worlds[i]))
    decreases j - i
  {
    var k := j - 1;
    assert Enabled(worlds[k], steps[k]) && worlds[k + 1] == Next(worlds[k], steps[k]);
    if i < k { JudgementKept(worlds, steps, i, k, process); }
  }

  /**
   * A takeover removes another lock than it judged exactly when the path leads somewhere and, since its judgement, a
   * file was created or the owner renewed its metadata, or when it judged a file none of whose slots was written yet.
   */
  lemma RemovalTakesUnjudgedIff(worlds: seq<World>, steps: seq<Step>, i: nat, j: nat, process: nat)
    requires IsRun(worlds, steps) && ForwardClock(worlds, steps) && i < j < |steps|
    requires steps[i].JudgeStale? && steps[i].process == process && steps[j] == RemoveStale(process)
    requires forall k :: i < k < j ==> !(steps[k].JudgeStale? && steps[k].process == process)
    ensures TakesUnjudged(worlds[j], process)
            <==> && worlds[j].path.Some?
                 && (OpenedBetween(steps, i, j) || ReadAt(worlds[i]).None? || RenewedBetween(worlds, steps, i, j))
  {
    assert Enabled(worlds[j], steps[j]);
    JudgementKept(worlds, steps, i, j, process);
    PathChangedIffRecreated(worlds, steps, i, j);
    if worlds[j].path.Some? && !OpenedBetween(steps, i, j) && ReadAt(worlds[i]).Some? {
      ReadingChangedIffRenewed(worlds, steps, i, j);
    }
  }

  /** Whoever reads an owned lock reads what its owner wrote last. */
  lemma OwnerIsRead(worlds: seq<World>, steps: seq<Step>, i: nat, lease: nat)
    requires IsRun(worlds, steps) && ForwardClock(worlds, steps) && i <= |steps| && Owns(worlds[i], lease)
    ensures ReadAt(worlds[i]) == Some(worlds[i].leases[lease].current)
  {
    hide Latest;
    RunKeepsShown(worlds, steps, i);
    var l := worlds[i].leases[lease];
    ShownIsRead(worlds[i].files[l.fd.value], l);
  }

  /**
   * A lock that has an owner can be judged stale exactly when no probe finds it active and its last heartbeat is old
   * or its process does not run. A fresh lock of a running process is safe.
   */
  lemma OwnedLockJudgedStaleIff(worlds: seq<World>, steps: seq<Step>, i: nat, lease: nat, s: Step)
    requires IsRun(worlds, steps) && ForwardClock(worlds, steps) && i <= |steps| && Owns(worlds[i], lease)
    requires s.JudgeStale? && !Acquiring(worlds[i], s.process)
    ensures var m := worlds[i].leases[lease].current;
            Enabled(worlds[i], s)
            <==> !s.probeActive && (s.now - m.updatedAt >= s.staleMs || m.pid <= 0 || !s.pidRunning)
  {
    OwnerIsRead(worlds, steps, i, lease);
  }

  /** In every run, a takeover begins only after an old or missing reading, or one of a process that does not run. */
  lemma TakeoverBeginsOnlyIfStale(worlds: seq<World>, steps: seq<Step>, i: nat)
    requires IsRun(worlds, steps) && i < |steps| && steps[i].JudgeStale?
    ensures var s, seen := steps[i], ReadAt(worlds[i]);
            && !s.probeActive
            && (seen.Some? ==>
                  s.now - seen.value.updatedAt >= s.staleMs || seen.value.pid <= 0 || !s.pidRunning)
  {
    assert Enabled(worlds[i], steps[i]);
  }

  /** An owner's heartbeat leaves it the owner, read with the heartbeat's time. */
  lemma HeartbeatIsRead(worlds: seq<World>, steps: seq<Step>, i: nat, lease: nat)
    requires IsRun(worlds, steps) && ForwardClock(worlds, steps) && i < |steps|
    requires steps[i].HeartbeatOf? && steps[i].lease == lease && Owns(worlds[i], lease)
    ensures Owns(worlds[i + 1], lease)
    ensures ReadAt(worlds[i + 1]) == Some(worlds[i].leases[lease].current.(updatedAt := steps[i].now))
  {
    RunKeepsShown(worlds, steps, i);
    assert worlds[i + 1] == Next(worlds[i], steps[i]) && Enabled(worlds[i], steps[i]);
    OwnerIsRead(worlds, steps, i + 1, lease);
  }

  /** A file reads as nothing exactly until its first slot is written, and no lease owns it then. */
  lemma UnreadableIffUnwritten(worlds: seq<World>, steps: seq<Step>, i: nat)
    requires IsRun(worlds, steps) && i <= |steps| && worlds[i].path.Some?
    ensures worlds[i].path.value in worlds[i].files
    ensures ReadAt(worlds[i]).None? <==> worlds[i].files[worlds[i].path.value] == []
    ensures ReadAt(worlds[i]).None? ==> forall l :: !Owns(worlds[i], l)
  {
    RunKeepsInv(worlds, steps, i);
    FullSlotsAreReadable(worlds[i].files[worlds[i].path.value]);
  }

  lemma {:induction false} FullSlotsAreReadable(slots: seq<Slot>)
    requires forall k :: 0 <= k < |slots| ==> slots[k].Full?
    ensures Latest(slots).None? <==> slots == []
  {
    if slots != [] { FullSlotsAreReadable(slots[..|slots| - 1]); }
  }

  /** A process that is taking over or initialising a new file. */
  predicate Acquiring(w: World, process: nat) {
    process in w.takeovers || process in w.openings
  }

  /** No two processes are acquiring at once. */
  ghost predicate Serial(w: World) {
    forall p, q :: Acquiring(w, p) && Acquiring(w, q) ==> p == q
  }

  /** A file that never got a slot, and that nobody holds open to give it one. */
  predicate Abandoned(w: World, ino: Inode) {
    ino in w.files && w.files[ino] == [] && !HeldOpen(w, ino)
  }

  lemma AbandonedStays(w: World, s: Step, ino: Inode)
    requires Enabled(w, s) && Abandoned(w, ino) && !s.Open?
    ensures Abandoned(Next(w, s), ino)
  {
  }

  lemma {:induction false} AbandonedUntil(worlds: seq<World>, steps: seq<Step>, i: nat, j: nat, ino: Inode)
    requires IsRun(worlds, steps) && i <= j <= |steps| && !OpenedBetween(steps, i, j)
    requires Abandoned(worlds[i], ino)
    ensures Abandoned(worlds[j], ino)
    decreases j - i
  {
    hide Abandoned, Enabled, Next, OpenedBetween;
    if i < j {
      var k := j - 1;
      assert Enabled(worlds[k], steps[k]) && worlds[k + 1] == Next(worlds[k], steps[k]);
      OpenedSnoc(steps, i, k);
      AbandonedUntil(worlds, steps, i, k, ino);
      AbandonedStays(worlds[k], steps[k], ino);
    }
  }

  /** A process that may remove has judged since, and has been acquiring all the time. */
  lemma {:induction false} JudgedBefore(worlds: seq<World>, steps: seq<Step>, j: nat, process: nat) returns (i: nat)
    requires IsRun(worlds, steps) && j <= |steps|
    requires process in worlds[j].takeovers && worlds[j].takeovers[process].MayRemove?
    ensures i < j && steps[i].JudgeStale? && steps[i].process == process
    ensures forall k :: i < k <= j ==> process in worlds[k].takeovers && worlds[k].takeovers[process].MayRemove?
  {
    var k := j - 1;
    assert Enabled(worlds[k], steps[k]) && worlds[k + 1] == Next(worlds[k], steps[k]);
    if steps[k].JudgeStale? && steps[k].process == process {
      i := k;
    } else {
      i := JudgedBefore(worlds, steps, k, process);
    }
  }

  /**
   * If acquisitions do not overlap, a takeover removes another lock than it judged only if the owner renewed it since
   * the judgement at step i, or if its creator had abandoned it unwritten.
   */
  lemma SerialTakeoversAreSafe(worlds: seq<World>, steps: seq<Step>, j: nat, process: nat) returns (i: nat)
    requires IsRun(worlds, steps) && ForwardClock(worlds, steps) && j < |steps| && steps[j] == RemoveStale(process)
    requires forall k :: 0 <= k <= j ==> Serial(worlds[k])
    requires TakesUnjudged(worlds[j], process)
    ensures i < j && steps[i].JudgeStale? && steps[i].process == process
    ensures || RenewedBetween(worlds, steps, i, j)
            || (Abandoned(worlds[j], worlds[j].path.value) && forall l :: !Owns(worlds[j], l))
  {
    i := JudgedBefore(worlds, steps, j, process);
    forall k | i < k < j ensures !(steps[k].JudgeStale? && steps[k].process == process) && !steps[k].Open? {
      assert Enabled(worlds[k], steps[k]) && worlds[k + 1] == Next(worlds[k], steps[k]);
      if steps[k].Open? { assert Acquiring(worlds[k + 1], steps[k].process) && Acquiring(worlds[k + 1], process); }
    }
    RemovalTakesUnjudgedIff(worlds, steps, i, j, process);
    if !RenewedBetween(worlds, steps, i, j) { AbandonedSinceJudgement(worlds, steps, i, j, process); }
  }

  lemma AbandonedSinceJudgement(worlds: seq<World>, steps: seq<Step>, i: nat, j: nat, process: nat)
    requires IsRun(worlds, steps) && i < j < |steps| && steps[i].JudgeStale? && steps[i].process == process
    requires Serial(worlds[i + 1]) && !OpenedBetween(steps, i, j) && worlds[j].path.Some? && ReadAt(worlds[i]).None?
    ensures Abandoned(worlds[j], worlds[j].path.value) && forall l :: !Owns(worlds[j], l)
  {
    CreationsCounted(worlds, steps, i, j);
    assert worlds[i + 1] == Next(worlds[i], steps[i]) && Enabled(worlds[i], steps[i]);
    UnreadableIffUnwritten(worlds, steps, i);
    NothingHeldAtJudgement(worlds, steps, i, process);
    AbandonedUntil(worlds, steps, i, j, worlds[i].path.value);
  }

  lemma NothingHeldAtJudgement(worlds: seq<World>, steps: seq<Step>, i: nat, process: nat)
    requires IsRun(worlds, steps) && i < |steps| && steps[i].JudgeStale? && steps[i].process == process
    requires worlds[i].path.Some? && ReadAt(worlds[i]).None? && Serial(worlds[i + 1])
    ensures Abandoned(worlds[i], worlds[i].path.value)
  {
    var w := worlds[i];
    UnreadableIffUnwritten(worlds, steps, i);
    assert Enabled(w, steps[i]) && worlds[i + 1] == Next(w, steps[i]);
    forall p | p in w.openings ensures false {
      assert Acquiring(worlds[i + 1], p) && Acquiring(worlds[i + 1], process);
    }
    assert forall l :: l in w.leases && w.leases[l].fd == w.path ==> Owns(w, l);
  }

  /** The removal that ends a release in two calls would take away another file than the one it checked. */
  predicate ReleaseTakesAnother(w: World, lease: nat) {
    w.path.Some? && lease in w.releasing && FileAt(w) != Some(w.releasing[lease])
  }

  lemma ReleasedStep(w: World, s: Step, lease: nat)
    requires Enabled(w, s) && lease in w.leases && w.leases[lease].released
    ensures lease in Next(w, s).leases && Next(w, s).leases[lease].released
    ensures lease in Next(w, s).releasing ==> lease in w.releasing && Next(w, s).releasing[lease] == w.releasing[lease]
  {
  }

  /** What a release checked stays on record until it removes. */
  lemma {:induction false} CheckKept(worlds: seq<World>, steps: seq<Step>, i: nat, j: nat, lease: nat)
    requires IsRun(worlds, steps) && i < j <= |steps| && steps[i] == ReleaseCheck(lease)
    requires Owns(worlds[i], lease) && !worlds[i].leases[lease].released
    ensures lease in worlds[j].leases && worlds[j].leases[lease].released
    ensures lease in worlds[j].releasing ==> Some(worlds[j].releasing[lease]) == FileAt(worlds[i])
    decreases j - i
  {
    var k := j - 1;
    assert Enabled(worlds[k], steps[k]) && worlds[k + 1] == Next(worlds[k], steps[k]);
    if i < k {
      hide Enabled, Next;
      CheckKept(worlds, steps, i, k, lease);
      ReleasedStep(worlds[k], steps[k], lease);
    } else {
      RunKeepsInv(worlds, steps, i);
    }
  }

  /**
   * A release by an owner that is interrupted between its check and its removal takes another file away exactly when
   * the path was emptied and created again in between and is still there.
   */
  lemma SplitReleaseTakesAnotherIff(worlds: seq<World>, steps: seq<Step>, i: nat, j: nat, lease: nat)
    requires IsRun(worlds, steps) && i < j < |steps|
    requires steps[i] == ReleaseCheck(lease) && steps[j] == ReleaseRemove(lease)
    requires Owns(worlds[i], lease) && !worlds[i].leases[lease].released
    ensures ReleaseTakesAnother(worlds[j], lease) <==> worlds[j].path.Some? && OpenedBetween(steps, i, j)
    ensures OpenedBetween(steps, i, j) ==> exists k :: i < k < j && worlds[k].path == None
  {
    assert Enabled(worlds[j], steps[j]);
    CheckKept(worlds, steps, i, j, lease);
    PathChangedIffRecreated(worlds, steps, i, j);
  }

  lemma OpeningKept(w: World, s: Step, process: nat)
    requires Enabled(w, s) && process in w.openings && process in Next(w, s).openings
    ensures Next(w, s).openings[process] == w.openings[process]
  {
  }

  lemma {:induction false} OpeningKeptUntil(worlds: seq<World>, steps: seq<Step>, i: nat, j: nat, process: nat)
    requires IsRun(worlds, steps) && i <= j <= |steps|
    requires forall k :: i <= k <= j ==> process in worlds[k].openings
    ensures worlds[j].openings[process] == worlds[i].openings[process]
    decreases j - i
  {
    hide Enabled, Next;
    if i < j {
      var k := j - 1;
      assert Enabled(worlds[k], steps[k]) && worlds[k + 1] == Next(worlds[k], steps[k]);
      OpeningKeptUntil(worlds, steps, i, k, process);
      OpeningKept(worlds[k], steps[k], process);
    }
  }

  /** An initialisation that fails takes away another file than its own exactly when one was created since its own. */
  lemma FailedInitTakesAnotherIff(worlds: seq<World>, steps: seq<Step>, i: nat, j: nat, process: nat)
    requires IsRun(worlds, steps) && i < j < |steps|
    requires steps[i].Open? && steps[i].process == process && steps[j] == InitFails(process)
    requires forall k :: i < k <= j ==> process in worlds[k].openings
    ensures worlds[j].path.Some? && FileAt(worlds[j]) != Some(worlds[j].openings[process].birth)
            <==> worlds[j].path.Some? && OpenedBetween(steps, i + 1, j)
  {
    assert Enabled(worlds[i], steps[i]) && worlds[i + 1] == Next(worlds[i], steps[i]);
    OpeningKeptUntil(worlds, steps, i + 1, j, process);
    PathChangedIffRecreated(worlds, steps, i + 1, j);
  }

  // -------------------------------------------------- runs that lose a lock

  /** The world after these steps, if each of them can happen in turn. */
  function Execute(w: World, steps: seq<Step>): Option<World> {
    if steps == [] then Some(w)
    else
      var before := Execute(w, steps[..|steps| - 1]);
      if before.Some? && Enabled(before.value, steps[|steps| - 1]) then Some(Next(before.value, steps[|steps| - 1]))
          else None
  }

  /** What `Execute` accepts is a run. */
  lemma {:induction false} ExecutedIsRun(steps: seq<Step>) returns (worlds: seq<World>)
    requires Execute(START, steps).Some?
    ensures IsRun(worlds, steps) && worlds[|steps|] == Execute(START, steps).value
  {
    hide Enabled, Next;
    if steps == [] {
      worlds := [START];
    } else {
      var n := |steps| - 1;
      var front := ExecutedIsRun(steps[..n]);
      worlds := front + [Execute(START, steps).value];
      forall i | 0 <= i < |steps| ensures Enabled(worlds[i], steps[i]) && worlds[i + 1] == Next(worlds[i], steps[i]) {
        if i < n { assert steps[..n][i] == steps[i] && Enabled(front[i], steps[..n][i]); }
      }
    }
  }

  lemma Then(w: World, steps: seq<Step>, s: Step)
    requires Execute(w, steps).Some? && Enabled(Execute(w, steps).value, s)
    ensures Execute(w, steps + [s]) == Some(Next(Execute(w, steps).value, s))
  {
    hide Enabled, Next;
    assert (steps + [s])[..|steps|] == steps;
  }

  /** From an empty path a process gets the lock in four steps. */
  lemma Acquires(before: seq<Step>, process: nat, lease: nat, ino: Inode, m: Metadata) returns (steps: seq<Step>)
    requires Execute(START, before).Some?
    requires var w := Execute(START, before).value;
             && Enabled(w, Open(process, ino, m)) && lease !in w.leases && lease !in w.releasing
    ensures steps
        == before + [Open(process, ino, m), WriteInitialSlot(process), WriteInitialSlot(process),
            Obtain(process, lease)]
    ensures Execute(START, steps).Some?
    ensures var w, w' := Execute(START, before).value, Execute(START, steps).value;
            && w'.path == Some(ino) && w'.created == w.created + 1 && FileAt(w') == Some(w'.created)
            && w'.leases == w.leases[lease := Lease(Some(ino), false, SLOT_COUNT - 1, m)]
            && w'.openings == w.openings && w'.takeovers == w.takeovers - {process} && w'.releasing == w.releasing
            && ReadAt(w') == Some(m) && ino in w'.files && w'.files[ino] == [Full(m), Full(m)]
  {
    hide Latest, Execute;
    Then(START, before, Open(process, ino, m));
    var begun := before + [Open(process, ino, m)];
    steps := SlotsThenLease(begun, Execute(START, begun).value, process, lease);
    assert steps
        == before + [Open(process, ino, m), WriteInitialSlot(process), WriteInitialSlot(process),
            Obtain(process, lease)];
    LatestOfTwo([Full(m), Full(m)]);
  }

  /** A dead owner's file is at the path and two processes have judged it stale. */
  lemma TwoJudgeStale(m: Metadata) returns (steps: seq<Step>)
    ensures Execute(START, steps).Some?
    ensures var w := Execute(START, steps).value;
            && w.path == Some(10) && w.leases == map[0 := Lease(None, true, SLOT_COUNT - 1, m)] && w.openings == map[]
            && w.takeovers == map[1 := MayRemove(Some(1), Some(m)), 2 := MayRemove(Some(1), Some(m))]
            && w.releasing == map[] && w.created == 1
  {
    steps := Acquires([], 0, 0, 10, m);
    Then(START, steps, Die(0));
    steps := steps + [Die(0)];
    Then(START, steps, JudgeStale(1, 0, 0, false, false));
    steps := steps + [JudgeStale(1, 0, 0, false, false)];
    Then(START, steps, JudgeStale(2, 0, 0, false, false));
    steps := steps + [JudgeStale(2, 0, 0, false, false)];
  }

  /**
   * The first case of `RemovalTakesUnjudgedIff`: two processes judged a dead owner's lock stale, one removed it and got
   * the lock, and the other now removes that brand-new lock.
   */
  lemma SecondTakeoverRemovesFreshLock(m1: Metadata, m2: Metadata) returns (steps: seq<Step>)
    ensures Execute(START, steps).Some? && Execute(START, steps + [RemoveStale(2)]).Some?
    ensures var w, w' := Execute(START, steps).value, Execute(START, steps + [RemoveStale(2)]).value;
            TakesUnjudged(w, 2) && ReadAt(w) == Some(m2) && Owns(w, 1) && !Owns(w', 1) && !w'.leases[1].released
  {
    hide Execute, Latest;
    steps := TwoJudgeStale(m1);
    Then(START, steps, RemoveStale(1));
    steps := Acquires(steps + [RemoveStale(1)], 1, 1, 11, m2);
    Then(START, steps, RemoveStale(2));
  }

  /** A process has created its file but written no slot, and another has judged what it could not read. */
  lemma UnwrittenLockJudged(m: Metadata) returns (steps: seq<Step>)
    ensures |steps| == 2 && steps[1].JudgeStale? && Execute(START, steps).Some?
    ensures Execute(START, steps).value
            == World(Some(11), map[11 := []], map[11 := 1], 1, map[], map[1 := Opening(11, 1, m)],
                map[2 := MayRemove(Some(1), None)], map[])
  {
    Then(START, [], Open(1, 11, m));
    steps := [] + [Open(1, 11, m)];
    Then(START, steps, JudgeStale(2, 0, 0, false, false));
    steps := steps + [JudgeStale(2, 0, 0, false, false)];
  }

  lemma SlotsThenLease(before: seq<Step>, w: World, process: nat, lease: nat) returns (steps: seq<Step>)
    requires Execute(START, before) == Some(w)
    requires process in w.openings && w.openings[process].ino in w.files && w.files[w.openings[process].ino] == []
    requires lease !in w.leases && lease !in w.releasing
    ensures steps == before + [WriteInitialSlot(process), WriteInitialSlot(process), Obtain(process, lease)]
    ensures var o := w.openings[process];
            Execute(START, steps) == Some(w.(
              files := w.files[o.ino := [Full(o.metadata), Full(o.metadata)]], openings := w.openings - {process},
              leases := w.leases[lease := Lease(Some(o.ino), false, SLOT_COUNT - 1, o.metadata)]))
  {
    var o := w.openings[process];
    Then(START, before, WriteInitialSlot(process));
    var s1 := before + [WriteInitialSlot(process)];
    Then(START, s1, WriteInitialSlot(process));
    var s2 := s1 + [WriteInitialSlot(process)];
    Then(START, s2, Obtain(process, lease));
    steps := s2 + [Obtain(process, lease)];
    assert [] + [Full(o.metadata)] + [Full(o.metadata)] == [Full(o.metadata), Full(o.metadata)];
    assert w.files[o.ino := [] + [Full(o.metadata)]][o.ino := [] + [Full(o.metadata)] + [Full(o.metadata)]]
        == w.files[o.ino := [Full(o.metadata), Full(o.metadata)]];
    assert steps == before + [WriteInitialSlot(process), WriteInitialSlot(process), Obtain(process, lease)];
  }

  /** The second case: a file judged before its first slot was written is removed when its creator owns the lock. */
  lemma UnwrittenLockIsTakenOver(m: Metadata) returns (steps: seq<Step>)
    ensures Execute(START, steps).Some? && Execute(START, steps + [RemoveStale(2)]).Some?
    ensures forall i :: 1 <= i < |steps| ==> !steps[i].Open?
    ensures var w, w' := Execute(START, steps).value, Execute(START, steps + [RemoveStale(2)]).value;
            TakesUnjudged(w, 2) && ReadAt(w) == Some(m) && Owns(w, 1) && !Owns(w', 1) && !w'.leases[1].released
  {
    hide Execute, Latest;
    var judged := UnwrittenLockJudged(m);
    steps := SlotsThenLease(judged, Execute(START, judged).value, 1, 1);
    LatestOfTwo([Full(m), Full(m)]);
    Then(START, steps, RemoveStale(2));
  }

  /** The third case: an owner renews its lock after it was judged stale, and is removed none the less. */
  lemma RenewedLockIsTakenOver(m: Metadata) returns (steps: seq<Step>)
    ensures Execute(START, steps).Some? && Execute(START, steps + [RemoveStale(2)]).Some?
    ensures forall i :: 1 <= i < |steps| ==> !steps[i].Open?
    ensures var w, w' := Execute(START, steps).value, Execute(START, steps + [RemoveStale(2)]).value;
            && TakesUnjudged(w, 2) && Serial(w) && ReadAt(w) == Some(m.(updatedAt := m.updatedAt + 1))
            && Owns(w, 0) && !Owns(w', 0) && !w'.leases[0].released
  {
    steps := Acquires([], 0, 0, 10, m);
    hide Execute, Latest;
    Then(START, steps, JudgeStale(2, m.updatedAt, 0, true, false));
    steps := steps + [JudgeStale(2, m.updatedAt, 0, true, false)];
    var judged := Execute(START, steps).value;
    var renewed := m.(updatedAt := m.updatedAt + 1);
    assert judged.files[10] == [Full(m), Full(m)];
    Then(START, steps, HeartbeatOf(0, m.updatedAt + 1));
    steps := steps + [HeartbeatOf(0, m.updatedAt + 1)];
    assert Execute(START, steps).value.files[10] == [Full(renewed), Full(m)];
    LatestOfTwo([Full(renewed), Full(m)]);
    Then(START, steps, RemoveStale(2));
  }

  /** A first owner is about to remove the path and a second process has removed it already. */
  lemma ReleaseInterrupted(m: Metadata) returns (steps: seq<Step>)
    ensures Execute(START, steps).Some?
    ensures var w := Execute(START, steps).value;
            && w.path == None && w.leases == map[0 := Lease(None, true, SLOT_COUNT - 1, m)] && w.openings == map[]
            && w.takeovers == map[1 := MayCreate] && w.releasing == map[0 := 1] && w.created == 1
  {
    hide Latest;
    steps := Acquires([], 0, 0, 10, m);
    hide Execute;
    Then(START, steps, ReleaseCheck(0));
    steps := steps + [ReleaseCheck(0)];
    Then(START, steps, JudgeStale(1, 0, 0, false, false));
    steps := steps + [JudgeStale(1, 0, 0, false, false)];
    Then(START, steps, RemoveStale(1));
    steps := steps + [RemoveStale(1)];
  }

  /** An interrupted release removes a successor's lock. */
  lemma SplitReleaseRemovesSuccessor(m1: Metadata, m2: Metadata) returns (steps: seq<Step>)
    ensures Execute(START, steps).Some? && Execute(START, steps + [ReleaseRemove(0)]).Some?
    ensures var w, w' := Execute(START, steps).value, Execute(START, steps + [ReleaseRemove(0)]).value;
            ReleaseTakesAnother(w, 0) && Owns(w, 1) && !Owns(w', 1) && !w'.leases[1].released
  {
    hide Execute, Latest;
    var emptied := ReleaseInterrupted(m1);
    steps := Acquires(emptied, 1, 1, 11, m2);
    Then(START, steps, ReleaseRemove(0));
  }

  // ---------------------------------------------------------------- reading

  /** The readable slot with the greatest heartbeat time, the first one on ties. */
  function Latest(slots: seq<Slot>): Option<Metadata> {
    if slots == [] then None
    else
      var before := Latest(slots[..|slots| - 1]);
      var slot := slots[|slots| - 1];
      if slot.Full? && (before.None? || slot.metadata.updatedAt > before.value.updatedAt) then Some(slot.metadata)
          else before
  }

  method ParseContents(slots: seq<Slot>) returns (latest: Option<Metadata>)
    ensures latest == Latest(slots)
    ensures latest.None? <==> forall i :: 0 <= i < |slots| ==> slots[i].Torn?
    ensures latest.Some? ==> Full(latest.value) in slots
                             && forall i :: 0 <= i < |slots| && slots[i].Full?
                                  ==> slots[i].metadata.updatedAt <= latest.value.updatedAt
  {
    latest := None;
    for i := 0 to |slots|
      invariant latest == Latest(slots[..i])
      invariant latest.None? <==> forall k :: 0 <= k < i ==> slots[k].Torn?
      invariant latest.Some? ==> Full(latest.value) in slots
                                 && forall k :: 0 <= k < i && slots[k].Full?
                                      ==> slots[k].metadata.updatedAt <= latest.value.updatedAt
    {
      assert slots[..i + 1][..i] == slots[..i];
      if slots[i].Full? && (latest.None? || slots[i].metadata.updatedAt > latest.value.updatedAt) {
        latest := Some(slots[i].metadata);
      }
    }
    assert slots[..|slots|] == slots;
  }

  /**
   * A lock file and its writer: the slots so far, the lease's slot, the metadata to write, the last completed metadata
   * and the one now being written, if any. The lease is in use once all slots were written first.
   */
  datatype Writer = Writer(
    slots: seq<Slot>, inUse: bool, active: nat, metadata: Metadata, completed: Option<Metadata>,
        writing: Option<Metadata>)

  datatype WriterStep = BeginInitial | EndInitial | BeginWrite(now: int) | EndWrite | AdvanceSlot

  function NextSlot(w: Writer): nat {
    (w.active + 1) % SLOT_COUNT
  }

  predicate WriterEnabled(w: Writer, s: WriterStep) {
    match s
    case BeginInitial => !w.inUse && w.writing.None? && |w.slots| < SLOT_COUNT
    case EndInitial => !w.inUse && w.writing.Some? && w.slots != []
    case BeginWrite(now) => w.inUse && w.writing.None? && NextSlot(w) < |w.slots|
    case EndWrite => w.inUse && w.writing.Some? && NextSlot(w) < |w.slots| && w.slots[NextSlot(w)].Torn?
    case AdvanceSlot => w.inUse && w.writing.Some? && NextSlot(w) < |w.slots| && w.slots[NextSlot(w)].Full?
  }

  /** A slot reads as torn from the first byte written to the last; after a heartbeat the lease moves on to it. */
  function WriterNext(w: Writer, s: WriterStep): Writer
    requires WriterEnabled(w, s)
  {
    match s
    case BeginInitial => w.(slots := w.slots + [Torn], writing := Some(w.metadata))
    case EndInitial =>
      w.(slots := w.slots[|w.slots| - 1 := Full(w.metadata)], completed := w.writing, writing := None,
      inUse := |w.slots| == SLOT_COUNT)
    case BeginWrite(now) => w.(slots := w.slots[NextSlot(w) := Torn], writing := Some(w.metadata.(updatedAt := now)))
    case EndWrite => w.(slots := w.slots[NextSlot(w) := Full(w.writing.value)])
    case AdvanceSlot => w.(active := NextSlot(w), metadata := w.writing.value, completed := w.writing, writing := None)
  }

  /** The file as exclusive creation leaves it. */
  function Created(m: Metadata): Writer {
    Writer([], false, SLOT_COUNT - 1, m, None, None)
  }

  /** Runs of the writer under any clock. */
  ghost predicate IsAnyWriterRun(ws: seq<Writer>, steps: seq<WriterStep>, m: Metadata) {
    && |ws| == |steps| + 1
    && ws[0] == Created(m)
    && (forall i :: 0 <= i < |steps| ==> WriterEnabled(ws[i], steps[i]) && ws[i + 1] == WriterNext(ws[i], steps[i]))
  }

  /** Runs of the writer whose clock never goes back. */
  ghost predicate IsWriterRun(ws: seq<Writer>, steps: seq<WriterStep>, m: Metadata) {
    && IsAnyWriterRun(ws, steps, m)
    && (forall i :: 0 <= i < |steps| && steps[i].BeginWrite? ==> steps[i].now >= ws[i].metadata.updatedAt)
  }

  ghost predicate InitialisingInv(w: Writer) {
    && |w.slots| <= SLOT_COUNT && (w.writing.Some? ==> w.writing == Some(w.metadata) && w.slots != [])
    && (w.writing.None? ==> |w.slots| < SLOT_COUNT)
    && (forall k :: 0 <= k < |w.slots|
          ==> w.slots[k] == if w.writing.Some? && k == |w.slots| - 1 then Torn else Full(w.metadata))
    && (w.completed == if |w.slots| > (if w.writing.Some? then 1 else 0) then Some(w.metadata) else None)
  }

  ghost predicate InUseInv(w: Writer) {
    && w.active < SLOT_COUNT == |w.slots| && w.completed == Some(w.metadata)
    && w.slots[w.active] == Full(w.metadata)
    && match w.writing
       case None =>
         && w.slots[1 - w.active].Full?
         && w.slots[1 - w.active].metadata.updatedAt <= w.metadata.updatedAt
         && w.slots[1 - w.active].metadata.(updatedAt := w.metadata.updatedAt) == w.metadata
       case Some(m) =>
         && m.updatedAt >= w.metadata.updatedAt && m.(updatedAt := w.metadata.updatedAt) == w.metadata
         && (w.slots[1 - w.active].Torn? || w.slots[1 - w.active] == Full(m))
  }

  ghost predicate WriterInv(w: Writer) {
    w.active < SLOT_COUNT && if w.inUse then InUseInv(w) else InitialisingInv(w) && w.active == SLOT_COUNT - 1
  }

  lemma WriterStepKeepsInv(w: Writer, s: WriterStep)
    requires WriterInv(w) && WriterEnabled(w, s) && (s.BeginWrite? ==> s.now >= w.metadata.updatedAt)
    ensures WriterInv(WriterNext(w, s))
    ensures WriterNext(w, s).completed.Some? <==> w.completed.Some? || s.EndInitial?
  {
  }

  lemma {:induction false} WriterRunKeepsInv(ws: seq<Writer>, steps: seq<WriterStep>, m: Metadata, i: nat)
    requires IsWriterRun(ws, steps, m) && i <= |steps|
    ensures WriterInv(ws[i])
    ensures ws[i].completed.Some? <==> exists k :: 0 <= k < i && steps[k].EndInitial?
  {
    if i > 0 {
      hide WriterInv, WriterEnabled, WriterNext;
      var j := i - 1;
      WriterRunKeepsInv(ws, steps, m, j);
      assert ws[j + 1] == WriterNext(ws[j], steps[j]) && WriterEnabled(ws[j], steps[j]);
      WriterStepKeepsInv(ws[j], steps[j]);
    }
  }

  lemma LatestOfTwo(slots: seq<Slot>)
    requires |slots| == 2
    ensures Latest(slots) ==
            if slots[1].Full? && (slots[0].Torn? || slots[1].metadata.updatedAt > slots[0].metadata.updatedAt)
                then Some(slots[1].metadata)
            else if slots[0].Full? then Some(slots[0].metadata) else None
  {
    assert slots[..1][..0] == [];
    assert Latest(slots[..1]) == if slots[0].Full? then Some(slots[0].metadata) else None;
  }

  lemma LatestOfFew(slots: seq<Slot>)
    requires |slots| <= 1
    ensures Latest(slots) == if slots != [] && slots[0].Full? then Some(slots[0].metadata) else None
  {
  }

  /**
   * With a clock that never goes back: from its creation until its first slot is written a reader gets nothing from the
   * file, and ever after the last completed or the in-progress metadata.
   */
  lemma ReaderSeesLastOrNewest(ws: seq<Writer>, steps: seq<WriterStep>, m: Metadata, i: nat)
    requires IsWriterRun(ws, steps, m) && i <= |steps|
    ensures Latest(ws[i].slots).None? <==> forall k :: 0 <= k < i ==> !steps[k].EndInitial?
    ensures Latest(ws[i].slots).Some? ==>
              Latest(ws[i].slots) == ws[i].completed || (ws[i].writing.Some? && Latest(ws[i].slots) == ws[i].writing)
  {
    WriterRunKeepsInv(ws, steps, m, i);
    if |ws[i].slots| == 2 { LatestOfTwo(ws[i].slots); } else { LatestOfFew(ws[i].slots); }
  }

  /** The time the write begun last carries. */
  function BegunTime(steps: seq<WriterStep>): int {
    if steps == [] then 0
    else if steps[|steps| - 1].BeginWrite? then steps[|steps| - 1].now else BegunTime(steps[..|steps| - 1])
  }

  /** The times of the completed writes, the first one into each slot included. */
  function WrittenTimes(m: Metadata, steps: seq<WriterStep>): seq<int> {
    if steps == [] then []
    else
      var front, last := steps[..|steps| - 1], steps[|steps| - 1];
      WrittenTimes(m, front)
      + (if last.EndInitial? then [m.updatedAt] else if last.AdvanceSlot? then [BegunTime(front)] else [])
  }

  /** How the file and the times of its writes agree, whatever the clock does. */
  ghost predicate TimesInv(w: Writer, m: Metadata, times: seq<int>, begun: int) {
    if w.inUse then
      && |w.slots| == SLOT_COUNT && w.active < SLOT_COUNT && |times| >= 2
      && w.slots[w.active] == Full(w.metadata) && w.completed == Some(w.metadata)
      && w.metadata.updatedAt == times[|times| - 1]
      && match w.writing
         case None => w.slots[1 - w.active] == Full(w.metadata.(updatedAt := times[|times| - 2]))
         case Some(x) =>
           && x == w.metadata.(updatedAt := begun)
           && (w.slots[1 - w.active].Torn? || w.slots[1 - w.active] == Full(x))
    else
      && w.active == SLOT_COUNT - 1 && w.metadata == m && |w.slots| <= SLOT_COUNT
      && |times| == |w.slots| - (if w.writing.Some? then 1 else 0)
      && (w.writing.Some? ==> w.writing == Some(m)) && (w.writing.None? ==> |w.slots| < SLOT_COUNT)
      && (forall k :: 0 <= k < |times| ==> times[k] == m.updatedAt && w.slots[k] == Full(m))
  }

  lemma StepKeepsTimes(w: Writer, s: WriterStep, m: Metadata, times: seq<int>, begun: int)
    requires TimesInv(w, m, times, begun) && WriterEnabled(w, s)
    ensures TimesInv(WriterNext(w, s), m,
                     times + (if s.EndInitial? then [m.updatedAt] else if s.AdvanceSlot? then [begun] else []),
                     if s.BeginWrite? then s.now else begun)
  {
    assert times + [] == times;
  }

  lemma {:induction false} RunKeepsTimes(ws: seq<Writer>, steps: seq<WriterStep>, m: Metadata, i: nat)
    requires IsAnyWriterRun(ws, steps, m) && i <= |steps|
    ensures TimesInv(ws[i], m, WrittenTimes(m, steps[..i]), BegunTime(steps[..i]))
  {
    if i > 0 {
      hide TimesInv, WriterEnabled, WriterNext;
      var j := i - 1;
      RunKeepsTimes(ws, steps, m, j);
      assert ws[j + 1] == WriterNext(ws[j], steps[j]) && WriterEnabled(ws[j], steps[j]);
      assert steps[..i][..j] == steps[..j] && steps[..i][j] == steps[j];
      StepKeepsTimes(ws[j], steps[j], m, WrittenTimes(m, steps[..j]), BegunTime(steps[..j]));
    }
  }

  /**
   * Between writes, whatever the clock did: the reader sees what was written last exactly when it is no older than the
   * write before.
   */
  lemma ReaderSeesLastIff(ws: seq<Writer>, steps: seq<WriterStep>, m: Metadata, i: nat)
    requires IsAnyWriterRun(ws, steps, m) && i <= |steps| && ws[i].inUse && ws[i].writing.None?
    ensures var times := WrittenTimes(m, steps[..i]);
            && |times| >= 2
            && (Latest(ws[i].slots) == ws[i].completed <==> times[|times| - 2] <= times[|times| - 1])
  {
    RunKeepsTimes(ws, steps, m, i);
    LatestOfTwo(ws[i].slots);
  }
}
