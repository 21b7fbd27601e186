/**
 The arbitration between concurrent `daemon start` processes for one root, as a transition system:
 one claim file, the kernel's locks on it, any number of starts, and the daemon they may spawn. Each
 event is one system call or one liveness probe, so every interleaving of the real processes is a
 sequence of events, and a start may die between any two of them.

 What is assumed of the kernel: opening with creation is atomic, a lock is exclusive per open file
 and is dropped when its holder closes the file or dies, and unlinking the only name of a file takes
 its link count to zero.
 */
module StartClaim {
  import opened Options

  type Pid = nat

  /** A file, by identity. A file that is open keeps its identity after it was unlinked. */
  type Inode = nat

  datatype Outcome = AlreadyRunning | Started | Failed

  /** Where a start is. `Claimed` to `Releasing` hold a claim that is not yet released. */
  datatype Pc =
    | Begin
    | Poll
    | Opening
    | Opened(inode: Inode)
    | Locked(inode: Inode)
    | Declining(inode: Inode)
    | Claimed(inode: Inode)
    | Granted(inode: Inode)
    | Awaiting(inode: Inode)
    | Releasing(inode: Inode, outcome: Outcome)
    | Closing(inode: Inode, outcome: Outcome)
    | Waiting
    | Done(outcome: Outcome)
    | Dead

  /**
   The file the claim path names, the locks held, the starts, whether a daemon answers, how many
   spawned daemons do not answer yet, and who spawned one so far.
   */
  datatype State = State(
    path: Option<Inode>,
    nextInode: Inode,
    owner: map<Inode, Pid>,
    starts: map<Pid, Pc>,
    live: bool,
    warming: nat,
    spawners: seq<Pid>)

  datatype Event =
    | Arrive(p: Pid)
    | SeeLive(p: Pid)
    | SeeDown(p: Pid)
    | ReplaceStale(p: Pid)
    | PollLive(p: Pid)
    | PollDown(p: Pid)
    | Open(p: Pid)
    | OpenFails(p: Pid)
    | Lock(p: Pid)
    | LockHeld(p: Pid)
    | LockFails(p: Pid)
    | ReadLinks(p: Pid)
    | ReadLinksFails(p: Pid)
    | CloseStale(p: Pid)
    | Recheck(p: Pid)
    | Spawn(p: Pid)
    | SpawnFails(p: Pid)
    | SeeUp(p: Pid)
    | GiveUp(p: Pid)
    | Remove(p: Pid)
    | RemoveFails(p: Pid)
    | Close(p: Pid)
    | Retry(p: Pid)
    | TimeOut(p: Pid)
    | Crash(p: Pid)
    | DaemonUp
    | DaemonFails
    | DaemonDown

  function PcOf(s: State, p: Pid): Pc {
    if p in s.starts then s.starts[p] else Dead
  }

  predicate Enabled(s: State, e: Event) {
    match e
    case Arrive(p) => p !in s.starts
    case SeeLive(p) => PcOf(s, p).Begin? && s.live
    case SeeDown(p) => PcOf(s, p).Begin? && !s.live
    case ReplaceStale(p) => PcOf(s, p).Begin? && s.live
    case PollLive(p) => PcOf(s, p).Poll? && s.live
    case PollDown(p) => PcOf(s, p).Poll? && !s.live
    case Open(p) => PcOf(s, p).Opening?
    case OpenFails(p) => PcOf(s, p).Opening?
    case Lock(p) => PcOf(s, p).Opened? && PcOf(s, p).inode !in s.owner
    case LockHeld(p) => PcOf(s, p).Opened? && PcOf(s, p).inode in s.owner
    case LockFails(p) => PcOf(s, p).Opened?
    case ReadLinks(p) => PcOf(s, p).Locked?
    case ReadLinksFails(p) => PcOf(s, p).Locked?
    case CloseStale(p) => PcOf(s, p).Declining?
    case Recheck(p) => PcOf(s, p).Claimed?
    case Spawn(p) => PcOf(s, p).Granted?
    case SpawnFails(p) => PcOf(s, p).Granted?
    case SeeUp(p) => PcOf(s, p).Awaiting? && s.live
    case GiveUp(p) => PcOf(s, p).Awaiting?
    case Remove(p) => PcOf(s, p).Releasing?
    case RemoveFails(p) => PcOf(s, p).Releasing?
    case Close(p) => PcOf(s, p).Closing?
    case Retry(p) => PcOf(s, p).Waiting?
    case TimeOut(p) => PcOf(s, p).Waiting?
    case Crash(p) => p in s.starts && !s.starts[p].Done? && !s.starts[p].Dead?
    case DaemonUp => s.warming > 0
    case DaemonFails => s.warming > 0
    case DaemonDown => s.live
  }

  function Moved(s: State, p: Pid, pc: Pc): State {
    s.(starts := s.starts[p := pc])
  }

  /** The lock on a file goes with the descriptor that was holding it. */
  function Unlocked(s: State, inode: Inode): State {
    s.(owner := map i | i in s.owner && i != inode :: s.owner[i])
  }

  /** Every lock a process holds goes with the process. */
  function UnlockedAll(s: State, p: Pid): State {
    s.(owner := map i | i in s.owner && s.owner[i] != p :: s.owner[i])
  }

  function Apply(s: State, e: Event): State
    requires Enabled(s, e)
  {
    match e
    case Arrive(p) => Moved(s, p, Begin)
    case SeeLive(p) => Moved(s, p, Done(AlreadyRunning))
    case SeeDown(p) => Moved(s, p, Poll)
    case ReplaceStale(p) => Moved(s, p, Poll).(live := false)
    case PollLive(p) => Moved(s, p, Done(AlreadyRunning))
    case PollDown(p) => Moved(s, p, Opening)
    case Open(p) =>
      (match s.path
       case Some(inode) => Moved(s, p, Opened(inode))
       case None => Moved(s, p, Opened(s.nextInode)).(path := Some(s.nextInode), nextInode := s.nextInode + 1))
    case OpenFails(p) => Moved(s, p, Done(Failed))
    case Lock(p) => Moved(s, p, Locked(s.starts[p].inode)).(owner := s.owner[s.starts[p].inode := p])
    case LockHeld(p) => Moved(s, p, Waiting)
    case LockFails(p) => Moved(s, p, Done(Failed))
    case ReadLinks(p) =>
      var inode := s.starts[p].inode;
      Moved(s, p, if s.path == Some(inode) then Claimed(inode) else Declining(inode))
    case ReadLinksFails(p) => Moved(s, p, Closing(s.starts[p].inode, Failed))
    case CloseStale(p) => Unlocked(Moved(s, p, Waiting), s.starts[p].inode)
    case Recheck(p) =>
      var inode := s.starts[p].inode;
      Moved(s, p, if s.live then Releasing(inode, AlreadyRunning) else Granted(inode))
    case Spawn(p) =>
      Moved(s, p, Awaiting(s.starts[p].inode)).(warming := s.warming + 1, spawners := s.spawners + [p])
    case SpawnFails(p) => Moved(s, p, Releasing(s.starts[p].inode, Failed))
    case SeeUp(p) => Moved(s, p, Releasing(s.starts[p].inode, Started))
    case GiveUp(p) => Moved(s, p, Releasing(s.starts[p].inode, Failed))
    case Remove(p) => Moved(s, p, Closing(s.starts[p].inode, s.starts[p].outcome)).(path := None)
    case RemoveFails(p) => Moved(s, p, Closing(s.starts[p].inode, s.starts[p].outcome))
    case Close(p) => Unlocked(Moved(s, p, Done(s.starts[p].outcome)), s.starts[p].inode)
    case Retry(p) => Moved(s, p, Poll)
    case TimeOut(p) => Moved(s, p, Done(Failed))
    case Crash(p) => UnlockedAll(Moved(s, p, Dead), p)
    case DaemonUp => s.(warming := s.warming - 1, live := true)
    case DaemonFails => s.(warming := s.warming - 1)
    case DaemonDown => s.(live := false)
  }

  /** No start yet, no lock, no daemon being spawned; a claim file may have been left behind. */
  predicate Initial(s: State) {
    && s.owner == map[] && s.starts == map[] && s.warming == 0 && s.spawners == []
    && (s.path.Some? ==> s.path.value < s.nextInode)
  }

  /** `t` is reached from `s` by the given events. */
  ghost predicate Run(s: State, events: seq<Event>, t: State)
    decreases |events|
  {
    if events == [] then s == t
    else Enabled(s, events[0]) && Run(Apply(s, events[0]), events[1..], t)
  }

  // ----- mutual exclusion

  /** The start owns the attempt: it holds a claim it has not released. */
  predicate Holds(s: State, p: Pid) {
    var pc := PcOf(s, p);
    pc.Claimed? || pc.Granted? || pc.Awaiting? || pc.Releasing?
  }

  predicate HasLock(pc: Pc) {
    pc.Locked? || pc.Declining? || pc.Claimed? || pc.Granted? || pc.Awaiting? || pc.Releasing? || pc.Closing?
  }

  /** No file in use is a file yet to be created. */
  ghost predicate InodesInUse(s: State) {
    && (s.path.Some? ==> s.path.value < s.nextInode)
    && (forall i | i in s.owner :: i < s.nextInode)
    && (forall p | p in s.starts && s.starts[p].Opened? :: s.starts[p].inode < s.nextInode)
  }

  /** A start past its `flock` owns the lock on its file. */
  ghost predicate LockersOwn(s: State) {
    forall p | p in s.starts && HasLock(s.starts[p]) ::
      s.starts[p].inode in s.owner && s.owner[s.starts[p].inode] == p
  }

  /** Every lock is held by a start past its `flock` on that file. */
  ghost predicate OwnersLocked(s: State) {
    forall i | i in s.owner ::
      s.owner[i] in s.starts && HasLock(s.starts[s.owner[i]]) && s.starts[s.owner[i]].inode == i
  }

  /** A claim not yet released is on the file the path names. */
  ghost predicate ClaimsNamed(s: State) {
    forall p | p in s.starts && Holds(s, p) :: s.path == Some(s.starts[p].inode)
  }

  ghost predicate Safe(s: State) {
    InodesInUse(s) && LockersOwn(s) && OwnersLocked(s) && ClaimsNamed(s)
  }

  /** At most one start holds the claim. */
  lemma MutualExclusion(s: State, p: Pid, q: Pid)
    requires Safe(s) && Holds(s, p) && Holds(s, q)
    ensures p == q
  {
    var i := PcOf(s, p).inode;
    assert s.owner[i] == p && s.owner[i] == q;
  }

  /** The part of a start's life an event belongs to, to take the cases a part at a time. */
  ghost predicate IsEarly(e: Event) {
    || e.Arrive? || e.SeeLive? || e.SeeDown? || e.ReplaceStale? || e.PollLive? || e.PollDown?
    || e.Open? || e.OpenFails? || e.Lock? || e.LockHeld? || e.LockFails?
  }

  lemma EarlyStepKeepsInodes(s: State, e: Event)
    requires Safe(s) && Enabled(s, e) && IsEarly(e)
    ensures InodesInUse(Apply(s, e))
  {
  }

  lemma LateStepKeepsInodes(s: State, e: Event)
    requires Safe(s) && Enabled(s, e) && !IsEarly(e)
    ensures InodesInUse(Apply(s, e))
  {
  }

  lemma StepKeepsInodes(s: State, e: Event)
    requires Safe(s) && Enabled(s, e)
    ensures InodesInUse(Apply(s, e))
  {
    if IsEarly(e) {
      EarlyStepKeepsInodes(s, e);
    } else {
      LateStepKeepsInodes(s, e);
    }
  }

  lemma EarlyStepKeepsLockers(s: State, e: Event)
    requires Safe(s) && Enabled(s, e) && IsEarly(e)
    ensures LockersOwn(Apply(s, e))
  {
  }

  lemma LateStepKeepsLockers(s: State, e: Event)
    requires Safe(s) && Enabled(s, e) && !IsEarly(e)
    ensures LockersOwn(Apply(s, e))
  {
  }

  lemma StepKeepsLockers(s: State, e: Event)
    requires Safe(s) && Enabled(s, e)
    ensures LockersOwn(Apply(s, e))
  {
    if IsEarly(e) {
      EarlyStepKeepsLockers(s, e);
    } else {
      LateStepKeepsLockers(s, e);
    }
  }

  lemma EarlyStepKeepsOwners(s: State, e: Event)
    requires Safe(s) && Enabled(s, e) && IsEarly(e)
    ensures OwnersLocked(Apply(s, e))
  {
  }

  lemma LateStepKeepsOwners(s: State, e: Event)
    requires Safe(s) && Enabled(s, e) && !IsEarly(e)
    ensures OwnersLocked(Apply(s, e))
  {
  }

  lemma StepKeepsOwners(s: State, e: Event)
    requires Safe(s) && Enabled(s, e)
    ensures OwnersLocked(Apply(s, e))
  {
    if IsEarly(e) {
      EarlyStepKeepsOwners(s, e);
    } else {
      LateStepKeepsOwners(s, e);
    }
  }

  lemma StepKeepsClaims(s: State, e: Event)
    requires Safe(s) && Enabled(s, e)
    ensures ClaimsNamed(Apply(s, e))
  {
    if e.Remove? {
      forall q | q in Apply(s, e).starts && Holds(Apply(s, e), q)
        ensures false
      {
        MutualExclusion(s, e.p, q);
      }
    }
  }

  lemma StepKeepsSafe(s: State, e: Event)
    requires Safe(s) && Enabled(s, e)
    ensures Safe(Apply(s, e))
  {
    StepKeepsInodes(s, e);
    StepKeepsLockers(s, e);
    StepKeepsOwners(s, e);
    StepKeepsClaims(s, e);
  }

  /** In every run, with crashes anywhere: one holder at most, and its lock is on the file the path names. */
  lemma {:induction false} EveryRunIsSafe(s: State, events: seq<Event>, t: State)
    requires Safe(s) && Run(s, events, t)
    ensures Safe(t)
    decreases |events|
  {
    if events != [] {
      StepKeepsSafe(s, events[0]);
      EveryRunIsSafe(Apply(s, events[0]), events[1..], t);
    }
  }

  lemma AtMostOneHolder(s: State, events: seq<Event>, t: State, p: Pid, q: Pid)
    requires Initial(s) && Run(s, events, t) && Holds(t, p) && Holds(t, q)
    ensures p == q
    ensures t.path == Some(PcOf(t, p).inode)
    ensures PcOf(t, p).inode in t.owner && t.owner[PcOf(t, p).inode] == p
  {
    EveryRunIsSafe(s, events, t);
    MutualExclusion(t, p, q);
  }

  /** What a release unlinks is the file its own claim is on, so no other start's claim is ever removed. */
  lemma ReleaseRemovesOwnFile(s: State, events: seq<Event>, t: State, p: Pid, q: Pid)
    requires Initial(s) && Run(s, events, t) && PcOf(t, p).Releasing?
    ensures t.path == Some(PcOf(t, p).inode)
    ensures q != p && HasLock(PcOf(t, q)) ==> t.path != Some(PcOf(t, q).inode)
  {
    EveryRunIsSafe(s, events, t);
  }

  // ----- one daemon, and honest reports

  /**
   The event loses neither the daemon nor its spawner: an answering daemon keeps answering, and whoever
   spawned one waits for it until it answers.
   */
  predicate Keeps(s: State, e: Event) {
    && !e.DaemonDown? && !e.ReplaceStale?
    && ((e.Crash? || e.GiveUp?) && PcOf(s, e.p).Awaiting? ==> s.live)
  }

  ghost predicate KeepingRun(s: State, events: seq<Event>, t: State)
    decreases |events|
  {
    if events == [] then s == t
    else Enabled(s, events[0]) && Keeps(s, events[0]) && KeepingRun(Apply(s, events[0]), events[1..], t)
  }

  lemma {:induction false} KeepingRunIsRun(s: State, events: seq<Event>, t: State)
    requires KeepingRun(s, events, t)
    ensures Run(s, events, t)
    decreases |events|
  {
    if events != [] {
      KeepingRunIsRun(Apply(s, events[0]), events[1..], t);
    }
  }

  /** The outcome a start has settled on, whether or not it has released its claim yet. */
  predicate Reports(s: State, p: Pid, outcome: Outcome) {
    var pc := PcOf(s, p);
    (pc.Releasing? || pc.Closing? || pc.Done?) && pc.outcome == outcome
  }

  ghost predicate FewSpawns(s: State) {
    |s.spawners| <= 1 && s.warming <= |s.spawners|
  }

  /** A granted start is the first to spawn, and one that waits for a daemon is the one that spawned it. */
  ghost predicate SpawnersHold(s: State) {
    && (forall p | p in s.starts && s.starts[p].Granted? :: s.spawners == [] && !s.live)
    && (forall p | p in s.starts && s.starts[p].Awaiting? :: s.spawners == [p])
  }

  /** Whoever spawned waits for its daemon, until the daemon answers. */
  ghost predicate SpawnersWait(s: State) {
    forall p | p in s.spawners :: p in s.starts && (s.live || s.starts[p].Awaiting?)
  }

  ghost predicate ReportsHonest(s: State) {
    forall p | p in s.starts ::
      && (Reports(s, p, Started) ==> s.live && p in s.spawners)
      && (Reports(s, p, AlreadyRunning) ==> s.live)
  }

  /** One spawn at most, by a start that holds its claim until the daemon answers, and no false report. */
  ghost predicate OneDaemon(s: State) {
    FewSpawns(s) && SpawnersHold(s) && SpawnersWait(s) && ReportsHonest(s)
  }

  /** The starts that gave up waiting. */
  ghost function GaveUp(events: seq<Event>): set<Pid> {
    set e | e in events && e.GiveUp? :: e.p
  }

  /** What a spawner that lives reports, or will: a failure when it gave up and a start when it did not. */
  ghost predicate SpawnersReport(s: State, quitters: set<Pid>) {
    && (forall p | p in quitters :: p in s.spawners)
    && (forall p | p in s.spawners ::
          && p in s.starts
          && (s.starts[p].Dead? || if p in quitters then Reports(s, p, Failed)
                                   else s.starts[p].Awaiting? || Reports(s, p, Started)))
  }

  /** A claimant that finds no daemon at its second look is the first that could spawn one. */
  lemma RecheckFindsNoSpawner(s: State, p: Pid)
    requires Safe(s) && SpawnersWait(s) && PcOf(s, p).Claimed? && !s.live
    ensures s.spawners == []
  {
    if s.spawners != [] {
      assert s.spawners[0] in s.spawners;
      MutualExclusion(s, p, s.spawners[0]);
      assert false;
    }
  }

  lemma EarlyStepKeepsSpawners(s: State, e: Event)
    requires Safe(s) && OneDaemon(s) && Enabled(s, e) && Keeps(s, e) && IsEarly(e)
    ensures FewSpawns(Apply(s, e)) && SpawnersHold(Apply(s, e))
  {
  }

  lemma LateStepKeepsSpawners(s: State, e: Event)
    requires OneDaemon(s) && Enabled(s, e) && Keeps(s, e) && !IsEarly(e) && !IsSpawning(e)
    ensures FewSpawns(Apply(s, e)) && SpawnersHold(Apply(s, e))
  {
  }

  lemma SpawningStepKeepsSpawners(s: State, e: Event)
    requires Safe(s) && OneDaemon(s) && Enabled(s, e) && Keeps(s, e) && IsSpawning(e)
    ensures FewSpawns(Apply(s, e)) && SpawnersHold(Apply(s, e))
  {
    if e.Recheck? && !s.live {
      RecheckFindsNoSpawner(s, e.p);
    }
    if e.Spawn? {
      forall q | q in s.starts && (s.starts[q].Granted? || s.starts[q].Awaiting?)
        ensures q == e.p
      {
        MutualExclusion(s, e.p, q);
      }
    }
  }

  lemma StepKeepsSpawners(s: State, e: Event)
    requires Safe(s) && OneDaemon(s) && Enabled(s, e) && Keeps(s, e)
    ensures FewSpawns(Apply(s, e)) && SpawnersHold(Apply(s, e))
  {
    if IsEarly(e) {
      EarlyStepKeepsSpawners(s, e);
    } else if IsSpawning(e) {
      SpawningStepKeepsSpawners(s, e);
    } else {
      LateStepKeepsSpawners(s, e);
    }
  }

  lemma StepKeepsWaiting(s: State, e: Event)
    requires SpawnersWait(s) && Enabled(s, e) && Keeps(s, e)
    ensures SpawnersWait(Apply(s, e))
  {
  }

  lemma EarlyStepKeepsReports(s: State, e: Event)
    requires SpawnersHold(s) && ReportsHonest(s) && Enabled(s, e) && Keeps(s, e) && IsEarly(e)
    ensures ReportsHonest(Apply(s, e))
  {
  }

  /** The events from the spawn of the daemon to its report. */
  ghost predicate IsSpawning(e: Event) {
    e.Recheck? || e.Spawn? || e.SpawnFails? || e.SeeUp? || e.GiveUp? || e.DaemonUp? || e.DaemonFails? || e.DaemonDown?
  }

  lemma SpawningStepKeepsReports(s: State, e: Event)
    requires SpawnersHold(s) && ReportsHonest(s) && Enabled(s, e) && Keeps(s, e) && IsSpawning(e)
    ensures ReportsHonest(Apply(s, e))
  {
  }

  lemma LateStepKeepsReports(s: State, e: Event)
    requires SpawnersHold(s) && ReportsHonest(s) && Enabled(s, e) && Keeps(s, e) && !IsEarly(e) && !IsSpawning(e)
    ensures ReportsHonest(Apply(s, e))
  {
  }

  lemma StepKeepsReports(s: State, e: Event)
    requires Safe(s) && OneDaemon(s) && Enabled(s, e) && Keeps(s, e)
    ensures ReportsHonest(Apply(s, e))
  {
    if IsEarly(e) {
      EarlyStepKeepsReports(s, e);
    } else if IsSpawning(e) {
      SpawningStepKeepsReports(s, e);
    } else {
      LateStepKeepsReports(s, e);
    }
  }

  lemma StepKeepsOneDaemon(s: State, e: Event)
    requires Safe(s) && OneDaemon(s) && Enabled(s, e) && Keeps(s, e)
    ensures OneDaemon(Apply(s, e))
  {
    StepKeepsSpawners(s, e);
    StepKeepsWaiting(s, e);
    StepKeepsReports(s, e);
  }

  lemma EarlyStepKeepsSpawnersReport(s: State, e: Event, quitters: set<Pid>)
    requires SpawnersReport(s, quitters) && Enabled(s, e) && IsEarly(e)
    ensures SpawnersReport(Apply(s, e), quitters)
  {
  }

  lemma LateStepKeepsSpawnersReport(s: State, e: Event, quitters: set<Pid>)
    requires SpawnersHold(s) && SpawnersReport(s, quitters) && Enabled(s, e) && !IsEarly(e) && !e.GiveUp?
    ensures SpawnersReport(Apply(s, e), quitters)
  {
  }

  lemma GivingUpKeepsSpawnersReport(s: State, p: Pid, quitters: set<Pid>)
    requires SpawnersHold(s) && SpawnersReport(s, quitters) && Enabled(s, GiveUp(p))
    ensures SpawnersReport(Apply(s, GiveUp(p)), quitters + {p})
  {
  }

  lemma StepKeepsSpawnersReport(s: State, e: Event, quitters: set<Pid>)
    requires SpawnersHold(s) && SpawnersReport(s, quitters) && Enabled(s, e)
    ensures SpawnersReport(Apply(s, e), quitters + GaveUp([e]))
  {
    if e.GiveUp? {
      GivingUpKeepsSpawnersReport(s, e.p, quitters);
      assert e in [e];
      assert GaveUp([e]) == {e.p};
    } else {
      assert GaveUp([e]) == {};
      assert quitters + GaveUp([e]) == quitters;
      if IsEarly(e) {
        EarlyStepKeepsSpawnersReport(s, e, quitters);
      } else {
        LateStepKeepsSpawnersReport(s, e, quitters);
      }
    }
  }

  lemma {:induction false} KeepingRunsKeepOneDaemon(s: State, events: seq<Event>, t: State, quitters: set<Pid>)
    requires Safe(s) && OneDaemon(s) && SpawnersReport(s, quitters) && KeepingRun(s, events, t)
    ensures Safe(t) && OneDaemon(t) && SpawnersReport(t, quitters + GaveUp(events))
    decreases |events|
  {
    if events == [] {
      assert quitters + GaveUp(events) == quitters;
    } else {
      var e := events[0];
      StepKeepsSafe(s, e);
      StepKeepsOneDaemon(s, e);
      StepKeepsSpawnersReport(s, e, quitters);
      KeepingRunsKeepOneDaemon(Apply(s, e), events[1..], t, quitters + GaveUp([e]));
      assert events == [e] + events[1..];
      assert quitters + GaveUp([e]) + GaveUp(events[1..]) == quitters + GaveUp(events);
    }
  }

  /**
   However many starts race, as long as nobody loses the daemon or its spawner they spawn one daemon at
   most, and whoever says a daemon runs is right. A start that ended says it started the daemon exactly
   when it is the one that spawned it and did not give up waiting; a daemon that answers when its spawner
   gives up is reported as a failure.
   */
  lemma OneDaemonHonestlyReported(s: State, events: seq<Event>, t: State)
    requires Initial(s) && KeepingRun(s, events, t)
    ensures |t.spawners| <= 1
    ensures forall p | p in t.starts && t.starts[p].Done? && t.starts[p].outcome != Failed :: t.live
    ensures forall p | p in t.starts && t.starts[p].Done? ::
              t.starts[p].outcome == Started <==> p in t.spawners && GiveUp(p) !in events
    ensures forall p | p in t.starts && t.starts[p].Done? && GiveUp(p) in events :: t.starts[p].outcome == Failed
  {
    KeepingRunsKeepOneDaemon(s, events, t, {});
    var quitters := GaveUp(events);
    assert {} + quitters == quitters;
    forall p | p in t.starts && t.starts[p].Done?
      ensures t.starts[p].outcome != Failed ==> t.live
      ensures t.starts[p].outcome == Started <==> p in t.spawners && GiveUp(p) !in events
      ensures GiveUp(p) in events ==> t.starts[p].outcome == Failed
    {
      assert GiveUp(p) in events <==> p in quitters;
      assert t.starts[p].outcome == Started <==> Reports(t, p, Started);
      assert t.starts[p].outcome == AlreadyRunning <==> Reports(t, p, AlreadyRunning);
    }
  }

  // ----- every report

  /** The start failed at something: at the claim, at the spawn, or by running out of patience. */
  predicate Fails(e: Event, p: Pid) {
    IsFailure(e) && e.p == p
  }

  predicate IsFailure(e: Event) {
    e.OpenFails? || e.LockFails? || e.ReadLinksFails? || e.SpawnFails? || e.GiveUp? || e.TimeOut?
  }

  ghost predicate SomethingFailed(events: seq<Event>, p: Pid) {
    exists e :: e in events && Fails(e, p)
  }

  /** The outcome a start ends with: a failure if it failed, else a start if it spawned the daemon, else neither. */
  ghost function Verdict(spawners: seq<Pid>, failures: set<Pid>, p: Pid): Outcome {
    if p in failures then Failed else if p in spawners then Started else AlreadyRunning
  }

  /** Whoever has not settled on an outcome did not fail, and has spawned a daemon exactly when it waits for it. */
  ghost predicate Judged(s: State, failures: set<Pid>, p: Pid) {
    var pc := PcOf(s, p);
    if pc.Releasing? || pc.Closing? || pc.Done? then pc.outcome == Verdict(s.spawners, failures, p)
    else pc.Dead? || (p !in failures && (p in s.spawners <==> pc.Awaiting?))
  }

  ghost predicate AllJudged(s: State, failures: set<Pid>) {
    && (forall p | p in s.starts :: Judged(s, failures, p))
    && (forall p | p in failures || p in s.spawners :: p in s.starts)
  }

  ghost function FailuresOf(events: seq<Event>): set<Pid> {
    set e | e in events && IsFailure(e) :: e.p
  }

  lemma FailureKeepsJudged(s: State, e: Event, failures: set<Pid>)
    requires AllJudged(s, failures) && Enabled(s, e) && IsFailure(e)
    ensures AllJudged(Apply(s, e), failures + {e.p})
  {
  }

  lemma EarlyStepKeepsJudged(s: State, e: Event, failures: set<Pid>)
    requires AllJudged(s, failures) && Enabled(s, e) && !IsFailure(e) && IsEarly(e)
    ensures AllJudged(Apply(s, e), failures)
  {
  }

  lemma SpawningStepKeepsJudged(s: State, e: Event, failures: set<Pid>)
    requires AllJudged(s, failures) && Enabled(s, e) && !IsFailure(e) && !IsEarly(e) && IsSpawning(e)
    ensures AllJudged(Apply(s, e), failures)
  {
  }

  lemma LateStepKeepsJudged(s: State, e: Event, failures: set<Pid>)
    requires AllJudged(s, failures) && Enabled(s, e) && !IsFailure(e) && !IsEarly(e) && !IsSpawning(e)
    ensures AllJudged(Apply(s, e), failures)
  {
  }

  lemma StepKeepsJudged(s: State, e: Event, failures: set<Pid>)
    requires AllJudged(s, failures) && Enabled(s, e)
    ensures AllJudged(Apply(s, e), failures + FailuresOf([e]))
  {
    if IsFailure(e) {
      FailureKeepsJudged(s, e, failures);
      assert e in [e];
      assert FailuresOf([e]) == {e.p};
    } else {
      assert FailuresOf([e]) == {};
      assert failures + FailuresOf([e]) == failures;
      if IsEarly(e) {
        EarlyStepKeepsJudged(s, e, failures);
      } else if IsSpawning(e) {
        SpawningStepKeepsJudged(s, e, failures);
      } else {
        LateStepKeepsJudged(s, e, failures);
      }
    }
  }

  lemma {:induction false} RunsKeepJudged(s: State, events: seq<Event>, t: State, failures: set<Pid>)
    requires AllJudged(s, failures) && Run(s, events, t)
    ensures AllJudged(t, failures + FailuresOf(events))
    decreases |events|
  {
    if events == [] {
      assert failures + FailuresOf(events) == failures;
    } else {
      var e := events[0];
      StepKeepsJudged(s, e, failures);
      RunsKeepJudged(Apply(s, e), events[1..], t, failures + FailuresOf([e]));
      assert events == [e] + events[1..];
      assert failures + FailuresOf([e]) + FailuresOf(events[1..]) == failures + FailuresOf(events);
    }
  }

  /**
   In every run, whatever crashes or stops: a start that ended reports a failure exactly when a step of its own failed.
   Otherwise it reports a start when it spawned a daemon, and a daemon that runs already when it did not.
   */
  lemma EveryReportIsDeserved(s: State, events: seq<Event>, t: State, p: Pid)
    requires Initial(s) && Run(s, events, t) && PcOf(t, p).Done?
    ensures PcOf(t, p).outcome == Failed <==> SomethingFailed(events, p)
    ensures PcOf(t, p).outcome == Started <==> p in t.spawners && !SomethingFailed(events, p)
    ensures PcOf(t, p).outcome == AlreadyRunning <==> p !in t.spawners && !SomethingFailed(events, p)
  {
    RunsKeepJudged(s, events, t, {});
    assert Judged(t, {} + FailuresOf(events), p);
    assert p in FailuresOf(events) <==> SomethingFailed(events, p) by {
      if SomethingFailed(events, p) {
        var e :| e in events && Fails(e, p);
        assert e.p == p;
      }
    }
  }

  lemma {:induction false} KeepingRunsCompose(s: State, first: seq<Event>, t: State, second: seq<Event>, u: State)
    requires KeepingRun(s, first, t) && KeepingRun(t, second, u)
    ensures KeepingRun(s, first + second, u)
    decreases |first|
  {
    if first == [] {
      assert first + second == second;
    } else {
      KeepingRunsCompose(Apply(s, first[0]), first[1..], t, second, u);
      assert (first + second)[1..] == first[1..] + second;
    }
  }

  lemma KeepingRunOfOne(s: State, e: Event)
    requires Enabled(s, e) && Keeps(s, e)
    ensures KeepingRun(s, [e], Apply(s, e))
  {
    assert KeepingRun(Apply(s, e), [], Apply(s, e));
    assert [e][1..] == [];
  }

  // ----- nobody is locked out

  /** What a start does next when nothing fails and nobody else moves. */
  function Solo(s: State, p: Pid): Event {
    match PcOf(s, p)
    case Begin => if s.live then SeeLive(p) else SeeDown(p)
    case Poll => if s.live then PollLive(p) else PollDown(p)
    case Opening => Open(p)
    case Opened(inode) => if inode in s.owner then LockHeld(p) else Lock(p)
    case Locked(_) => ReadLinks(p)
    case Declining(_) => CloseStale(p)
    case Claimed(_) => Recheck(p)
    case Releasing(_, _) => Remove(p)
    case Closing(_, _) => Close(p)
    case Waiting => Retry(p)
    case _ => Crash(p)
  }

  /** The start is still arbitrating: neither granted nor at its end. One that conceded releases its claim first. */
  predicate Arbitrating(s: State, p: Pid) {
    var pc := PcOf(s, p);
    || pc.Begin? || pc.Poll? || pc.Opening? || pc.Opened? || pc.Locked? || pc.Declining? || pc.Claimed? || pc.Waiting?
    || (s.live && Reports(s, p, AlreadyRunning) && !pc.Done?)
  }

  /** The arbitration's answer: told of the daemon that answers, granted when there is none. */
  predicate Settled(s: State, p: Pid) {
    if s.live then PcOf(s, p) == Done(AlreadyRunning) else PcOf(s, p).Granted?
  }

  /** No other start has the file the path names locked. */
  predicate Free(s: State, p: Pid) {
    s.path.Some? && s.path.value in s.owner ==> s.owner[s.path.value] == p
  }

  function Remaining(s: State, p: Pid): nat {
    match PcOf(s, p)
    case Closing(_, _) => 1
    case Releasing(_, _) => 2
    case Claimed(_) => 3
    case Locked(inode) => if s.path == Some(inode) then 4 else 10
    case Opened(inode) => if s.path == Some(inode) then 5 else 11
    case Opening => 6
    case Poll => 7
    case Begin => 8
    case Waiting => 8
    case Declining(_) => 9
    case _ => 0
  }

  /** Only this start moved, and nothing was spawned or stopped. */
  ghost predicate OnlyMoved(s: State, t: State, p: Pid) {
    t.live == s.live && t.spawners == s.spawners && t.starts - {p} == s.starts - {p}
  }

  lemma SoloMovesAlone(s: State, p: Pid)
    requires Safe(s) && Arbitrating(s, p) && Free(s, p)
    ensures Enabled(s, Solo(s, p))
    ensures Free(Apply(s, Solo(s, p)), p) && OnlyMoved(s, Apply(s, Solo(s, p)), p)
  {
  }

  lemma SoloAdvances(s: State, p: Pid)
    requires Safe(s) && Arbitrating(s, p) && Free(s, p) && Enabled(s, Solo(s, p))
    ensures var t := Apply(s, Solo(s, p));
            Settled(t, p) || (Arbitrating(t, p) && Remaining(t, p) < Remaining(s, p))
  {
  }

  lemma SoloStep(s: State, p: Pid)
    requires Safe(s) && Arbitrating(s, p) && Free(s, p)
    ensures Enabled(s, Solo(s, p))
    ensures var t := Apply(s, Solo(s, p));
            Safe(t) && Free(t, p) && OnlyMoved(s, t, p)
              && (Settled(t, p) || (Arbitrating(t, p) && Remaining(t, p) < Remaining(s, p)))
  {
    SoloMovesAlone(s, p);
    SoloAdvances(s, p);
    StepKeepsSafe(s, Solo(s, p));
  }

  /** Where a start is after at most `n` of its own steps, stopping when it is no longer arbitrating. */
  ghost function SoloRun(s: State, p: Pid, n: nat): State
    decreases n
  {
    if n == 0 || !Arbitrating(s, p) || !Enabled(s, Solo(s, p)) then s else SoloRun(Apply(s, Solo(s, p)), p, n - 1)
  }

  /**
   Whatever crashes left behind, a start that nobody's lock stands in the way of is granted the claim
   when no daemon answers, and ends with the report of the daemon when one does, within eleven of its own steps.
   */
  lemma {:induction false} NobodyIsLockedOut(s: State, p: Pid) returns (events: seq<Event>, t: State)
    requires Safe(s) && Arbitrating(s, p) && Free(s, p)
    ensures KeepingRun(s, events, t) && Run(s, events, t)
    ensures Safe(t) && Settled(t, p) && OnlyMoved(s, t, p)
    ensures |events| <= Remaining(s, p) <= 11
    ensures forall n: nat | n >= Remaining(s, p) :: SoloRun(s, p, n) == t
    decreases Remaining(s, p)
  {
    SoloStep(s, p);
    var e := Solo(s, p);
    var next := Apply(s, e);
    if Settled(next, p) {
      events, t := [e], next;
      KeepingRunOfOne(s, e);
    } else {
      var rest;
      rest, t := NobodyIsLockedOut(next, p);
      events := [e] + rest;
      assert events[1..] == rest;
    }
    KeepingRunIsRun(s, events, t);
  }

  /** The death of a holder leaves the path's file unlocked, so the next start can take it in place. */
  lemma CrashFreesTheClaim(s: State, p: Pid, q: Pid)
    requires Safe(s) && Holds(s, p)
    ensures Enabled(s, Crash(p))
    ensures Free(Apply(s, Crash(p)), q) && Apply(s, Crash(p)).path == s.path
  {
    assert s.path == Some(s.starts[p].inode);
  }

  /** A newcomer that finds neither a daemon nor a locked claim spawns a daemon. */
  lemma NewcomerSpawns(s: State, q: Pid) returns (events: seq<Event>, t: State)
    requires Safe(s) && q !in s.starts && !s.live && Free(s, q)
    ensures KeepingRun(s, events, t) && t.spawners == s.spawners + [q]
  {
    var arrived := Apply(s, Arrive(q));
    StepKeepsSafe(s, Arrive(q));
    KeepingRunOfOne(s, Arrive(q));
    var solo, granted := NobodyIsLockedOut(arrived, q);
    KeepingRunsCompose(s, [Arrive(q)], arrived, solo, granted);
    t := Apply(granted, Spawn(q));
    KeepingRunOfOne(granted, Spawn(q));
    KeepingRunsCompose(s, [Arrive(q)] + solo, granted, [Spawn(q)], t);
    events := [Arrive(q)] + solo + [Spawn(q)];
  }

  /** Whenever a holder dies while it waits for the daemon it spawned, the next start can spawn a second one. */
  lemma CrashWhileAwaitingSpawnsAnother(s: State, p: Pid, q: Pid) returns (events: seq<Event>, t: State)
    requires Safe(s) && PcOf(s, p).Awaiting? && !s.live && q !in s.starts
    ensures Run(s, events, t) && t.spawners == s.spawners + [q]
  {
    CrashFreesTheClaim(s, p, q);
    StepKeepsSafe(s, Crash(p));
    var rest;
    rest, t := NewcomerSpawns(Apply(s, Crash(p)), q);
    KeepingRunIsRun(Apply(s, Crash(p)), rest, t);
    events := [Crash(p)] + rest;
    assert events[1..] == rest;
  }

  /** The same when the holder runs out of patience: it releases its claim before its daemon answers. */
  lemma GivingUpSpawnsAnother(s: State, p: Pid, q: Pid) returns (events: seq<Event>, t: State)
    requires Safe(s) && PcOf(s, p).Awaiting? && !s.live && q !in s.starts
    ensures Run(s, events, t) && t.spawners == s.spawners + [q]
  {
    var s1 := Apply(s, GiveUp(p));
    var s2 := Apply(s1, Remove(p));
    StepKeepsSafe(s, GiveUp(p));
    StepKeepsSafe(s1, Remove(p));
    var rest;
    rest, t := NewcomerSpawns(s2, q);
    KeepingRunIsRun(s2, rest, t);
    assert ([Remove(p)] + rest)[1..] == rest;
    assert Run(s1, [Remove(p)] + rest, t);
    events := [GiveUp(p)] + ([Remove(p)] + rest);
    assert events[1..] == [Remove(p)] + rest;
  }

  lemma KeepingRunFrom(s: State, e: Event, rest: seq<Event>, t: State)
    requires Enabled(s, e) && Keeps(s, e) && KeepingRun(Apply(s, e), rest, t)
    ensures KeepingRun(s, [e] + rest, t)
  {
    assert ([e] + rest)[1..] == rest;
  }

  lemma SpawnerReports(s: State, p: Pid) returns (events: seq<Event>, t: State)
    requires PcOf(s, p).Awaiting? && s.live
    ensures events == [SeeUp(p), Remove(p), Close(p)] && KeepingRun(s, events, t)
    ensures PcOf(t, p) == Done(Started) && t.live && t.spawners == s.spawners && t.path == None
  {
    var s3 := Apply(s, SeeUp(p));
    var s4 := Apply(s3, Remove(p));
    t := Apply(s4, Close(p));
    KeepingRunFrom(s4, Close(p), [], t);
    KeepingRunFrom(s3, Remove(p), [Close(p)], t);
    KeepingRunFrom(s, SeeUp(p), [Remove(p)] + [Close(p)], t);
    events := [SeeUp(p)] + ([Remove(p)] + [Close(p)]);
    assert [Close(p)] + [] == [Close(p)];
  }

  /** A granted start whose daemon comes up reports that it started it. */
  lemma GrantedStartCompletes(s: State, p: Pid) returns (events: seq<Event>, t: State)
    requires PcOf(s, p).Granted?
    ensures events == [Spawn(p), DaemonUp, SeeUp(p), Remove(p), Close(p)] && KeepingRun(s, events, t)
    ensures PcOf(t, p) == Done(Started) && t.live && t.spawners == s.spawners + [p] && t.path == None
  {
    var s1 := Apply(s, Spawn(p));
    var rest;
    rest, t := SpawnerReports(Apply(s1, DaemonUp), p);
    KeepingRunFrom(s1, DaemonUp, rest, t);
    KeepingRunFrom(s, Spawn(p), [DaemonUp] + rest, t);
    events := [Spawn(p)] + ([DaemonUp] + rest);
  }

  lemma SpawnerGivesUp(s: State, p: Pid) returns (events: seq<Event>, t: State)
    requires PcOf(s, p).Awaiting?
    ensures events == [GiveUp(p), Remove(p), Close(p)] && Run(s, events, t)
    ensures PcOf(t, p) == Done(Failed) && t.live == s.live && t.warming == s.warming && t.path == None
  {
    var s3 := Apply(s, GiveUp(p));
    var s4 := Apply(s3, Remove(p));
    t := Apply(s4, Close(p));
    RunFrom(s4, Close(p), [], t);
    RunFrom(s3, Remove(p), [Close(p)], t);
    RunFrom(s, GiveUp(p), [Remove(p)] + [Close(p)], t);
    events := [GiveUp(p)] + ([Remove(p)] + [Close(p)]);
    assert [Close(p)] + [] == [Close(p)];
  }

  /** A granted start whose daemon fails gives up in the end, and reports the failure. */
  lemma FailedDaemonIsReported(s: State, p: Pid) returns (events: seq<Event>, t: State)
    requires PcOf(s, p).Granted?
    ensures events == [Spawn(p), DaemonFails, GiveUp(p), Remove(p), Close(p)] && Run(s, events, t)
    ensures PcOf(t, p) == Done(Failed) && t.live == s.live && t.warming == s.warming && t.path == None
  {
    var s1 := Apply(s, Spawn(p));
    var rest;
    rest, t := SpawnerGivesUp(Apply(s1, DaemonFails), p);
    RunFrom(s1, DaemonFails, rest, t);
    RunFrom(s, Spawn(p), [DaemonFails] + rest, t);
    events := [Spawn(p)] + ([DaemonFails] + rest);
  }

  lemma RunFrom(s: State, e: Event, rest: seq<Event>, t: State)
    requires Enabled(s, e) && Run(Apply(s, e), rest, t)
    ensures Run(s, [e] + rest, t)
  {
    assert ([e] + rest)[1..] == rest;
  }

  /** A step of a start that neither fails, nor kills it, nor replaces a daemon. */
  predicate IsPlain(e: Event) {
    && !e.DaemonUp? && !e.DaemonFails? && !e.DaemonDown? && !e.Crash? && !e.ReplaceStale? && !e.RemoveFails?
    && !IsFailure(e)
  }

  /** What a start does next is decided by the state: no two plain steps of it are possible. */
  lemma OneStepAtATime(s: State, d: Event, e: Event)
    requires Enabled(s, d) && Enabled(s, e) && IsPlain(d) && IsPlain(e) && d.p == e.p
    ensures d == e
  {
  }

  ghost function SpawnsIn(events: seq<Event>): nat {
    if events == [] then 0 else (if events[0].Spawn? then 1 else 0) + SpawnsIn(events[1..])
  }

  /** How many spawned daemons came up or failed to. */
  ghost function SettledIn(events: seq<Event>): nat {
    if events == [] then 0 else (if events[0].DaemonUp? || events[0].DaemonFails? then 1 else 0) + SettledIn(events[1..])
  }

  lemma StepCountsDaemons(s: State, e: Event)
    requires Enabled(s, e)
    ensures Apply(s, e).warming + (if e.DaemonUp? || e.DaemonFails? then 1 else 0)
         == s.warming + (if e.Spawn? then 1 else 0)
    ensures |Apply(s, e).spawners| == |s.spawners| + (if e.Spawn? then 1 else 0)
  {
  }

  /** Every daemon spawned in a run came up, failed to, or is on its way. */
  lemma {:induction false} DaemonsAddUp(s: State, events: seq<Event>, t: State)
    requires Run(s, events, t)
    ensures t.warming + SettledIn(events) == s.warming + SpawnsIn(events)
    ensures |t.spawners| == |s.spawners| + SpawnsIn(events)
    decreases |events|
  {
    if events != [] {
      StepCountsDaemons(s, events[0]);
      DaemonsAddUp(Apply(s, events[0]), events[1..], t);
    }
  }

  // ----- when another daemon is spawned

  /** Some run in which nobody loses a daemon or its spawner spawns another daemon. */
  ghost predicate AnotherSpawn(s: State) {
    exists events, t :: KeepingRun(s, events, t) && |t.spawners| > |s.spawners|
  }

  ghost predicate SomeoneAwaits(s: State) {
    exists p :: p in s.starts && s.starts[p].Awaiting?
  }

  /** A daemon answers or its spawner waits for it, and no start is about to spawn. */
  ghost predicate Covered(s: State) {
    (s.live || SomeoneAwaits(s)) && forall p | p in s.starts :: !s.starts[p].Granted?
  }

  /** While a start waits for its daemon, nobody else holds the claim. */
  lemma AwaiterIsAlone(s: State, p: Pid)
    requires Safe(s) && PcOf(s, p).Awaiting?
    ensures forall q | q in s.starts && Holds(s, q) :: q == p
    ensures forall q | q in s.starts :: !s.starts[q].Claimed? && !s.starts[q].Granted?
    ensures forall q | q in s.starts && s.starts[q].Awaiting? :: q == p
  {
    forall q | q in s.starts && Holds(s, q)
      ensures q == p
    {
      MutualExclusion(s, p, q);
    }
    assert forall q | q in s.starts && (s.starts[q].Claimed? || s.starts[q].Granted? || s.starts[q].Awaiting?) :: Holds(s, q);
  }

  lemma StepKeepsCovered(s: State, e: Event)
    requires Safe(s) && Covered(s) && Enabled(s, e) && Keeps(s, e)
    ensures Covered(Apply(s, e)) && Apply(s, e).spawners == s.spawners
  {
    if !s.live {
      var p :| p in s.starts && s.starts[p].Awaiting?;
      AwaiterIsAlone(s, p);
      assert Apply(s, e).live || (p in Apply(s, e).starts && Apply(s, e).starts[p].Awaiting?);
    }
  }

  lemma {:induction false} CoveredRunsStayCovered(s: State, events: seq<Event>, t: State)
    requires Safe(s) && Covered(s) && KeepingRun(s, events, t)
    ensures Safe(t) && Covered(t) && t.spawners == s.spawners
    decreases |events|
  {
    if events != [] {
      StepKeepsSafe(s, events[0]);
      StepKeepsCovered(s, events[0]);
      CoveredRunsStayCovered(Apply(s, events[0]), events[1..], t);
    }
  }

  /** There is always a start that has not arrived yet. */
  lemma {:induction false} SomeoneIsNew(pids: set<Pid>) returns (q: Pid)
    ensures forall p | p in pids :: p < q
  {
    if pids == {} {
      q := 0;
    } else {
      var p :| p in pids;
      q := SomeoneIsNew(pids - {p});
      assert forall other | other in pids :: other == p || other in pids - {p};
      q := if p < q then q else p + 1;
    }
  }

  lemma GrantedSpawns(s: State, p: Pid)
    requires PcOf(s, p).Granted?
    ensures AnotherSpawn(s)
  {
    KeepingRunOfOne(s, Spawn(p));
    assert |Apply(s, Spawn(p)).spawners| == |s.spawners| + 1;
  }

  lemma UnattendedSpawns(s: State)
    requires Safe(s) && !s.live && !SomeoneAwaits(s)
    ensures AnotherSpawn(s)
  {
    var q := SomeoneIsNew(s.starts.Keys);
    if Free(s, q) {
      var events, t := NewcomerSpawns(s, q);
      assert |t.spawners| == |s.spawners| + 1;
    } else {
      var p := s.owner[s.path.value];
      assert HasLock(s.starts[p]) && s.starts[p].inode == s.path.value;
      var freed := Apply(s, Crash(p));
      StepKeepsSafe(s, Crash(p));
      KeepingRunOfOne(s, Crash(p));
      var rest, t := NewcomerSpawns(freed, q);
      KeepingRunsCompose(s, [Crash(p)], freed, rest, t);
      assert |t.spawners| == |s.spawners| + 1;
    }
  }

  /** Another daemon can be spawned exactly when none is covered. */
  lemma AnotherSpawnExactly(s: State)
    requires Safe(s)
    ensures AnotherSpawn(s) <==> !Covered(s)
  {
    if Covered(s) {
      forall events, t | KeepingRun(s, events, t)
        ensures t.spawners == s.spawners
      {
        CoveredRunsStayCovered(s, events, t);
      }
    } else if exists p :: p in s.starts && s.starts[p].Granted? {
      var p :| p in s.starts && s.starts[p].Granted?;
      GrantedSpawns(s, p);
    } else {
      UnattendedSpawns(s);
    }
  }

  /**
   The event loses the daemon or its spawner: the spawner dies or gives up before the daemon answers, or
   the daemon stops answering and nobody waits for another.
   */
  ghost predicate Loses(s: State, e: Event) {
    || ((e.Crash? || e.GiveUp?) && PcOf(s, e.p).Awaiting? && !s.live)
    || ((e.DaemonDown? || e.ReplaceStale?) && !SomeoneAwaits(s))
  }

  lemma LosingUncovers(s: State, e: Event)
    requires Safe(s) && Covered(s) && Enabled(s, e) && Loses(s, e)
    ensures !Covered(Apply(s, e))
  {
    var t := Apply(s, e);
    if e.Crash? || e.GiveUp? {
      AwaiterIsAlone(s, e.p);
    }
    forall q | q in t.starts
      ensures !t.starts[q].Awaiting?
    {
      assert PcOf(t, q).Awaiting? ==> PcOf(s, q).Awaiting?;
    }
  }

  lemma StoppingKeepsCovered(s: State, e: Event)
    requires Covered(s) && Enabled(s, e) && (e.DaemonDown? || e.ReplaceStale?) && SomeoneAwaits(s)
    ensures Covered(Apply(s, e))
  {
    var p :| p in s.starts && s.starts[p].Awaiting?;
    assert p in Apply(s, e).starts && Apply(s, e).starts[p].Awaiting?;
  }

  /** Once a daemon is covered, another is spawned after an event exactly when the event loses it. */
  lemma AnotherSpawnExactlyAfterLoss(s: State, e: Event)
    requires Safe(s) && Covered(s) && Enabled(s, e)
    ensures AnotherSpawn(Apply(s, e)) <==> Loses(s, e)
  {
    StepKeepsSafe(s, e);
    AnotherSpawnExactly(Apply(s, e));
    if Loses(s, e) {
      LosingUncovers(s, e);
    } else if e.DaemonDown? || e.ReplaceStale? {
      StoppingKeepsCovered(s, e);
    } else {
      StepKeepsCovered(s, e);
    }
  }

  /**
   After the first spawn of a race in which nothing was lost, the next event makes a second spawn
   possible exactly when it loses the daemon or its spawner.
   */
  lemma SecondSpawnExactlyAfterLoss(s: State, events: seq<Event>, t: State, e: Event)
    requires Initial(s) && KeepingRun(s, events, t) && t.spawners != [] && Enabled(t, e)
    ensures AnotherSpawn(Apply(t, e)) <==> Loses(t, e)
  {
    KeepingRunsKeepOneDaemon(s, events, t, {});
    assert t.spawners[0] in t.spawners;
    AnotherSpawnExactlyAfterLoss(t, e);
  }

  lemma GivingUpLateRun(s: State, p: Pid) returns (events: seq<Event>, t: State)
    requires PcOf(s, p).Awaiting? && s.live
    ensures KeepingRun(s, events, t) && PcOf(t, p) == Done(Failed) && t.live
  {
    var s1 := Apply(s, GiveUp(p));
    var s2 := Apply(s1, Remove(p));
    t := Apply(s2, Close(p));
    KeepingRunOfOne(s, GiveUp(p));
    KeepingRunOfOne(s1, Remove(p));
    KeepingRunOfOne(s2, Close(p));
    KeepingRunsCompose(s, [GiveUp(p)], s1, [Remove(p)], s2);
    KeepingRunsCompose(s, [GiveUp(p)] + [Remove(p)], s2, [Close(p)], t);
    events := [GiveUp(p)] + [Remove(p)] + [Close(p)];
  }

  /** A spawner that gives up once its daemon answers ends in failure, with the daemon running and alone. */
  lemma GivingUpLateOnlyMisreports(s: State, p: Pid) returns (events: seq<Event>, t: State)
    requires Safe(s) && PcOf(s, p).Awaiting? && s.live
    ensures KeepingRun(s, events, t)
    ensures PcOf(t, p) == Done(Failed) && t.live && t.spawners == s.spawners && !AnotherSpawn(t)
  {
    events, t := GivingUpLateRun(s, p);
    AwaiterIsAlone(s, p);
    CoveredRunsStayCovered(s, events, t);
    AnotherSpawnExactly(t);
  }
}
