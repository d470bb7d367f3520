/**
 The task scheduler as interleaved steps of any number of cores.  A step is what a core does between two lock
 operations: on the task list (a read-write lock whose readers may include one that can be upgraded) and on single
 tasks (a scanning core keeps the write lock of its best candidate).  Steps of different cores interleave freely.
 */
module Scheduler {
  import opened Wrappers

  const MAX_TICK_MISS: nat := 10

  type CoreId = nat
  type TaskRef = nat

  datatype TaskState = Running(since: nat) | Pending

  datatype Task = Task(id: nat, priority: nat, state: TaskState)

  /** The scan's best candidate: the index it was found at and the task whose lock is kept. */
  datatype Best = Best(index: nat, task: TaskRef)

  /** Where a core is in its kernel code. */
  datatype Pc =
    | Idle
    | Ticking
    | Clocked(clock: nat)
    | Starting(clock: nat)
    | Listed(clock: nat)
    | Releasing(clock: nat, task: TaskRef)
    | Scanning(clock: nat, i: nat, best: Option<Best>)
    | Probing(clock: nat, i: nat, best: Option<Best>, probed: TaskRef)
    | Marked(index: nat, task: TaskRef)
    | Loading
    | Exiting(task: TaskRef)
    | Searching(task: TaskRef, i: nat)
    | Peeking(task: TaskRef, i: nat, peeked: TaskRef)
    | Found(task: TaskRef, i: nat)

  /** The list's lock has readers, at most one upgradeable reader beside them, or a single writer.  A core loads a
      program while it is the writer; it takes the lock for writing, removes a task and lets go within one step. */
  datatype System = System(
    tasks: seq<TaskRef>,
    store: map<TaskRef, Task>,
    current: map<CoreId, TaskRef>,
    pc: map<CoreId, Pc>,
    miss: map<CoreId, nat>,
    readers: set<CoreId>,
    upgradeable: Option<CoreId>,
    writer: Option<CoreId>,
    clock: nat,
    ids: nat)

  datatype Step =
    | TickLock | TickMiss | FetchClock | Downgrade | InitLock | InitPush(made: TaskRef)
    | Keep | Expire | NoCurrent | Release
    | ScanSkip | ScanProbe | ScanDrop | ScanTake | ScanSwap | ScanDone | Mark | Adopt
    | ExitTake | ExitLock | SearchRead | SearchNext | SearchHit | SearchMiss | Remove
    | SpawnLock | SpawnFail | SpawnPush(made: TaskRef)

  function LifeExpectancy(t: Task, numcores: nat): nat {
    (t.priority + 10) * numcores
  }

  /** The tasks whose write lock a core holds at a position: its candidate's, and that of the task it looks at. */
  function WriteGuards(pc: Pc): set<TaskRef> {
    match pc
    case Scanning(_, _, Some(b)) => {b.task}
    case Probing(_, _, None, t) => {t}
    case Probing(_, _, Some(b), t) => {b.task, t}
    case Marked(_, t) => {t}
    case _ => {}
  }

  /** The task whose read lock an exiting core holds while it compares ids. */
  function ReadGuards(pc: Pc): set<TaskRef> {
    match pc
    case Peeking(_, _, t) => {t}
    case _ => {}
  }

  ghost predicate WrittenByOther(s: System, c: CoreId, t: TaskRef) {
    exists d :: d in s.pc && d != c && t in WriteGuards(s.pc[d])
  }

  ghost predicate LockedByOther(s: System, c: CoreId, t: TaskRef) {
    exists d :: d in s.pc && d != c && t in WriteGuards(s.pc[d]) + ReadGuards(s.pc[d])
  }

  function NewTask(s: System): Task {
    Task(s.ids + 1, 0, Pending)
  }

  function Pushed(s: System, made: TaskRef): System {
    s.(tasks := s.tasks + [made], store := s.store[made := NewTask(s)], ids := s.ids + 1)
  }

  function At(s: System, c: CoreId, pc: Pc): System {
    s.(pc := s.pc[c := pc])
  }

  function SetState(s: System, t: TaskRef, st: TaskState): System
    requires t in s.store
  {
    s.(store := s.store[t := s.store[t].(state := st)])
  }

  /** The list's lock can be taken in upgradeable mode. */
  predicate CanLock(s: System) {
    s.upgradeable.None? && s.writer.None?
  }

  /** The first half of a tick: take the list's lock, read the clock, load /bin/init if there is no task, and judge the
      task that runs. */
  ghost predicate TickNext(numcores: nat, s: System, c: CoreId, step: Step, s': System)
    requires c in s.pc && c in s.miss
  {
    match (step, s.pc[c])
    case (TickLock, Idle) =>
      CanLock(s) && s' == At(s, c, Ticking).(upgradeable := Some(c), miss := s.miss[c := 0])
    case (TickMiss, Idle) =>
      !CanLock(s) && s.miss[c] <= MAX_TICK_MISS && s' == s.(miss := s.miss[c := s.miss[c] + 1])
    case (FetchClock, Ticking) =>
      s' == At(s, c, Clocked(s.clock)).(clock := s.clock + 1)
    case (InitLock, Clocked(clock)) =>
      s.tasks == [] && s.readers == {} && s' == At(s, c, Starting(clock)).(upgradeable := None, writer := Some(c))
    case (Downgrade, Clocked(clock)) =>
      s.tasks != [] && s' == At(s, c, Listed(clock)).(upgradeable := None, readers := s.readers + {c})
    case (NoCurrent, Listed(clock)) =>
      c !in s.current && s' == At(s, c, Scanning(clock, 0, None))
    case (Keep, Listed(clock)) =>
      && c in s.current && s.current[c] in s.store && !WrittenByOther(s, c, s.current[c])
      && s.store[s.current[c]].state.Running?
      && s.clock - s.store[s.current[c]].state.since < LifeExpectancy(s.store[s.current[c]], numcores)
      && s' == At(s, c, Idle).(readers := s.readers - {c})
    case (Expire, Listed(clock)) =>
      && c in s.current && s.current[c] in s.store && !WrittenByOther(s, c, s.current[c])
      && s.store[s.current[c]].state.Running?
      && s.clock - s.store[s.current[c]].state.since >= LifeExpectancy(s.store[s.current[c]], numcores)
      && s' == At(s, c, Releasing(clock, s.current[c])).(current := s.current - {c})
    case _ => false
  }

  /** The second half: look for the best pending task and adopt it.  A task whose lock another core holds, if only for a
      moment, is skipped. */
  ghost predicate ScanNext(numcores: nat, s: System, c: CoreId, step: Step, s': System)
    requires c in s.pc && c in s.miss
  {
    match (step, s.pc[c])
    case (ScanSkip, Scanning(clock, i, best)) =>
      i < |s.tasks| && LockedByOther(s, c, s.tasks[i]) && s' == At(s, c, Scanning(clock, i + 1, best))
    case (ScanProbe, Scanning(clock, i, best)) =>
      i < |s.tasks| && !LockedByOther(s, c, s.tasks[i]) && s' == At(s, c, Probing(clock, i, best, s.tasks[i]))
    case (ScanDrop, Probing(clock, i, best, t)) =>
      && t in s.store && (best.Some? ==> best.value.task in s.store)
      && (!s.store[t].state.Pending? || (best.Some? && s.store[t].priority <= s.store[best.value.task].priority))
      && s' == At(s, c, Scanning(clock, i + 1, best))
    case (ScanTake, Probing(clock, i, None, t)) =>
      t in s.store && s.store[t].state.Pending? && s' == At(s, c, Scanning(clock, i + 1, Some(Best(i, t))))
    case (ScanSwap, Probing(clock, i, Some(b), t)) =>
      // the task is replaced, the index is not
      && t in s.store && s.store[t].state.Pending? && b.task in s.store
      && s.store[t].priority > s.store[b.task].priority
      && s' == At(s, c, Scanning(clock, i + 1, Some(Best(b.index, t))))
    case (ScanDone, Scanning(clock, i, None)) =>
      i >= |s.tasks| && s' == At(s, c, Idle).(readers := s.readers - {c})
    case (Adopt, Marked(index, t)) =>
      && index < |s.tasks|
      && s' == At(s, c, Idle).(readers := s.readers - {c}, current := s.current[c := s.tasks[index]])
    case _ => false
  }

  /** An exiting task: the core lets go of it, then looks it up in the list, reading one task's id after the other. */
  ghost predicate ExitNext(numcores: nat, s: System, c: CoreId, step: Step, s': System)
    requires c in s.pc && c in s.miss
  {
    match (step, s.pc[c])
    case (ExitTake, Idle) =>
      c in s.current && s' == At(s, c, Exiting(s.current[c])).(current := s.current - {c})
    case (ExitLock, Exiting(t)) =>
      CanLock(s) && s' == At(s, c, Searching(t, 0)).(upgradeable := Some(c))
    case (SearchRead, Searching(t, i)) =>
      i < |s.tasks| && !WrittenByOther(s, c, s.tasks[i]) && s' == At(s, c, Peeking(t, i, s.tasks[i]))
    case (SearchNext, Peeking(t, i, u)) =>
      t in s.store && u in s.store && s.store[u].id != s.store[t].id && s' == At(s, c, Searching(t, i + 1))
    case (SearchHit, Peeking(t, i, u)) =>
      t in s.store && u in s.store && s.store[u].id == s.store[t].id && s' == At(s, c, Found(t, i))
    case (SearchMiss, Searching(t, i)) =>
      i >= |s.tasks| && s' == At(s, c, Idle).(upgradeable := None)
    case _ => false
  }

  /** A running task spawns another: its core has the list to itself until the program is loaded, or cannot be. */
  ghost predicate SpawnNext(numcores: nat, s: System, c: CoreId, step: Step, s': System)
    requires c in s.pc && c in s.miss
  {
    match (step, s.pc[c])
    case (SpawnLock, Idle) =>
      c in s.current && CanLock(s) && s.readers == {} && s' == At(s, c, Loading).(writer := Some(c))
    case (SpawnFail, Loading) => s' == At(s, c, Idle).(writer := None)
    case _ => false
  }

  /** The steps that change a task's state or the list. */
  ghost predicate ChangeNext(numcores: nat, s: System, c: CoreId, step: Step, s': System)
    requires c in s.pc && c in s.miss
  {
    match (step, s.pc[c])
    case (Release, Releasing(clock, t)) =>
      t in s.store && !LockedByOther(s, c, t) && s' == At(SetState(s, t, Pending), c, Scanning(clock, 0, None))
    case (Mark, Scanning(clock, i, Some(b))) =>
      i >= |s.tasks| && b.task in s.store && s' == At(SetState(s, b.task, Running(clock)), c, Marked(b.index, b.task))
    case (InitPush(made), Starting(clock)) =>
      made !in s.store && s' == At(Pushed(s, made), c, Listed(clock)).(writer := None, readers := s.readers + {c})
    case (SpawnPush(made), Loading) =>
      made !in s.store && s' == At(Pushed(s, made), c, Idle).(writer := None)
    case (Remove, Found(t, i)) =>
      && s.readers == {} && i < |s.tasks|
      && s' == At(s, c, Idle).(upgradeable := None, tasks := s.tasks[..i] + s.tasks[i + 1..])
    case _ => false
  }

  ghost predicate Next(numcores: nat, s: System, c: CoreId, step: Step, s': System) {
    && c in s.pc && c in s.miss
    && (|| TickNext(numcores, s, c, step, s')
        || ScanNext(numcores, s, c, step, s')
        || ExitNext(numcores, s, c, step, s')
        || SpawnNext(numcores, s, c, step, s')
        || ChangeNext(numcores, s, c, step, s'))
  }

  ghost predicate Init(s: System) {
    && s.tasks == [] && s.store == map[] && s.current == map[] && s.readers == {} && s.upgradeable == None
    && s.writer == None && s.clock == 0 && s.ids == 0 && s.pc.Keys == s.miss.Keys
    && (forall c :: c in s.pc ==> s.pc[c] == Idle && s.miss[c] == 0)
  }

  // ---------------------------------------------------------------- the invariant

  predicate Reads(pc: Pc) {
    pc.Listed? || pc.Releasing? || pc.Scanning? || pc.Probing? || pc.Marked?
  }

  predicate Upgradeable(pc: Pc) {
    pc.Ticking? || pc.Clocked? || pc.Searching? || pc.Peeking? || pc.Found?
  }

  predicate Writes(pc: Pc) {
    pc.Starting? || pc.Loading?
  }

  /** A writer has the list to itself. */
  predicate Alone(s: System) {
    s.writer.Some? ==> s.readers == {} && s.upgradeable == None
  }

  /** Who holds the list's lock, and how, shows in the cores' positions. */
  ghost predicate LocksInv(s: System) {
    && (forall c :: c in s.readers <==> c in s.pc && Reads(s.pc[c]))
    && (forall c :: s.upgradeable == Some(c) <==> c in s.pc && Upgradeable(s.pc[c]))
    && (forall c :: s.writer == Some(c) <==> c in s.pc && Writes(s.pc[c])) && Alone(s)
    && (forall c :: c in s.current ==> c in s.pc)
  }

  /** The list holds distinct tasks with distinct ids, all of priority 0. */
  ghost predicate ListInv(s: System) {
    && (forall i :: 0 <= i < |s.tasks| ==> s.tasks[i] in s.store)
    && (forall i, j :: 0 <= i < j < |s.tasks| ==> s.tasks[i] != s.tasks[j])
    && (forall t :: t in s.store ==> s.store[t].id <= s.ids && s.store[t].priority == 0)
    && (forall t, u :: t in s.store && u in s.store && t != u ==> s.store[t].id != s.store[u].id)
  }

  /** The task a core answers for: the one it runs, is releasing, has just chosen, or is removing. */
  function Claim(s: System, c: CoreId): Option<TaskRef>
    requires c in s.pc
  {
    match s.pc[c]
    case Releasing(_, t) => Some(t)
    case Marked(_, t) => Some(t)
    case Exiting(t) => Some(t)
    case Searching(t, _) => Some(t)
    case Peeking(t, _, _) => Some(t)
    case Found(t, _) => Some(t)
    case Scanning(_, _, _) => None
    case Probing(_, _, _, _) => None
    case _ => if c in s.current then Some(s.current[c]) else None
  }

  predicate HasCurrent(pc: Pc) {
    pc.Idle? || pc.Ticking? || pc.Clocked? || pc.Starting? || pc.Listed? || pc.Loading?
  }

  /** Claimed tasks are listed and Running, and claimed by one core; a core between taking and replacing its task has
      no current one. */
  ghost predicate ClaimsInv(s: System) {
    && (forall c :: c in s.pc && Claim(s, c).Some? ==>
          && Claim(s, c).value in s.tasks && Claim(s, c).value in s.store && s.store[Claim(s, c).value].state.Running?)
    && (forall c, d :: c in s.pc && d in s.pc && c != d && Claim(s, c).Some? ==> Claim(s, c) != Claim(s, d))
    && (forall c :: c in s.current && c in s.pc ==> HasCurrent(s.pc[c]))
  }

  /** What a core's position says about the list: a scan's candidate is the task at its index and still Pending, a
      task just marked is the one at its index, and the search of an exiting core has not passed its task. */
  ghost predicate PcOk(s: System, pc: Pc) {
    match pc
    case Scanning(_, _, best) => BestOk(s, best)
    case Probing(_, i, best, t) => BestOk(s, best) && i < |s.tasks| && s.tasks[i] == t
    case Marked(index, t) => index < |s.tasks| && s.tasks[index] == t
    case Searching(t, i) => NotBefore(s, t, i)
    case Peeking(t, i, u) => NotBefore(s, t, i) && i < |s.tasks| && s.tasks[i] == u
    case Found(t, i) => i < |s.tasks| && s.tasks[i] == t
    case _ => true
  }

  ghost predicate BestOk(s: System, best: Option<Best>) {
    best.Some? ==>
      && best.value.index < |s.tasks| && s.tasks[best.value.index] == best.value.task
      && best.value.task in s.store && s.store[best.value.task].state.Pending?
  }

  ghost predicate NotBefore(s: System, t: TaskRef, i: nat) {
    forall j :: 0 <= j < |s.tasks| && j < i ==> s.tasks[j] != t
  }

  /** No task's lock is held by two cores, unless both only read. */
  ghost predicate GuardsInv(pcs: map<CoreId, Pc>) {
    forall c, d, t :: c in pcs && d in pcs && c != d && t in WriteGuards(pcs[c]) ==>
      t !in WriteGuards(pcs[d]) && t !in ReadGuards(pcs[d])
  }

  ghost predicate Positions(s: System) {
    forall c :: c in s.pc ==> PcOk(s, s.pc[c])
  }

  /** Positions are right, and so are the locks of single tasks. */
  ghost predicate ScansInv(s: System) {
    Positions(s) && GuardsInv(s.pc)
  }

  predicate InThePast(pc: Pc, clock: nat) {
    pc.Clocked? || pc.Starting? || pc.Listed? || pc.Releasing? || pc.Scanning? || pc.Probing? ==> pc.clock < clock
  }

  /** Every time a task started lies in the past, and so does every clock value a core carries. */
  ghost predicate TimesInv(s: System) {
    && (forall t :: t in s.store && s.store[t].state.Running? ==> s.store[t].state.since < s.clock)
    && (forall c :: c in s.pc ==> InThePast(s.pc[c], s.clock))
  }

  ghost predicate Inv(s: System) {
    LocksInv(s) && ListInv(s) && ClaimsInv(s) && ScansInv(s) && TimesInv(s)
  }

  // ---------------------------------------------------------------- steps that only move a core

  /** The list's lock is held by the others as before, and by the core as the position says. */
  ghost predicate Relocked(s: System, c: CoreId, pc: Pc, s': System) {
    && (forall d :: d != c ==> (d in s'.readers <==> d in s.readers)) && (c in s'.readers <==> Reads(pc))
    && (forall d :: d != c ==> (s'.upgradeable == Some(d) <==> s.upgradeable == Some(d)))
    && (s'.upgradeable == Some(c) <==> Upgradeable(pc))
    && (forall d :: d != c ==> (s'.writer == Some(d) <==> s.writer == Some(d)))
    && (s'.writer == Some(c) <==> Writes(pc))
    && Alone(s')
  }

  lemma KeepsLock(s: System, c: CoreId, pc: Pc, s': System)
    requires LocksInv(s) && c in s.pc && s'.readers == s.readers && s'.upgradeable == s.upgradeable
    requires s'.writer == s.writer
    requires Reads(pc) == Reads(s.pc[c]) && Upgradeable(pc) == Upgradeable(s.pc[c]) && Writes(pc) == Writes(s.pc[c])
    ensures Relocked(s, c, pc, s')
  {
  }

  lemma StopsReading(s: System, c: CoreId, s': System)
    requires LocksInv(s) && c in s.pc && Reads(s.pc[c])
    requires s'.readers == s.readers - {c} && s'.upgradeable == s.upgradeable && s'.writer == s.writer
    ensures Relocked(s, c, Idle, s')
  {
    assert !Upgradeable(s.pc[c]) && !Writes(s.pc[c]);
  }

  /** The core moves to `pc`, taking and leaving the list's lock as the position says, without changing tasks or its
      claim. */
  ghost predicate Moves(s: System, c: CoreId, pc: Pc, s': System) {
    && c in s.pc && s'.pc == s.pc[c := pc]
    && s'.tasks == s.tasks && s'.store == s.store && s'.ids == s.ids && s'.clock >= s.clock
    && (forall d :: d != c ==> (d in s'.current <==> d in s.current))
    && (forall d :: d != c && d in s.current && d in s'.current ==> s'.current[d] == s.current[d])
    && Relocked(s, c, pc, s')
    && Claim(s', c) == Claim(s, c) && (c in s'.current ==> HasCurrent(pc))
    && PcOk(s, pc) && InThePast(pc, s'.clock)
    && (forall t :: t in WriteGuards(pc) ==> !LockedByOther(s, c, t))
    && (forall t :: t in ReadGuards(pc) ==> !WrittenByOther(s, c, t))
  }

  lemma MovesKeepsLocks(s: System, c: CoreId, pc: Pc, s': System)
    requires LocksInv(s) && Moves(s, c, pc, s')
    ensures LocksInv(s')
  {
  }

  lemma MovesKeepsClaims(s: System, c: CoreId, pc: Pc, s': System)
    requires ClaimsInv(s) && Moves(s, c, pc, s')
    ensures ClaimsInv(s')
  {
    forall d | d in s.pc
      ensures Claim(s', d) == Claim(s, d)
    {
    }
  }

  lemma MovesKeepsPositions(s: System, c: CoreId, pc: Pc, s': System)
    requires Positions(s) && Moves(s, c, pc, s')
    ensures Positions(s')
  {
    forall d | d in s'.pc
      ensures PcOk(s', s'.pc[d])
    {
      assert PcOk(s, s'.pc[d]);
    }
  }

  lemma MovesKeepsGuards(s: System, c: CoreId, pc: Pc, s': System)
    requires GuardsInv(s.pc) && Moves(s, c, pc, s')
    ensures GuardsInv(s'.pc)
  {
    forall d, t | d in s.pc && d != c
      ensures t in WriteGuards(pc) ==> t !in WriteGuards(s.pc[d]) && t !in ReadGuards(s.pc[d])
      ensures t in ReadGuards(pc) ==> t !in WriteGuards(s.pc[d])
    {
      assert t in WriteGuards(pc) ==> !LockedByOther(s, c, t);
      assert t in ReadGuards(pc) ==> !WrittenByOther(s, c, t);
    }
  }

  lemma MovesKeepsInv(s: System, c: CoreId, pc: Pc, s': System)
    requires Inv(s) && Moves(s, c, pc, s')
    ensures Inv(s')
  {
    MovesKeepsLocks(s, c, pc, s');
    MovesKeepsClaims(s, c, pc, s');
    MovesKeepsPositions(s, c, pc, s');
    MovesKeepsGuards(s, c, pc, s');
  }

  // Each of these steps only moves its core.

  lemma TickLockMoves(numcores: nat, s: System, c: CoreId, s': System)
    requires LocksInv(s) && ClaimsInv(s) && c in s.pc && c in s.miss && TickNext(numcores, s, c, TickLock, s')
    ensures Moves(s, c, s'.pc[c], s')
  {
  }

  lemma FetchClockMoves(numcores: nat, s: System, c: CoreId, s': System)
    requires LocksInv(s) && ClaimsInv(s) && c in s.pc && c in s.miss && TickNext(numcores, s, c, FetchClock, s')
    ensures Moves(s, c, s'.pc[c], s')
  {
    KeepsLock(s, c, s'.pc[c], s');
  }

  lemma DowngradeMoves(numcores: nat, s: System, c: CoreId, s': System)
    requires LocksInv(s) && ClaimsInv(s) && TimesInv(s) && c in s.pc && c in s.miss
    requires TickNext(numcores, s, c, Downgrade, s')
    ensures Moves(s, c, s'.pc[c], s')
  {
  }

  lemma NoCurrentMoves(numcores: nat, s: System, c: CoreId, s': System)
    requires LocksInv(s) && ClaimsInv(s) && TimesInv(s) && c in s.pc && c in s.miss
    requires TickNext(numcores, s, c, NoCurrent, s')
    ensures Moves(s, c, s'.pc[c], s')
  {
    KeepsLock(s, c, s'.pc[c], s');
  }

  lemma KeepMoves(s: System, c: CoreId, s': System)
    requires LocksInv(s) && ClaimsInv(s) && c in s.pc && s.pc[c].Listed?
    requires s' == At(s, c, Idle).(readers := s.readers - {c})
    ensures Moves(s, c, s'.pc[c], s')
  {
    StopsReading(s, c, s');
  }

  lemma ExpireMoves(s: System, c: CoreId, s': System)
    requires LocksInv(s) && c in s.pc && s.pc[c].Listed? && c in s.current && s.pc[c].clock < s.clock
    requires s' == At(s, c, Releasing(s.pc[c].clock, s.current[c])).(current := s.current - {c})
    ensures Moves(s, c, s'.pc[c], s')
  {
    KeepsLock(s, c, s'.pc[c], s');
  }

  lemma ScanSkipMoves(s: System, c: CoreId, s': System)
    requires LocksInv(s) && ClaimsInv(s) && ScansInv(s) && TimesInv(s) && c in s.pc && s.pc[c].Scanning?
    requires s' == At(s, c, Scanning(s.pc[c].clock, s.pc[c].i + 1, s.pc[c].best))
    ensures Moves(s, c, s'.pc[c], s')
  {
    KeepsLock(s, c, s'.pc[c], s');
  }

  lemma ScanProbeMoves(s: System, c: CoreId, s': System)
    requires LocksInv(s) && ClaimsInv(s) && ScansInv(s) && TimesInv(s) && c in s.pc && s.pc[c].Scanning?
    requires s.pc[c].i < |s.tasks|
    requires !LockedByOther(s, c, s.tasks[s.pc[c].i])
    requires s' == At(s, c, Probing(s.pc[c].clock, s.pc[c].i, s.pc[c].best, s.tasks[s.pc[c].i]))
    ensures Moves(s, c, s'.pc[c], s')
  {
    KeepsLock(s, c, s'.pc[c], s');
    forall t | t in WriteGuards(s.pc[c])
      ensures !LockedByOther(s, c, t)
    {
    }
  }

  lemma ScanDropMoves(numcores: nat, s: System, c: CoreId, s': System)
    requires LocksInv(s) && ClaimsInv(s) && ScansInv(s) && TimesInv(s) && c in s.pc && c in s.miss
    requires ScanNext(numcores, s, c, ScanDrop, s')
    ensures Moves(s, c, s'.pc[c], s')
  {
    KeepsLock(s, c, s'.pc[c], s');
  }

  lemma InitLockMoves(numcores: nat, s: System, c: CoreId, s': System)
    requires LocksInv(s) && ClaimsInv(s) && TimesInv(s) && c in s.pc && c in s.miss
    requires TickNext(numcores, s, c, InitLock, s')
    ensures Moves(s, c, s'.pc[c], s')
  {
  }

  lemma SpawnLockMoves(s: System, c: CoreId, s': System)
    requires LocksInv(s) && ClaimsInv(s) && c in s.pc && s.pc[c].Idle? && CanLock(s) && s.readers == {}
    requires s' == At(s, c, Loading).(writer := Some(c))
    ensures Moves(s, c, s'.pc[c], s')
  {
  }

  lemma SearchReadMoves(numcores: nat, s: System, c: CoreId, s': System)
    requires LocksInv(s) && ClaimsInv(s) && ScansInv(s) && c in s.pc && c in s.miss
    requires ExitNext(numcores, s, c, SearchRead, s')
    ensures Moves(s, c, s'.pc[c], s')
  {
    KeepsLock(s, c, s'.pc[c], s');
  }

  lemma ScanTakeMoves(numcores: nat, s: System, c: CoreId, s': System)
    requires LocksInv(s) && ClaimsInv(s) && ScansInv(s) && TimesInv(s) && c in s.pc && c in s.miss
    requires ScanNext(numcores, s, c, ScanTake, s')
    ensures Moves(s, c, s'.pc[c], s')
  {
    KeepsLock(s, c, s'.pc[c], s');
  }

  lemma ScanDoneMoves(s: System, c: CoreId, s': System)
    requires LocksInv(s) && ClaimsInv(s) && c in s.pc && s.pc[c].Scanning?
    requires s' == At(s, c, Idle).(readers := s.readers - {c})
    ensures Moves(s, c, s'.pc[c], s')
  {
    StopsReading(s, c, s');
  }

  lemma AdoptMoves(s: System, c: CoreId, s': System)
    requires LocksInv(s) && ScansInv(s) && c in s.pc && s.pc[c].Marked? && s.pc[c].index < |s.tasks|
    requires s' == At(s, c, Idle).(readers := s.readers - {c}, current := s.current[c := s.tasks[s.pc[c].index]])
    ensures Moves(s, c, s'.pc[c], s')
  {
    StopsReading(s, c, s');
    AdoptKeepsClaim(s, c, s');
  }

  lemma AdoptKeepsClaim(s: System, c: CoreId, s': System)
    requires ScansInv(s) && c in s.pc && s.pc[c].Marked? && s.pc[c].index < |s.tasks|
    requires s'.pc == s.pc[c := Idle] && s'.current == s.current[c := s.tasks[s.pc[c].index]]
    ensures Claim(s', c) == Claim(s, c)
  {
  }

  lemma ExitTakeMoves(s: System, c: CoreId, s': System)
    requires LocksInv(s) && c in s.pc && s.pc[c].Idle? && c in s.current
    requires s' == At(s, c, Exiting(s.current[c])).(current := s.current - {c})
    ensures Moves(s, c, s'.pc[c], s')
  {
    KeepsLock(s, c, s'.pc[c], s');
  }

  lemma ExitLockMoves(numcores: nat, s: System, c: CoreId, s': System)
    requires LocksInv(s) && ClaimsInv(s) && c in s.pc && c in s.miss && ExitNext(numcores, s, c, ExitLock, s')
    ensures Moves(s, c, s'.pc[c], s')
  {
  }

  lemma SearchNextMoves(numcores: nat, s: System, c: CoreId, s': System)
    requires LocksInv(s) && ClaimsInv(s) && ScansInv(s) && ListInv(s) && c in s.pc && c in s.miss
    requires ExitNext(numcores, s, c, SearchNext, s')
    ensures Moves(s, c, s'.pc[c], s')
  {
    KeepsLock(s, c, s'.pc[c], s');
  }

  lemma SearchHitMoves(numcores: nat, s: System, c: CoreId, s': System)
    requires LocksInv(s) && ClaimsInv(s) && ScansInv(s) && ListInv(s) && c in s.pc && c in s.miss
    requires ExitNext(numcores, s, c, SearchHit, s')
    ensures Moves(s, c, s'.pc[c], s')
  {
    KeepsLock(s, c, s'.pc[c], s');
  }

  lemma TickMoves(numcores: nat, s: System, c: CoreId, step: Step, s': System)
    requires Inv(s) && c in s.pc && c in s.miss && TickNext(numcores, s, c, step, s') && step != TickMiss
    ensures Moves(s, c, s'.pc[c], s')
  {
    match step {
      case TickLock => TickLockMoves(numcores, s, c, s');
      case FetchClock => FetchClockMoves(numcores, s, c, s');
      case Downgrade => DowngradeMoves(numcores, s, c, s');
      case InitLock => InitLockMoves(numcores, s, c, s');
      case NoCurrent => NoCurrentMoves(numcores, s, c, s');
      case Keep => KeepMoves(s, c, s');
      case Expire => ExpireMoves(s, c, s');
      case _ =>
    }
  }

  lemma ScanMoves(numcores: nat, s: System, c: CoreId, step: Step, s': System)
    requires Inv(s) && c in s.pc && c in s.miss && ScanNext(numcores, s, c, step, s')
    ensures Moves(s, c, s'.pc[c], s')
  {
    NeverSwaps(numcores, s, c, s');
    match step {
      case ScanSkip => ScanSkipMoves(s, c, s');
      case ScanProbe => ScanProbeMoves(s, c, s');
      case ScanDrop => ScanDropMoves(numcores, s, c, s');
      case ScanTake => ScanTakeMoves(numcores, s, c, s');
      case ScanDone => ScanDoneMoves(s, c, s');
      case Adopt => AdoptMoves(s, c, s');
      case _ =>
    }
  }

  lemma ExitMoves(numcores: nat, s: System, c: CoreId, step: Step, s': System)
    requires Inv(s) && c in s.pc && c in s.miss && ExitNext(numcores, s, c, step, s')
    ensures Moves(s, c, s'.pc[c], s')
  {
    NeverMisses(numcores, s, c, s');
    match step {
      case ExitTake => ExitTakeMoves(s, c, s');
      case ExitLock => ExitLockMoves(numcores, s, c, s');
      case SearchRead => SearchReadMoves(numcores, s, c, s');
      case SearchNext => SearchNextMoves(numcores, s, c, s');
      case SearchHit => SearchHitMoves(numcores, s, c, s');
      case _ =>
    }
  }

  lemma SpawnMoves(numcores: nat, s: System, c: CoreId, step: Step, s': System)
    requires Inv(s) && c in s.pc && c in s.miss && SpawnNext(numcores, s, c, step, s')
    ensures Moves(s, c, s'.pc[c], s')
  {
    if step == SpawnLock {
      SpawnLockMoves(s, c, s');
    } else {
      SpawnUnlockMoves(s, c, s');
    }
  }

  /** Every step that changes neither a task nor the list only moves its core, or counts a missed tick. */
  lemma OnlyMoves(numcores: nat, s: System, c: CoreId, step: Step, s': System)
    requires Inv(s) && Next(numcores, s, c, step, s') && !ChangeNext(numcores, s, c, step, s')
    ensures if step == TickMiss then s' == s.(miss := s'.miss) else c in s'.pc && Moves(s, c, s'.pc[c], s')
  {
    if TickNext(numcores, s, c, step, s') {
      if step != TickMiss {
        TickMoves(numcores, s, c, step, s');
      }
    } else if ScanNext(numcores, s, c, step, s') {
      ScanMoves(numcores, s, c, step, s');
    } else if ExitNext(numcores, s, c, step, s') {
      ExitMoves(numcores, s, c, step, s');
    } else {
      SpawnMoves(numcores, s, c, step, s');
    }
  }

  /** Because every task has priority 0, the scan never replaces its candidate, and the index stays that of the task. */
  lemma NeverSwaps(numcores: nat, s: System, c: CoreId, s': System)
    requires Inv(s)
    ensures !Next(numcores, s, c, ScanSwap, s')
  {
  }

  /** The exiting task is in the list, so the search never runs off its end. */
  lemma NeverMisses(numcores: nat, s: System, c: CoreId, s': System)
    requires Inv(s)
    ensures !Next(numcores, s, c, SearchMiss, s')
  {
  }

  // ---------------------------------------------------------------- steps that change a task or the list

  /** The core moves between reading positions while the state of task t changes. */
  ghost predicate Restates(s: System, c: CoreId, t: TaskRef, st: TaskState, pc: Pc, s': System) {
    && c in s.pc && t in s.store && Reads(s.pc[c]) && Reads(pc)
    && s'.pc == s.pc[c := pc] && s'.store == s.store[t := s.store[t].(state := st)]
    && s'.tasks == s.tasks && s'.current == s.current && s'.readers == s.readers && s'.upgradeable == s.upgradeable
    && s'.writer == s.writer && s'.clock == s.clock && s'.ids == s.ids
  }

  lemma RestatesKeepsRest(s: System, c: CoreId, t: TaskRef, st: TaskState, pc: Pc, s': System)
    requires LocksInv(s) && ListInv(s) && Restates(s, c, t, st, pc, s')
    ensures LocksInv(s') && ListInv(s')
  {
  }

  lemma RestatesKeepsTimes(s: System, c: CoreId, t: TaskRef, st: TaskState, pc: Pc, s': System)
    requires TimesInv(s) && Restates(s, c, t, st, pc, s') && InThePast(pc, s.clock)
    requires st.Running? ==> st.since < s.clock
    ensures TimesInv(s')
  {
  }

  /** A change of a task's state leaves every core where it was, if no core's candidate is that task. */
  lemma RestatesKeepsScans(s: System, c: CoreId, t: TaskRef, st: TaskState, pc: Pc, s': System)
    requires ScansInv(s) && Restates(s, c, t, st, pc, s') && PcOk(s', pc)
    requires WriteGuards(pc) <= WriteGuards(s.pc[c]) && ReadGuards(pc) == {}
    requires st.Running? ==> forall d :: d in s.pc && d != c ==> t !in WriteGuards(s.pc[d])
    ensures ScansInv(s')
  {
    GuardsShrink(s.pc, c, pc);
    forall d | d in s.pc && d != c
      ensures PcOk(s', s.pc[d])
    {
      assert PcOk(s, s.pc[d]);
    }
  }

  /** Letting go of locks is no conflict. */
  lemma GuardsShrink(pcs: map<CoreId, Pc>, c: CoreId, pc: Pc)
    requires GuardsInv(pcs) && c in pcs && WriteGuards(pc) <= WriteGuards(pcs[c]) && ReadGuards(pc) == {}
    ensures GuardsInv(pcs[c := pc])
  {
  }

  /** A core gives its task back: no one answers for it any more. */
  lemma ReleaseKeepsClaims(s: System, c: CoreId, t: TaskRef, pc: Pc, s': System)
    requires ClaimsInv(s) && Restates(s, c, t, Pending, pc, s') && Claim(s, c) == Some(t)
    requires pc.Scanning? && pc.best.None? && c !in s.current
    ensures ClaimsInv(s')
  {
    forall d | d in s.pc && d != c
      ensures Claim(s', d) == Claim(s, d) && Claim(s, d) != Some(t)
    {
      assert Claim(s, c) != Claim(s, d);
    }
    assert Claim(s', c) == None;
  }

  /** A core marks its candidate, whose lock it alone keeps: from now on it answers for that task. */
  lemma MarkKeepsClaims(s: System, c: CoreId, t: TaskRef, since: nat, pc: Pc, s': System)
    requires ClaimsInv(s) && Restates(s, c, t, Running(since), pc, s')
    requires s.store[t].state.Pending? && t in s.tasks && pc.Marked? && pc.task == t
    requires c !in s.current && s.pc[c].Scanning?
    ensures ClaimsInv(s')
  {
    forall d | d in s.pc && d != c
      ensures Claim(s', d) == Claim(s, d) && Claim(s, d) != Some(t)
    {
    }
    assert Claim(s', c) == Some(t);
  }

  lemma ReleaseKeepsInv(numcores: nat, s: System, c: CoreId, s': System)
    requires Inv(s) && c in s.pc && c in s.miss && ChangeNext(numcores, s, c, Release, s')
    ensures Inv(s')
  {
    ReleasedKeepsInv(s, c, s.pc[c].task, s'.pc[c], s');
  }

  lemma ReleasedKeepsInv(s: System, c: CoreId, t: TaskRef, pc: Pc, s': System)
    requires Inv(s) && c in s.pc && s.pc[c].Releasing? && t == s.pc[c].task && pc == Scanning(s.pc[c].clock, 0, None)
    requires Restates(s, c, t, Pending, pc, s')
    ensures Inv(s')
  {
    RestatesKeepsRest(s, c, t, Pending, pc, s');
    RestatesKeepsTimes(s, c, t, Pending, pc, s');
    RestatesKeepsScans(s, c, t, Pending, pc, s');
    ReleaseKeepsClaims(s, c, t, pc, s');
  }

  lemma MarkKeepsInv(numcores: nat, s: System, c: CoreId, s': System)
    requires Inv(s) && c in s.pc && c in s.miss && ChangeNext(numcores, s, c, Mark, s')
    ensures Inv(s')
  {
    MarkedKeepsInv(s, c, s.pc[c].best.value, s.pc[c].clock, s'.pc[c], s');
  }

  lemma MarkedKeepsInv(s: System, c: CoreId, b: Best, clock: nat, pc: Pc, s': System)
    requires Inv(s) && c in s.pc && s.pc[c].Scanning? && s.pc[c].best == Some(b) && s.pc[c].clock == clock
    requires pc == Marked(b.index, b.task) && Restates(s, c, b.task, Running(clock), pc, s')
    ensures Inv(s')
  {
    assert PcOk(s, s.pc[c]);
    RestatesKeepsRest(s, c, b.task, Running(clock), pc, s');
    RestatesKeepsTimes(s, c, b.task, Running(clock), pc, s');
    RestatesKeepsScans(s, c, b.task, Running(clock), pc, s');
    MarkKeepsClaims(s, c, b.task, clock, pc, s');
  }

  lemma SameButMiss(s: System, s': System)
    requires Inv(s) && s' == s.(miss := s'.miss)
    ensures Inv(s')
  {
    SameButMissClaims(s, s');
    SameButMissScans(s, s');
  }

  lemma SameButMissClaims(s: System, s': System)
    requires ClaimsInv(s) && s' == s.(miss := s'.miss)
    ensures ClaimsInv(s')
  {
    assert forall c :: c in s.pc ==> Claim(s', c) == Claim(s, c);
  }

  lemma SameButMissScans(s: System, s': System)
    requires ScansInv(s) && s' == s.(miss := s'.miss)
    ensures ScansInv(s')
  {
    assert forall c :: c in s.pc && PcOk(s, s.pc[c]) ==> PcOk(s', s.pc[c]);
  }

  lemma PushKeepsInv(s: System, made: TaskRef)
    requires Inv(s) && made !in s.store
    ensures Inv(Pushed(s, made))
  {
    PushKeepsClaims(s, made);
    PushKeepsScans(s, made);
  }

  lemma PushKeepsClaims(s: System, made: TaskRef)
    requires ClaimsInv(s) && made !in s.store
    ensures ClaimsInv(Pushed(s, made))
  {
    var s' := Pushed(s, made);
    forall d | d in s.pc
      ensures Claim(s', d) == Claim(s, d)
      ensures Claim(s, d).Some? ==> Claim(s, d).value in s.tasks && Claim(s, d).value in s.store
    {
    }
  }

  lemma PushKeepsScans(s: System, made: TaskRef)
    requires LocksInv(s) && ScansInv(s) && made !in s.store
    requires forall d :: d in s.pc && Claim(s, d).Some? ==> Claim(s, d).value in s.store
    ensures ScansInv(Pushed(s, made))
  {
    var s' := Pushed(s, made);
    assert s'.tasks[..|s.tasks|] == s.tasks;
    forall d | d in s.pc
      ensures PcOk(s', s.pc[d])
    {
      assert PcOk(s, s.pc[d]);
      assert Claim(s, d).Some? ==> Claim(s, d).value in s.store;
    }
  }

  /** A loaded program's task is added to the list, and its core lets go of the lock. */
  lemma PushStepKeepsInv(numcores: nat, s: System, c: CoreId, step: Step, made: TaskRef, s': System)
    requires Inv(s) && c in s.pc && c in s.miss && ChangeNext(numcores, s, c, step, s')
    requires step == InitPush(made) || step == SpawnPush(made)
    ensures Inv(s')
  {
    var s1 := Pushed(s, made);
    PushKeepsInv(s, made);
    if s.pc[c].Starting? {
      InitPushMoves(s1, c, s');
    } else {
      SpawnUnlockMoves(s1, c, s');
    }
    MovesKeepsInv(s1, c, s'.pc[c], s');
  }

  lemma InitPushMoves(s: System, c: CoreId, s': System)
    requires LocksInv(s) && TimesInv(s) && ClaimsInv(s) && c in s.pc && s.pc[c].Starting?
    requires s' == At(s, c, Listed(s.pc[c].clock)).(writer := None, readers := s.readers + {c})
    ensures Moves(s, c, s'.pc[c], s')
  {
    assert s.writer == Some(c);
  }

  lemma SpawnUnlockMoves(s: System, c: CoreId, s': System)
    requires LocksInv(s) && ClaimsInv(s) && c in s.pc && s.pc[c].Loading? && s' == At(s, c, Idle).(writer := None)
    ensures Moves(s, c, s'.pc[c], s')
  {
    assert s.writer == Some(c);
  }

  /** The list without the task at index i, and nothing else. */
  function Without(tasks: seq<TaskRef>, i: nat): seq<TaskRef>
    requires i < |tasks|
  {
    tasks[..i] + tasks[i + 1..]
  }

  lemma WithoutMembers(tasks: seq<TaskRef>, i: nat)
    requires i < |tasks| && forall j, k :: 0 <= j < k < |tasks| ==> tasks[j] != tasks[k]
    ensures forall t :: t in Without(tasks, i) <==> t in tasks && t != tasks[i]
    ensures forall j, k :: 0 <= j < k < |Without(tasks, i)| ==> Without(tasks, i)[j] != Without(tasks, i)[k]
  {
    var r := Without(tasks, i);
    forall t
      ensures t in r <==> t in tasks && t != tasks[i]
    {
      if t in tasks && t != tasks[i] {
        var j :| 0 <= j < |tasks| && tasks[j] == t;
        assert r[if j < i then j else j - 1] == t;
      }
    }
  }

  /** While a core removes a task, no other core reads the list. */
  lemma AloneWhileRemoving(s: System, c: CoreId, d: CoreId)
    requires LocksInv(s) && c in s.pc && s.pc[c].Found? && s.readers == {} && d in s.pc && d != c
    ensures s.pc[d].Idle? || s.pc[d].Exiting?
  {
    assert s.upgradeable == Some(c);
    assert !Reads(s.pc[d]) && !Upgradeable(s.pc[d]);
  }

  lemma RemoveKeepsInv(numcores: nat, s: System, c: CoreId, s': System)
    requires Inv(s) && c in s.pc && c in s.miss && ChangeNext(numcores, s, c, Remove, s')
    ensures Inv(s')
  {
    var i := s.pc[c].i;
    assert PcOk(s, s.pc[c]) && Claim(s, c) == Some(s.tasks[i]);
    assert s'.tasks == Without(s.tasks, i);
    WithoutMembers(s.tasks, i);
    RemoveKeepsList(s, i, s');
    RemoveLocks(s, c, s');
    RemoveKeepsClaims(s, c, s');
    RemoveKeepsScans(s, c, s');
  }

  lemma RemoveKeepsList(s: System, i: nat, s': System)
    requires ListInv(s) && i < |s.tasks| && s'.tasks == Without(s.tasks, i) && s'.store == s.store && s'.ids == s.ids
    ensures ListInv(s')
  {
    WithoutMembers(s.tasks, i);
    assert forall j :: 0 <= j < |s'.tasks| ==> s'.tasks[j] in s.tasks;
  }

  lemma RemoveKeepsClaims(s: System, c: CoreId, s': System)
    requires LocksInv(s) && ClaimsInv(s) && c in s.pc && s.pc[c].Found? && s.readers == {}
    requires s'.pc == s.pc[c := Idle] && s'.current == s.current && s'.store == s.store
    requires forall t :: t in s'.tasks <==> t in s.tasks && t != s.pc[c].task
    ensures ClaimsInv(s')
  {
    assert Claim(s, c) == Some(s.pc[c].task) && c !in s.current;
    forall d | d in s.pc && d != c
      ensures Claim(s', d) == Claim(s, d) && Claim(s, d) != Claim(s, c)
    {
    }
    assert Claim(s', c) == None;
  }

  lemma RemoveKeepsScans(s: System, c: CoreId, s': System)
    requires LocksInv(s) && c in s.pc && s.pc[c].Found? && s.readers == {} && s'.pc == s.pc[c := Idle]
    ensures ScansInv(s')
  {
    forall d | d in s'.pc
      ensures s'.pc[d].Idle? || s'.pc[d].Exiting?
    {
      if d != c {
        AloneWhileRemoving(s, c, d);
      }
    }
  }

  lemma RemoveLocks(s: System, c: CoreId, s': System)
    requires LocksInv(s) && c in s.pc && s.pc[c].Found? && s'.pc == s.pc[c := Idle] && s'.current == s.current
    requires s'.readers == s.readers && s'.upgradeable == None && s'.writer == s.writer
    ensures LocksInv(s')
  {
    assert s.upgradeable == Some(c);
  }

  lemma NextKeepsInv(numcores: nat, s: System, c: CoreId, step: Step, s': System)
    requires Inv(s) && Next(numcores, s, c, step, s')
    ensures Inv(s')
  {
    if ChangeNext(numcores, s, c, step, s') {
      ChangeKeepsInv(numcores, s, c, step, s');
    } else {
      OnlyMoves(numcores, s, c, step, s');
      if step == TickMiss {
        SameButMiss(s, s');
      } else {
        MovesKeepsInv(s, c, s'.pc[c], s');
      }
    }
  }

  lemma ChangeKeepsInv(numcores: nat, s: System, c: CoreId, step: Step, s': System)
    requires Inv(s) && c in s.pc && c in s.miss && ChangeNext(numcores, s, c, step, s')
    ensures Inv(s')
  {
    match step {
      case Release => ReleaseKeepsInv(numcores, s, c, s');
      case Mark => MarkKeepsInv(numcores, s, c, s');
      case InitPush(made) => PushStepKeepsInv(numcores, s, c, step, made, s');
      case SpawnPush(made) => PushStepKeepsInv(numcores, s, c, step, made, s');
      case Remove => RemoveKeepsInv(numcores, s, c, s');
      case _ =>
    }
  }
}
