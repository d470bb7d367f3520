/**
 What holds over every run of the scheduler, on any number of cores, and what holds besides on a single core.
 */
module SchedulerRuns {
  import opened Wrappers
  import opened Scheduler

  datatype Move = Move(core: CoreId, step: Step)

  ghost predicate IsRun(numcores: nat, run: seq<System>, moves: seq<Move>) {
    && |run| == |moves| + 1 && Init(run[0])
    && forall k {:trigger moves[k]} :: 0 <= k < |moves| ==>
         Next(numcores, run[k], moves[k].core, moves[k].step, run[k + 1])
  }

  lemma InitInv(s: System)
    requires Init(s)
    ensures Inv(s)
  {
  }

  lemma {:induction false} RunInv(numcores: nat, run: seq<System>, moves: seq<Move>, n: nat)
    requires IsRun(numcores, run, moves) && n < |run|
    ensures Inv(run[n])
  {
    if n == 0 {
      InitInv(run[0]);
    } else {
      RunInv(numcores, run, moves, n - 1);
      NextKeepsInv(numcores, run[n - 1], moves[n - 1].core, moves[n - 1].step, run[n]);
    }
  }

  /** In every state of every run: no task is current on two cores, and every core's current task is listed and
      Running, so that the tick's judgement never meets another state. */
  lemma Exclusive(numcores: nat, run: seq<System>, moves: seq<Move>, n: nat)
    requires IsRun(numcores, run, moves) && n < |run|
    ensures var s := run[n];
            && (forall c, d :: c in s.current && d in s.current && c != d ==> s.current[c] != s.current[d])
            && (forall c :: c in s.current ==>
                  s.current[c] in s.tasks && s.current[c] in s.store && s.store[s.current[c]].state.Running?)
  {
    RunInv(numcores, run, moves, n);
    var s := run[n];
    assert forall c :: c in s.current ==> c in s.pc && Claim(s, c) == Some(s.current[c]);
  }

  /** Whenever a core adopts a task, the task at the chosen index is the one it marked, and no other core has it. */
  lemma AdoptsWhatItMarked(numcores: nat, run: seq<System>, moves: seq<Move>, k: nat)
    requires IsRun(numcores, run, moves) && k < |moves| && moves[k].step == Adopt
    ensures var (s, s', c) := (run[k], run[k + 1], moves[k].core);
            && c in s.pc && s.pc[c].Marked? && c in s'.current
            && s'.current[c] == s.pc[c].task && s'.current[c] in s'.store && s'.store[s'.current[c]].state.Running?
            && forall d :: d in s.current ==> s.current[d] != s'.current[c]
  {
    RunInv(numcores, run, moves, k);
    assert Next(numcores, run[k], moves[k].core, moves[k].step, run[k + 1]);
    var (s, c) := (run[k], moves[k].core);
    assert PcOk(s, s.pc[c]) && Claim(s, c) == Some(s.pc[c].task);
    assert forall d :: d in s.current && d != c ==> Claim(s, d) == Some(s.current[d]);
  }

  /** An exit removes exactly the exiting task from the list, keeps the others in order, and changes no task. */
  lemma RemovesOnlyTheExiting(numcores: nat, run: seq<System>, moves: seq<Move>, k: nat)
    requires IsRun(numcores, run, moves) && k < |moves| && moves[k].step == Remove
    ensures var (s, s', c) := (run[k], run[k + 1], moves[k].core);
            && c in s.pc && s.pc[c].Found? && s.pc[c].i < |s.tasks| && s.tasks[s.pc[c].i] == s.pc[c].task
            && s'.tasks == Without(s.tasks, s.pc[c].i) && s'.store == s.store && s'.current == s.current
            && (forall t :: t in s'.tasks <==> t in s.tasks && t != s.pc[c].task)
  {
    RunInv(numcores, run, moves, k);
    assert Next(numcores, run[k], moves[k].core, moves[k].step, run[k + 1]);
    var (s, c) := (run[k], moves[k].core);
    assert PcOk(s, s.pc[c]);
    WithoutMembers(s.tasks, s.pc[c].i);
  }

  /** Loading a program adds one task: new, at the end of the list, Pending, with an id above all earlier ones, which is
      the number of tasks added so far.  No other task changes, and no core's. */
  lemma SpawnsOne(numcores: nat, run: seq<System>, moves: seq<Move>, k: nat, made: TaskRef)
    requires IsRun(numcores, run, moves) && k < |moves|
    requires moves[k].step == InitPush(made) || moves[k].step == SpawnPush(made)
    ensures var (s, s') := (run[k], run[k + 1]);
            && made !in s.store && s'.tasks == s.tasks + [made] && s'.current == s.current
            && made in s'.store && s'.store[made].state == Pending && s'.store - {made} == s.store
            && s'.store[made].id == Pushes(moves[..k + 1])
            && forall t :: t in s.store ==> s.store[t].id < s'.store[made].id
  {
    PushAt(numcores, run, moves, k, made);
    IdsCounted(numcores, run, moves, k + 1);
    IdsAt(numcores, run, moves, k);
  }

  lemma PushAt(numcores: nat, run: seq<System>, moves: seq<Move>, k: nat, made: TaskRef)
    requires IsRun(numcores, run, moves) && k < |moves|
    requires moves[k].step == InitPush(made) || moves[k].step == SpawnPush(made)
    ensures AddsTask(run[k], run[k + 1], made) && forall t :: t in run[k].store ==> run[k].store[t].id <= run[k].ids
  {
    RunInv(numcores, run, moves, k);
    AddsOne(numcores, run[k], moves[k].core, moves[k].step, run[k + 1], made);
  }

  /** Only a core with a task spawns another one. */
  ghost predicate LoaderRuns(s: System, c: CoreId) {
    c in s.pc && s.pc[c].Loading? ==> c in s.current
  }

  lemma LoaderNext(numcores: nat, s: System, m: Move, s': System, c: CoreId)
    requires Inv(s) && LoaderRuns(s, c) && Next(numcores, s, m.core, m.step, s') && c in s.pc
    ensures LoaderRuns(s', c)
  {
    if m.core != c {
      OthersKeepTask(numcores, s, m.core, m.step, s', c);
    } else if SpawnNext(numcores, s, c, m.step, s') {
      LoaderStarts(numcores, s, c, m.step, s');
    } else if ChangeNext(numcores, s, c, m.step, s') {
      ChangeEnds(numcores, s, c, m.step, s');
    } else {
      NeverMisses(numcores, s, c, s');
      OthersKeepList(numcores, s, c, m.step, s');
    }
  }

  lemma LoaderStarts(numcores: nat, s: System, c: CoreId, step: Step, s': System)
    requires c in s.pc && c in s.miss && SpawnNext(numcores, s, c, step, s')
    ensures LoaderRuns(s', c)
  {
  }

  lemma {:induction false} LoadersRun(numcores: nat, run: seq<System>, moves: seq<Move>, n: nat, c: CoreId)
    requires IsRun(numcores, run, moves) && n < |run| && c in run[0].pc
    ensures LoaderRuns(run[n], c)
  {
    if n > 0 {
      LoadersRun(numcores, run, moves, n - 1, c);
      LoaderAt(numcores, run, moves, n - 1, c);
    }
  }

  lemma LoaderAt(numcores: nat, run: seq<System>, moves: seq<Move>, k: nat, c: CoreId)
    requires IsRun(numcores, run, moves) && k < |moves| && c in run[0].pc && LoaderRuns(run[k], c)
    ensures LoaderRuns(run[k + 1], c)
  {
    RunInv(numcores, run, moves, k);
    CoreStays(numcores, run, moves, k, c);
    LoaderNext(numcores, run[k], moves[k], run[k + 1], c);
  }

  /** A program is loaded from a task, or by the tick that finds no task. */
  lemma SpawnedByTask(numcores: nat, run: seq<System>, moves: seq<Move>, k: nat)
    requires IsRun(numcores, run, moves) && k < |moves| && moves[k].step.SpawnPush? && moves[k].core in run[0].pc
    ensures moves[k].core in run[k].current
  {
    assert Next(numcores, run[k], moves[k].core, moves[k].step, run[k + 1]);
    LoadersRun(numcores, run, moves, k, moves[k].core);
  }

  ghost predicate AddsTask(s: System, s': System, made: TaskRef) {
    && made !in s.store && s'.tasks == s.tasks + [made] && s'.current == s.current
    && s'.store == s.store[made := Task(s.ids + 1, 0, Pending)]
  }

  lemma AddsOne(numcores: nat, s: System, c: CoreId, step: Step, s': System, made: TaskRef)
    requires Next(numcores, s, c, step, s') && (step == InitPush(made) || step == SpawnPush(made))
    ensures AddsTask(s, s', made)
  {
    assert ChangeNext(numcores, s, c, step, s');
  }

  /** A task's state changes only while no other core holds its lock. */
  lemma ChangesUnderLock(numcores: nat, run: seq<System>, moves: seq<Move>, k: nat, t: TaskRef)
    requires IsRun(numcores, run, moves) && k < |moves| && t in run[k].store && t in run[k + 1].store
    requires run[k + 1].store[t].state != run[k].store[t].state
    ensures !LockedByOther(run[k], moves[k].core, t)
  {
    RunInv(numcores, run, moves, k);
    var (s, c) := (run[k], moves[k].core);
    assert Next(numcores, s, c, moves[k].step, run[k + 1]);
    if !ChangeNext(numcores, s, c, moves[k].step, run[k + 1]) {
      OnlyMoves(numcores, s, c, moves[k].step, run[k + 1]);
    }
  }

  /** A task whose id is being read, or that is being looked at, is a candidate or is marked: these exclude each other
      between cores, except for two that only read. */
  lemma TaskLocks(numcores: nat, run: seq<System>, moves: seq<Move>, n: nat, c: CoreId, d: CoreId, t: TaskRef)
    requires IsRun(numcores, run, moves) && n < |run| && c in run[n].pc && d in run[n].pc && c != d
    requires WorksOn(run[n].pc[c], t)
    ensures !WorksOn(run[n].pc[d], t) && !(run[n].pc[d].Peeking? && run[n].pc[d].peeked == t)
  {
    RunInv(numcores, run, moves, n);
    WorkersApart(run[n].pc, c, d, t);
  }

  lemma WorkersApart(pcs: map<CoreId, Pc>, c: CoreId, d: CoreId, t: TaskRef)
    requires GuardsInv(pcs) && c in pcs && d in pcs && c != d && WorksOn(pcs[c], t)
    ensures !WorksOn(pcs[d], t) && !(pcs[d].Peeking? && pcs[d].peeked == t)
  {
    assert t in WriteGuards(pcs[c]);
  }

  predicate WorksOn(pc: Pc, t: TaskRef) {
    || (pc.Probing? && pc.probed == t)
    || ((pc.Scanning? || pc.Probing?) && pc.best.Some? && pc.best.value.task == t)
    || (pc.Marked? && pc.task == t)
  }

  /** On the way from the list's lock to the end of a tick. */
  predicate InTick(pc: Pc) {
    Undecided(pc) || pc.Releasing? || pc.Scanning? || pc.Probing? || pc.Marked?
  }

  predicate Exits(pc: Pc) {
    pc.Exiting? || pc.Searching? || pc.Peeking? || pc.Found?
  }

  /** What a step may do at the end of a tick or of an exit. */
  predicate EndsWell(pc: Pc, step: Step, pc': Pc) {
    && (InTick(pc) && !InTick(pc') ==> pc'.Idle? && step in {Keep, Adopt, ScanDone})
    && (Exits(pc) && !Exits(pc') ==> pc'.Idle? && step == Remove)
  }

  /** Whoever reads the list in a tick finds a task in it, and whoever loads /bin/init finds none. */
  predicate SeesList(pc: Pc, tasks: seq<TaskRef>) {
    (Reads(pc) ==> tasks != []) && (pc.Starting? ==> tasks == [])
  }

  ghost predicate ListSeen(s: System) {
    forall c :: c in s.pc ==> SeesList(s.pc[c], s.tasks)
  }

  /** A step that leaves the list alone. */
  ghost predicate ListKept(s: System, c: CoreId, step: Step, s': System) {
    && c in s.pc && s'.tasks == s.tasks && c in s'.pc && s'.pc == s.pc[c := s'.pc[c]]
    && (SeesList(s.pc[c], s.tasks) ==> SeesList(s'.pc[c], s.tasks)) && EndsWell(s.pc[c], step, s'.pc[c])
    && (s'.pc[c].Loading? ==> step == SpawnLock)
  }

  lemma TickKeepsList(numcores: nat, s: System, c: CoreId, step: Step, s': System)
    requires c in s.pc && c in s.miss && TickNext(numcores, s, c, step, s')
    ensures ListKept(s, c, step, s')
  {
    assert s.pc == s.pc[c := s.pc[c]];
  }

  lemma ScanKeepsList(numcores: nat, s: System, c: CoreId, step: Step, s': System)
    requires c in s.pc && c in s.miss && ScanNext(numcores, s, c, step, s')
    ensures ListKept(s, c, step, s')
  {
  }

  lemma ExitKeepsList(numcores: nat, s: System, c: CoreId, step: Step, s': System)
    requires c in s.pc && c in s.miss && ExitNext(numcores, s, c, step, s') && step != SearchMiss
    ensures ListKept(s, c, step, s')
  {
  }

  lemma SpawnKeepsList(numcores: nat, s: System, c: CoreId, step: Step, s': System)
    requires c in s.pc && c in s.miss && SpawnNext(numcores, s, c, step, s')
    ensures ListKept(s, c, step, s')
  {
  }

  lemma OthersKeepList(numcores: nat, s: System, c: CoreId, step: Step, s': System)
    requires Next(numcores, s, c, step, s') && !ChangeNext(numcores, s, c, step, s') && step != SearchMiss
    ensures ListKept(s, c, step, s')
  {
    if TickNext(numcores, s, c, step, s') {
      TickKeepsList(numcores, s, c, step, s');
    } else if ScanNext(numcores, s, c, step, s') {
      ScanKeepsList(numcores, s, c, step, s');
    } else if ExitNext(numcores, s, c, step, s') {
      ExitKeepsList(numcores, s, c, step, s');
    } else {
      SpawnKeepsList(numcores, s, c, step, s');
    }
  }

  /** A tick ends in one of three ways: the core keeps its task, adopts one, or has found none.  An exit ends with the
      task out of the list. */
  lemma TickEnds(numcores: nat, run: seq<System>, moves: seq<Move>, k: nat)
    requires IsRun(numcores, run, moves) && k < |moves|
    ensures var (s, s', c) := (run[k], run[k + 1], moves[k].core);
            c in s.pc && c in s'.pc && EndsWell(s.pc[c], moves[k].step, s'.pc[c])
  {
    RunInv(numcores, run, moves, k);
    assert Next(numcores, run[k], moves[k].core, moves[k].step, run[k + 1]);
    StepEnds(numcores, run[k], moves[k].core, moves[k].step, run[k + 1]);
  }

  lemma StepEnds(numcores: nat, s: System, c: CoreId, step: Step, s': System)
    requires Inv(s) && Next(numcores, s, c, step, s')
    ensures c in s'.pc && EndsWell(s.pc[c], step, s'.pc[c])
  {
    NeverMisses(numcores, s, c, s');
    if ChangeNext(numcores, s, c, step, s') {
      ChangeEnds(numcores, s, c, step, s');
    } else {
      OthersKeepList(numcores, s, c, step, s');
    }
  }

  lemma ChangeEnds(numcores: nat, s: System, c: CoreId, step: Step, s': System)
    requires c in s.pc && c in s.miss && ChangeNext(numcores, s, c, step, s')
    ensures c in s'.pc && EndsWell(s.pc[c], step, s'.pc[c]) && !s'.pc[c].Loading?
  {
  }

  lemma ListSeenNext(numcores: nat, s: System, c: CoreId, step: Step, s': System)
    requires Inv(s) && ListSeen(s) && Next(numcores, s, c, step, s')
    ensures ListSeen(s')
  {
    NeverMisses(numcores, s, c, s');
    if ChangeNext(numcores, s, c, step, s') {
      ListSeenChange(numcores, s, c, step, s');
    } else {
      OthersKeepList(numcores, s, c, step, s');
    }
  }

  lemma ListSeenChange(numcores: nat, s: System, c: CoreId, step: Step, s': System)
    requires LocksInv(s) && ListSeen(s) && c in s.pc && c in s.miss && ChangeNext(numcores, s, c, step, s')
    ensures ListSeen(s')
  {
    if step == Remove {
      forall d | d in s.pc && d != c
        ensures !Reads(s.pc[d]) && !s.pc[d].Starting?
      {
        AloneWhileRemoving(s, c, d);
      }
    } else if IsPush(step) {
      assert s.writer == Some(c) && s.readers == {};
    }
  }

  lemma {:induction false} ListSeenRun(run: seq<System>, n: nat)
    requires n < |run| && ListSeen(run[0])
    requires forall k :: 0 <= k < |run| - 1 && ListSeen(run[k]) ==> ListSeen(run[k + 1])
    ensures ListSeen(run[n])
  {
    if n > 0 {
      ListSeenRun(run, n - 1);
      assert ListSeen(run[n - 1]);
    }
  }

  /** /bin/init is loaded by a tick if and only if the list is empty at that tick. */
  lemma InitOnlyIfEmpty(numcores: nat, run: seq<System>, moves: seq<Move>, n: nat)
    requires IsRun(numcores, run, moves) && n < |moves|
    ensures moves[n].step.InitPush? ==> run[n].tasks == []
    ensures moves[n].step in {NoCurrent, Keep, Expire, ScanDone} ==> run[n].tasks != []
  {
    AlwaysListSeen(numcores, run, moves, n);
    ListSeenStep(numcores, run, moves, n);
  }

  lemma AlwaysListSeen(numcores: nat, run: seq<System>, moves: seq<Move>, n: nat)
    requires IsRun(numcores, run, moves) && n < |run|
    ensures ListSeen(run[n])
  {
    forall k | 0 <= k < |run| - 1 && ListSeen(run[k])
      ensures ListSeen(run[k + 1])
    {
      ListSeenStep(numcores, run, moves, k);
    }
    ListSeenRun(run, n);
  }

  lemma ListSeenStep(numcores: nat, run: seq<System>, moves: seq<Move>, k: nat)
    requires IsRun(numcores, run, moves) && k < |moves| && ListSeen(run[k])
    ensures ListSeen(run[k + 1])
    ensures moves[k].step.InitPush? ==> run[k].tasks == []
    ensures moves[k].step in {NoCurrent, Keep, Expire, ScanDone} ==> run[k].tasks != []
  {
    RunInv(numcores, run, moves, k);
    ListSeenNext(numcores, run[k], moves[k].core, moves[k].step, run[k + 1]);
    ListSeenAt(numcores, run[k], moves[k].core, moves[k].step, run[k + 1]);
  }

  lemma ListSeenAt(numcores: nat, s: System, c: CoreId, step: Step, s': System)
    requires ListSeen(s) && Next(numcores, s, c, step, s')
    ensures step.InitPush? ==> s.tasks == []
    ensures step in {NoCurrent, Keep, Expire, ScanDone} ==> s.tasks != []
  {
  }

  predicate IsPush(step: Step) {
    step.InitPush? || step.SpawnPush?
  }

  function Pushes(moves: seq<Move>): nat {
    if moves == [] then 0 else Pushes(moves[..|moves| - 1]) + if IsPush(moves[|moves| - 1].step) then 1 else 0
  }

  lemma IdsStep(numcores: nat, s: System, m: Move, s': System)
    requires Inv(s) && Next(numcores, s, m.core, m.step, s')
    ensures s'.ids == s.ids + if IsPush(m.step) then 1 else 0
  {
    if ChangeNext(numcores, s, m.core, m.step, s') {
      IdsChange(numcores, s, m, s');
    } else {
      NotAPush(numcores, s, m, s');
      OnlyMoves(numcores, s, m.core, m.step, s');
    }
  }

  lemma IdsChange(numcores: nat, s: System, m: Move, s': System)
    requires m.core in s.pc && m.core in s.miss && ChangeNext(numcores, s, m.core, m.step, s')
    ensures s'.ids == s.ids + if IsPush(m.step) then 1 else 0
  {
  }

  lemma NotAPush(numcores: nat, s: System, m: Move, s': System)
    requires Next(numcores, s, m.core, m.step, s') && !ChangeNext(numcores, s, m.core, m.step, s')
    ensures !IsPush(m.step)
  {
  }

  lemma IdsAt(numcores: nat, run: seq<System>, moves: seq<Move>, k: nat)
    requires IsRun(numcores, run, moves) && k < |moves|
    ensures run[k + 1].ids == run[k].ids + if IsPush(moves[k].step) then 1 else 0
  {
    RunInv(numcores, run, moves, k);
    IdsStep(numcores, run[k], moves[k], run[k + 1]);
  }

  lemma {:induction false} IdsCounted(numcores: nat, run: seq<System>, moves: seq<Move>, n: nat)
    requires IsRun(numcores, run, moves) && n < |run|
    ensures run[n].ids == Pushes(moves[..n])
  {
    if n > 0 {
      IdsCounted(numcores, run, moves, n - 1);
      IdsAt(numcores, run, moves, n - 1);
      assert moves[..n][..n - 1] == moves[..n - 1];
    }
  }

  // ---------------------------------------------------------------- time slices

  /** A core judges its task by its age, while no other core writes it; the subtraction never underflows. */
  lemma JudgedByAge(numcores: nat, run: seq<System>, moves: seq<Move>, k: nat)
    requires IsRun(numcores, run, moves) && k < |moves| && Judges(moves[k].step)
    ensures ByAge(numcores, run[k], moves[k].core, moves[k].step, run[k + 1])
  {
    RunInv(numcores, run, moves, k);
    assert Next(numcores, run[k], moves[k].core, moves[k].step, run[k + 1]);
    JudgesByAge(numcores, run[k], moves[k].core, moves[k].step, run[k + 1]);
  }

  ghost predicate ByAge(numcores: nat, s: System, c: CoreId, step: Step, s': System) {
    && c in s.current && s.current[c] in s.store && s.store[s.current[c]].state.Running?
    && s.store[s.current[c]].state.since < s.clock && !WrittenByOther(s, c, s.current[c])
    && (step == Expire <==> s.clock - s.store[s.current[c]].state.since >= 10 * numcores)
    && (step == Keep <==> s'.current == s.current)
  }

  lemma JudgesByAge(numcores: nat, s: System, c: CoreId, step: Step, s': System)
    requires ListInv(s) && TimesInv(s) && Next(numcores, s, c, step, s') && Judges(step)
    ensures ByAge(numcores, s, c, step, s')
  {
    assert TickNext(numcores, s, c, step, s');
  }

  predicate Judges(step: Step) {
    step == Keep || step == Expire
  }

  /** On the way from the list's lock to the judgement. */
  predicate Undecided(pc: Pc) {
    pc.Ticking? || pc.Clocked? || pc.Starting? || pc.Listed?
  }

  /** The core still runs the same task, which is as it was. */
  ghost predicate SameTask(s: System, s': System, c: CoreId) {
    && c in s.current && c in s'.current && s'.current[c] == s.current[c]
    && s.current[c] in s.store && s.current[c] in s'.store && s'.store[s.current[c]] == s.store[s.current[c]]
    && s'.clock >= s.clock
  }

  /** What a move does to a core c with a running task, and to a core that has judged. */
  ghost predicate Traced(s: System, m: Move, s': System, c: CoreId) {
    && c in s.pc && c in s'.pc
    && (m.core != c ==> s'.pc[c] == s.pc[c] && (c in s.current ==> SameTask(s, s', c)))
    && (m == Move(c, TickLock) ==> !Undecided(s.pc[c]) && s'.pc[c].Ticking? && (c in s.current ==> SameTask(s, s', c)))
    && (m.core == c && !Undecided(s.pc[c]) && m.step != TickLock ==> !Undecided(s'.pc[c]) && !Judges(m.step))
    && (m.core == c && Undecided(s.pc[c]) && !s.pc[c].Starting? && c in s.current ==>
          if Judges(m.step) then !Undecided(s'.pc[c])
          else Undecided(s'.pc[c]) && !s'.pc[c].Starting? && SameTask(s, s', c))
  }

  /** What another core does leaves a core's position and its running task alone. */
  lemma OthersKeepTask(numcores: nat, s: System, d: CoreId, step: Step, s': System, c: CoreId)
    requires Inv(s) && Next(numcores, s, d, step, s') && d != c && c in s.pc
    ensures c in s'.pc && s'.pc[c] == s.pc[c] && (c in s.current ==> SameTask(s, s', c))
  {
    if c in s.current {
      RunningTask(s, c);
    }
    if ChangeNext(numcores, s, d, step, s') {
      OthersChange(numcores, s, d, step, s', c);
    } else if TickNext(numcores, s, d, step, s') {
      OthersTick(numcores, s, d, step, s', c);
    } else {
      OthersScan(numcores, s, d, step, s', c);
    }
  }

  lemma RunningTask(s: System, c: CoreId)
    requires LocksInv(s) && ClaimsInv(s) && c in s.current
    ensures c in s.pc && Claim(s, c) == Some(s.current[c]) && s.current[c] in s.store && s.tasks != []
  {
    assert HasCurrent(s.pc[c]);
  }

  lemma OthersTick(numcores: nat, s: System, d: CoreId, step: Step, s': System, c: CoreId)
    requires d in s.pc && d in s.miss && TickNext(numcores, s, d, step, s') && d != c && c in s.pc
    requires c in s.current ==> s.current[c] in s.store
    ensures c in s'.pc && s'.pc[c] == s.pc[c] && (c in s.current ==> SameTask(s, s', c))
  {
  }

  lemma OthersScan(numcores: nat, s: System, d: CoreId, step: Step, s': System, c: CoreId)
    requires d in s.pc && d in s.miss && d != c && c in s.pc && (c in s.current ==> s.current[c] in s.store)
    requires || ScanNext(numcores, s, d, step, s')
             || ExitNext(numcores, s, d, step, s')
             || SpawnNext(numcores, s, d, step, s')
    ensures c in s'.pc && s'.pc[c] == s.pc[c] && (c in s.current ==> SameTask(s, s', c))
  {
  }

  lemma OthersChange(numcores: nat, s: System, d: CoreId, step: Step, s': System, c: CoreId)
    requires Inv(s) && d in s.pc && d in s.miss && ChangeNext(numcores, s, d, step, s') && d != c
    requires c in s.pc && (c in s.current ==> Claim(s, c) == Some(s.current[c]))
    ensures c in s'.pc && s'.pc[c] == s.pc[c] && (c in s.current ==> SameTask(s, s', c))
  {
    assert PcOk(s, s.pc[d]) && (Claim(s, d).Some? ==> Claim(s, d) != Claim(s, c));
  }

  /** An undecided core with a task moves on towards its judgement, or judges; any other does not judge before it gets
      the list's lock. */
  lemma TickTraced(numcores: nat, s: System, c: CoreId, step: Step, s': System)
    requires Inv(s) && c in s.pc && c in s.miss && TickNext(numcores, s, c, step, s')
    ensures Traced(s, Move(c, step), s', c)
  {
    if c in s.current {
      RunningTask(s, c);
    }
  }

  lemma OtherTraced(numcores: nat, s: System, c: CoreId, step: Step, s': System)
    requires c in s.pc && c in s.miss
    requires || ScanNext(numcores, s, c, step, s')
             || ExitNext(numcores, s, c, step, s')
             || SpawnNext(numcores, s, c, step, s')
    ensures Traced(s, Move(c, step), s', c)
  {
  }

  lemma ChangeTraced(numcores: nat, s: System, c: CoreId, step: Step, s': System)
    requires c in s.pc && c in s.miss && ChangeNext(numcores, s, c, step, s')
    ensures Traced(s, Move(c, step), s', c)
  {
  }

  lemma NextTraced(numcores: nat, s: System, m: Move, s': System, c: CoreId)
    requires Inv(s) && Next(numcores, s, m.core, m.step, s') && c in s.pc
    ensures Traced(s, m, s', c)
  {
    if m.core != c {
      OthersKeepTask(numcores, s, m.core, m.step, s', c);
    } else if TickNext(numcores, s, c, m.step, s') {
      TickTraced(numcores, s, c, m.step, s');
    } else if ChangeNext(numcores, s, c, m.step, s') {
      ChangeTraced(numcores, s, c, m.step, s');
    } else {
      OtherTraced(numcores, s, c, m.step, s');
    }
  }

  ghost predicate AllTraced(run: seq<System>, moves: seq<Move>, c: CoreId) {
    |run| == |moves| + 1 && forall k :: 0 <= k < |moves| ==> Traced(run[k], moves[k], run[k + 1], c)
  }

  lemma RunTraced(numcores: nat, run: seq<System>, moves: seq<Move>, c: CoreId)
    requires IsRun(numcores, run, moves) && c in run[0].pc
    ensures AllTraced(run, moves, c)
  {
    forall k | 0 <= k < |moves|
      ensures Traced(run[k], moves[k], run[k + 1], c)
    {
      RunInv(numcores, run, moves, k);
      CoreStays(numcores, run, moves, k, c);
      NextTraced(numcores, run[k], moves[k], run[k + 1], c);
    }
  }

  lemma {:induction false} CoreStays(numcores: nat, run: seq<System>, moves: seq<Move>, n: nat, c: CoreId)
    requires IsRun(numcores, run, moves) && n < |run| && c in run[0].pc
    ensures c in run[n].pc
  {
    if n > 0 {
      CoreStays(numcores, run, moves, n - 1, c);
      RunInv(numcores, run, moves, n - 1);
      NextTraced(numcores, run[n - 1], moves[n - 1], run[n], c);
    }
  }

  /** Where a core is some moves after it got the list's lock, with a task: k is its judgement, if it has made one. */
  ghost predicate Progressed(run: seq<System>, moves: seq<Move>, i: nat, n: nat, c: CoreId, k: int)
    requires |run| == |moves| + 1 && i < n < |run|
  {
    && c in run[n].pc
    && (forall j :: i < j < n && moves[j].core == c && Judges(moves[j].step) ==> j == k)
    && if i < k < n then JudgedAt(run, moves, i, k, c) && !Undecided(run[n].pc[c])
       else Undecided(run[n].pc[c]) && !run[n].pc[c].Starting? && SameTask(run[i], run[n], c)
  }

  ghost predicate JudgedAt(run: seq<System>, moves: seq<Move>, i: nat, k: nat, c: CoreId)
    requires |run| == |moves| + 1 && i < k < |moves|
  {
    moves[k].core == c && Judges(moves[k].step) && SameTask(run[i], run[k], c)
  }

  lemma {:induction false} JudgesOnce(run: seq<System>, moves: seq<Move>, i: nat, n: nat, c: CoreId) returns (k: int)
    requires AllTraced(run, moves, c) && i < n < |run| && moves[i] == Move(c, TickLock) && c in run[i].current
    requires forall j :: i < j < n ==> moves[j] != Move(c, TickLock)
    ensures Progressed(run, moves, i, n, c, k) && (k == -1 || i < k < n)
    decreases n
  {
    assert Traced(run[n - 1], moves[n - 1], run[n], c);
    if n == i + 1 {
      k := -1;
    } else {
      k := JudgesOnce(run, moves, i, n - 1, c);
      if moves[n - 1].core == c && !(i < k < n - 1) {
        k := if Judges(moves[n - 1].step) then n - 1 else -1;
      }
    }
  }

  ghost predicate RunsSince(s: System, c: CoreId, since: nat) {
    c in s.current && s.current[c] in s.store && s.store[s.current[c]].state == Running(since)
  }

  /** Between two ticks at which a core gets the list's lock it judges its task exactly once.  The task is released
      there if and only if its age is at least ten ticks per core by then, so that a task that had this age when its
      core got the lock is released at that very tick. */
  lemma ReleasedAtFirstTick(
      numcores: nat, run: seq<System>, moves: seq<Move>, i: nat, j: nat, c: CoreId, since: nat) returns (k: nat)
    requires IsRun(numcores, run, moves) && i < j < |moves| && moves[i] == moves[j] == Move(c, TickLock)
    requires (forall h :: i < h < j ==> moves[h] != Move(c, TickLock)) && RunsSince(run[i], c, since) && c in run[0].pc
    ensures i < k < j && JudgedAt(run, moves, i, k, c)
    ensures forall h :: i < h < j && moves[h].core == c && Judges(moves[h].step) ==> h == k
    ensures RunsSince(run[k], c, since) && since < run[k].clock && run[i].clock <= run[k].clock
    ensures moves[k].step == Expire <==> run[k].clock - since >= 10 * numcores
    ensures run[i].clock - since >= 10 * numcores ==> moves[k].step == Expire
  {
    RunTraced(numcores, run, moves, c);
    k := SoleJudgement(run, moves, i, j, c);
    JudgedByAge(numcores, run, moves, k);
  }

  lemma SoleJudgement(run: seq<System>, moves: seq<Move>, i: nat, j: nat, c: CoreId) returns (k: nat)
    requires AllTraced(run, moves, c) && i < j < |moves| && moves[i] == moves[j] == Move(c, TickLock)
    requires (forall h :: i < h < j ==> moves[h] != Move(c, TickLock)) && c in run[i].current
    ensures i < k < j && JudgedAt(run, moves, i, k, c)
    ensures forall h :: i < h < j && moves[h].core == c && Judges(moves[h].step) ==> h == k
  {
    var judged := JudgesOnce(run, moves, i, j, c);
    assert Traced(run[j], moves[j], run[j + 1], c);
    k := judged;
  }

  /** Ticks a core has missed since it last got the list's lock. */
  function MissesSince(moves: seq<Move>, c: CoreId): nat {
    if moves == [] then 0 else
      var m := moves[|moves| - 1];
      if m == Move(c, TickLock) then 0
      else MissesSince(moves[..|moves| - 1], c) + if m == Move(c, TickMiss) then 1 else 0
  }

  /** What a move does to a core's counter of missed ticks. */
  ghost predicate Missed(s: System, m: Move, s': System, c: CoreId) {
    && c in s.miss && c in s'.miss
    && s'.miss[c] == (if m == Move(c, TickLock) then 0 else s.miss[c] + if m == Move(c, TickMiss) then 1 else 0)
    && (m == Move(c, TickMiss) ==> s.miss[c] <= MAX_TICK_MISS)
  }

  /** A core misses a tick only while another one holds the list's lock, for writing or so that it may become the
      writer. */
  lemma MissedBecauseHeld(numcores: nat, run: seq<System>, moves: seq<Move>, k: nat) returns (d: CoreId)
    requires IsRun(numcores, run, moves) && k < |moves| && moves[k].step == TickMiss
    ensures d != moves[k].core && d in run[k].pc && (Upgradeable(run[k].pc[d]) || Writes(run[k].pc[d]))
  {
    assert Next(numcores, run[k], moves[k].core, moves[k].step, run[k + 1]);
    RunInv(numcores, run, moves, k);
    d := if run[k].upgradeable.Some? then run[k].upgradeable.value else run[k].writer.value;
  }

  /** A core never misses more than 11 ticks in a row. */
  lemma MissesBounded(numcores: nat, run: seq<System>, moves: seq<Move>, n: nat, c: CoreId)
    requires IsRun(numcores, run, moves) && n < |run| && c in run[0].pc
    ensures c in run[n].miss && run[n].miss[c] == MissesSince(moves[..n], c) <= 11
  {
    forall k | 0 <= k < |moves|
      ensures Missed(run[k], moves[k], run[k + 1], c)
    {
      CounterStays(numcores, run, moves, k, c);
      MissStep(numcores, run[k], moves[k], run[k + 1], c);
    }
    MissesCounted(run, moves, n, c);
  }

  lemma {:induction false} MissesCounted(run: seq<System>, moves: seq<Move>, n: nat, c: CoreId)
    requires |run| == |moves| + 1 && n < |run| && c in run[0].miss && run[0].miss[c] == 0
    requires forall k :: 0 <= k < |moves| ==> Missed(run[k], moves[k], run[k + 1], c)
    ensures c in run[n].miss && run[n].miss[c] == MissesSince(moves[..n], c) <= 11
  {
    if n > 0 {
      MissesCounted(run, moves, n - 1, c);
      assert Missed(run[n - 1], moves[n - 1], run[n], c);
      MissesNext(moves[..n - 1], moves[n - 1], c);
      assert moves[..n] == moves[..n - 1] + [moves[n - 1]];
    }
  }

  lemma {:induction false} CounterStays(numcores: nat, run: seq<System>, moves: seq<Move>, n: nat, c: CoreId)
    requires IsRun(numcores, run, moves) && n < |run| && c in run[0].pc
    ensures c in run[n].miss
  {
    if n > 0 {
      CounterStays(numcores, run, moves, n - 1, c);
      MissStep(numcores, run[n - 1], moves[n - 1], run[n], c);
    }
  }

  lemma MissesNext(moves: seq<Move>, m: Move, c: CoreId)
    ensures MissesSince(moves + [m], c) ==
            if m == Move(c, TickLock) then 0 else MissesSince(moves, c) + if m == Move(c, TickMiss) then 1 else 0
  {
    assert (moves + [m])[..|moves|] == moves;
  }

  lemma MissStep(numcores: nat, s: System, m: Move, s': System, c: CoreId)
    requires Next(numcores, s, m.core, m.step, s') && c in s.miss
    ensures Missed(s, m, s', c)
  {
    if TickNext(numcores, s, m.core, m.step, s') {
      TickMissStep(numcores, s, m, s', c);
    } else {
      OtherMissStep(numcores, s, m.core, m.step, s');
    }
  }

  lemma TickMissStep(numcores: nat, s: System, m: Move, s': System, c: CoreId)
    requires m.core in s.pc && m.core in s.miss && TickNext(numcores, s, m.core, m.step, s') && c in s.miss
    ensures Missed(s, m, s', c)
  {
  }

  lemma OtherMissStep(numcores: nat, s: System, d: CoreId, step: Step, s': System)
    requires Next(numcores, s, d, step, s') && !TickNext(numcores, s, d, step, s')
    ensures s'.miss == s.miss && step != TickLock && step != TickMiss
  {
  }

  /** It can miss 11 in a row: one core has the list's lock, and the other ticks k times. */
  lemma {:induction false} MissesReached(k: nat) returns (run: seq<System>, moves: seq<Move>)
    requires k <= 11
    ensures IsRun(2, run, moves) && |moves| == k + 1 && MissesSince(moves, 1) == k
    ensures var s := run[k + 1]; s.pc == map[0 := Ticking, 1 := Idle] && s.upgradeable == Some(0)
    ensures run[k + 1].miss == map[0 := 0, 1 := k] && run[k + 1].writer == None
  {
    if k == 0 {
      run, moves := OneLocks();
    } else {
      run, moves := MissesReached(k - 1);
      var (s, s') := (run[k], run[k].(miss := run[k].miss[1 := k]));
      MissesNext(moves, Move(1, TickMiss), 1);
      OneMoreMove(2, run, moves, Move(1, TickMiss), s');
      run, moves := run + [s'], moves + [Move(1, TickMiss)];
    }
  }

  lemma OneLocks() returns (run: seq<System>, moves: seq<Move>)
    ensures IsRun(2, run, moves) && |moves| == 1 && MissesSince(moves, 1) == 0
    ensures var s := run[1]; s.pc == map[0 := Ticking, 1 := Idle] && s.upgradeable == Some(0)
    ensures run[1].miss == map[0 := 0, 1 := 0] && run[1].writer == None
  {
    var s := System([], map[], map[], map[0 := Idle, 1 := Idle], map[0 := 0, 1 := 0], {}, None, None, 0, 0);
    var s' := At(s, 0, Ticking).(upgradeable := Some(0), miss := s.miss[0 := 0]);
    run, moves := [s, s'], [Move(0, TickLock)];
    assert TickNext(2, s, 0, TickLock, s');
    assert MissesSince(moves, 1) == MissesSince(moves[..0], 1);
  }

  lemma OneMoreMove(numcores: nat, run: seq<System>, moves: seq<Move>, m: Move, s': System)
    requires IsRun(numcores, run, moves) && Next(numcores, run[|moves|], m.core, m.step, s')
    ensures IsRun(numcores, run + [s'], moves + [m])
  {
    var (run', moves') := (run + [s'], moves + [m]);
    forall k | 0 <= k < |moves'|
      ensures Next(numcores, run'[k], moves'[k].core, moves'[k].step, run'[k + 1])
    {
      if k < |moves| {
        assert Next(numcores, run[k], moves[k].core, moves[k].step, run[k + 1]);
      }
    }
  }

  // ---------------------------------------------------------------- a single core

  /** Only the core's own task runs, it is the head of the list, and a scan finds the head first. */
  ghost predicate OneCore(s: System, c: CoreId) {
    && c in s.pc && s.pc.Keys == {c}
    && (forall i :: 0 <= i < |s.tasks| && s.tasks[i] in s.store && s.store[s.tasks[i]].state.Running? ==>
          Claim(s, c) == Some(s.tasks[i]))
    && (Claim(s, c).Some? ==> s.tasks != [] && s.tasks[0] == Claim(s, c).value)
    && HeadFirst(s.pc[c], s.tasks)
    && (forall i, j :: 0 <= i < j < |s.tasks| && s.tasks[i] in s.store && s.tasks[j] in s.store ==>
          s.store[s.tasks[i]].id < s.store[s.tasks[j]].id)
  }

  /** A scan that has no candidate yet is at the head, and a candidate is the head. */
  predicate HeadFirst(pc: Pc, tasks: seq<TaskRef>) {
    pc.Scanning? || pc.Probing? ==>
      if pc.best.None? then pc.i == 0 || tasks == [] else pc.best.value.index == 0
  }

  lemma OneCoreMoves(s: System, c: CoreId, s': System)
    requires Inv(s) && OneCore(s, c) && c in s'.pc && Moves(s, c, s'.pc[c], s')
    requires HeadFirst(s'.pc[c], s.tasks)
    ensures OneCore(s', c)
  {
  }

  lemma OneCoreTick(numcores: nat, s: System, c: CoreId, step: Step, s': System)
    requires Inv(s) && OneCore(s, c) && c in s.miss && TickNext(numcores, s, c, step, s')
    ensures OneCore(s', c)
  {
    if step != TickMiss {
      TickMoves(numcores, s, c, step, s');
      OneCoreMoves(s, c, s');
    }
  }

  lemma OneCoreScan(numcores: nat, s: System, c: CoreId, step: Step, s': System)
    requires Inv(s) && OneCore(s, c) && c in s.miss && ScanNext(numcores, s, c, step, s')
    ensures OneCore(s', c)
  {
    NeverSwaps(numcores, s, c, s');
    NeverSkips(numcores, s, c, s');
    if step == ScanDrop {
      DropsOnlyBehind(numcores, s, c, s');
    }
    ScanMoves(numcores, s, c, step, s');
    OneCoreMoves(s, c, s');
  }

  /** With one core no lock is held by another. */
  lemma NeverSkips(numcores: nat, s: System, c: CoreId, s': System)
    requires OneCore(s, c) && c in s.miss
    ensures !ScanNext(numcores, s, c, ScanSkip, s')
  {
    assert forall t :: !LockedByOther(s, c, t);
  }

  /** With one core the head of the list is Pending when the core scans, and is not passed over. */
  lemma DropsOnlyBehind(numcores: nat, s: System, c: CoreId, s': System)
    requires Inv(s) && OneCore(s, c) && c in s.miss && ScanNext(numcores, s, c, ScanDrop, s')
    ensures s.pc[c].best.Some?
  {
    assert PcOk(s, s.pc[c]) && Claim(s, c) == None;
  }

  lemma OneCoreExit(numcores: nat, s: System, c: CoreId, step: Step, s': System)
    requires Inv(s) && OneCore(s, c) && c in s.miss && ExitNext(numcores, s, c, step, s')
    ensures OneCore(s', c)
  {
    ExitMoves(numcores, s, c, step, s');
    OneCoreMoves(s, c, s');
  }

  lemma OneCorePush(s: System, c: CoreId, made: TaskRef)
    requires Inv(s) && OneCore(s, c) && made !in s.store && Writes(s.pc[c])
    ensures OneCore(Pushed(s, made), c)
  {
    var s' := Pushed(s, made);
    assert Claim(s', c) == Claim(s, c);
    assert s'.tasks[..|s.tasks|] == s.tasks;
  }

  lemma OneCoreRelease(numcores: nat, s: System, c: CoreId, s': System)
    requires Inv(s) && OneCore(s, c) && c in s.miss && ChangeNext(numcores, s, c, Release, s')
    ensures OneCore(s', c)
  {
    assert Claim(s', c) == None;
  }

  lemma OneCoreMark(numcores: nat, s: System, c: CoreId, s': System)
    requires Inv(s) && OneCore(s, c) && c in s.miss && ChangeNext(numcores, s, c, Mark, s')
    ensures OneCore(s', c)
  {
    assert PcOk(s, s.pc[c]) && Claim(s, c) == None;
    assert Claim(s', c) == Some(s.pc[c].best.value.task);
  }

  lemma OneCoreRemove(numcores: nat, s: System, c: CoreId, s': System)
    requires Inv(s) && OneCore(s, c) && c in s.miss && ChangeNext(numcores, s, c, Remove, s')
    ensures OneCore(s', c)
  {
    assert PcOk(s, s.pc[c]) && Claim(s, c) == Some(s.tasks[s.pc[c].i]);
    assert s.pc[c].i == 0;
    assert s'.tasks == s.tasks[1..];
    assert c !in s.current ==> Claim(s', c) == None;
  }

  lemma OneCoreChange(numcores: nat, s: System, c: CoreId, step: Step, s': System)
    requires Inv(s) && OneCore(s, c) && c in s.miss && ChangeNext(numcores, s, c, step, s')
    ensures OneCore(s', c)
  {
    match step {
      case Release => OneCoreRelease(numcores, s, c, s');
      case Mark => OneCoreMark(numcores, s, c, s');
      case InitPush(made) => OneCorePushStep(s, c, made, s');
      case SpawnPush(made) => OneCorePushStep(s, c, made, s');
      case Remove => OneCoreRemove(numcores, s, c, s');
      case _ =>
    }
  }

  lemma OneCorePushStep(s: System, c: CoreId, made: TaskRef, s': System)
    requires Inv(s) && OneCore(s, c) && made !in s.store && Writes(s.pc[c])
    requires var s1 := Pushed(s, made);
             if s.pc[c].Starting?
             then s' == At(s1, c, Listed(s.pc[c].clock)).(writer := None, readers := s.readers + {c})
             else s' == At(s1, c, Idle).(writer := None)
    ensures OneCore(s', c)
  {
    var s1 := Pushed(s, made);
    OneCorePush(s, c, made);
    PushKeepsInv(s, made);
    if s.pc[c].Starting? {
      InitPushMoves(s1, c, s');
    } else {
      SpawnUnlockMoves(s1, c, s');
    }
    OneCoreMoves(s1, c, s');
  }

  lemma OneCoreSpawn(numcores: nat, s: System, c: CoreId, step: Step, s': System)
    requires Inv(s) && OneCore(s, c) && c in s.miss && SpawnNext(numcores, s, c, step, s')
    ensures OneCore(s', c)
  {
    SpawnMoves(numcores, s, c, step, s');
    OneCoreMoves(s, c, s');
  }

  lemma {:induction false} OneCoreRun(run: seq<System>, moves: seq<Move>, n: nat, c: CoreId)
    requires IsRun(1, run, moves) && n < |run| && run[0].pc.Keys == {c}
    ensures OneCore(run[n], c)
  {
    if n == 0 {
      assert c in run[0].pc;
    } else {
      var (s, m) := (run[n - 1], moves[n - 1]);
      OneCoreRun(run, moves, n - 1, c);
      RunInv(1, run, moves, n - 1);
      assert Next(1, s, m.core, m.step, run[n]) && m.core == c;
      if TickNext(1, s, c, m.step, run[n]) {
        OneCoreTick(1, s, c, m.step, run[n]);
      } else if ScanNext(1, s, c, m.step, run[n]) {
        OneCoreScan(1, s, c, m.step, run[n]);
      } else if ExitNext(1, s, c, m.step, run[n]) {
        OneCoreExit(1, s, c, m.step, run[n]);
      } else if SpawnNext(1, s, c, m.step, run[n]) {
        OneCoreSpawn(1, s, c, m.step, run[n]);
      } else {
        OneCoreChange(1, s, c, m.step, run[n]);
      }
    }
  }

  /** On one core tasks run in spawn order: the current task is the head of the list, every other listed task is
      Pending and was spawned later.  Time slices never let a later task run before the earlier ones have exited. */
  lemma RunsInSpawnOrder(run: seq<System>, moves: seq<Move>, n: nat, c: CoreId, i: nat)
    requires IsRun(1, run, moves) && n < |run| && run[0].pc.Keys == {c} && c in run[n].current && i < |run[n].tasks|
    ensures var s := run[n];
            && s.tasks[0] == s.current[c] && s.tasks[i] in s.store && s.tasks[0] in s.store
            && (i > 0 ==> s.store[s.tasks[i]].state == Pending && s.store[s.tasks[0]].id < s.store[s.tasks[i]].id)
  {
    OneCoreRun(run, moves, n, c);
    RunInv(1, run, moves, n);
    assert Claim(run[n], c) == Some(run[n].current[c]);
  }
}
