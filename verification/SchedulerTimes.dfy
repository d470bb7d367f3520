/**
 Clock and time slices over every run of the scheduler: what the clock counts, from when on a task's age is counted,
 and how long a task keeps its core.
 */
module SchedulerTimes {
  import opened Wrappers
  import opened Scheduler
  import opened SchedulerRuns

  /** How often the clock was read, by any core. */
  function Fetches(moves: seq<Move>): nat {
    if moves == [] then 0 else
      Fetches(moves[..|moves| - 1]) + if moves[|moves| - 1].step == FetchClock then 1 else 0
  }

  lemma {:induction false} FetchesSplit(moves: seq<Move>, j: nat)
    requires j <= |moves|
    ensures Fetches(moves) == Fetches(moves[..j]) + Fetches(moves[j..])
  {
    if j < |moves| {
      var n := |moves| - 1;
      FetchesSplit(moves[..n], j);
      assert moves[..n][..j] == moves[..j] && moves[..n][j..] == moves[j..][..n - j];
    } else {
      assert moves[..j] == moves;
    }
  }

  /** Positions at which a core carries the clock it has read. */
  predicate HasClock(pc: Pc) {
    pc.Clocked? || pc.Starting? || pc.Listed? || pc.Releasing? || pc.Scanning? || pc.Probing?
  }

  /** The core runs the task, or has marked it and is about to. */
  ghost predicate Holds(s: System, c: CoreId, t: TaskRef) {
    (c in s.pc && s.pc[c].Marked? && s.pc[c].task == t) || (c in s.current && s.current[c] == t)
  }

  ghost predicate StateKept(s: System, s': System, t: TaskRef) {
    t in s.store && t in s'.store && s'.store[t].state == s.store[t].state
  }

  /** What a move does to the clock and to the clock a core carries. */
  ghost predicate ClockMoved(s: System, m: Move, s': System, c: CoreId) {
    && s'.clock == s.clock + (if m.step == FetchClock then 1 else 0)
    && c in s.pc && s'.pc.Keys == s.pc.Keys
    && (m == Move(c, FetchClock) ==> s'.pc[c] == Clocked(s.clock))
    && (m != Move(c, FetchClock) && HasClock(s'.pc[c]) ==> HasClock(s.pc[c]) && s'.pc[c].clock == s.pc[c].clock)
  }

  /** What it does to the task the core holds. */
  ghost predicate TaskMoved(s: System, m: Move, s': System, c: CoreId) {
    if m == Move(c, Mark) then
      && c in s.pc && c in s'.pc && HasClock(s.pc[c]) && s'.pc[c].Marked? && c !in s'.current
      && s'.pc[c].task in s'.store && s'.store[s'.pc[c].task].state == Running(s.pc[c].clock)
    else
      forall t :: Holds(s', c, t) ==> Holds(s, c, t) && StateKept(s, s', t)
  }

  ghost predicate Ticked(s: System, m: Move, s': System, c: CoreId) {
    ClockMoved(s, m, s', c) && TaskMoved(s, m, s', c)
  }

  lemma HeldIsClaimed(s: System, c: CoreId, t: TaskRef)
    requires LocksInv(s) && ClaimsInv(s) && Holds(s, c, t)
    ensures c in s.pc && Claim(s, c) == Some(t) && t in s.tasks && t in s.store && s.store[t].state.Running?
  {
    assert c in s.current ==> HasCurrent(s.pc[c]);
  }

  /** Steps that leave the store alone, and give no core a task it did not hold. */
  lemma StoreSame(s: System, m: Move, s': System, c: CoreId)
    requires LocksInv(s) && ClaimsInv(s) && m.step != Mark && s'.store == s.store
    requires forall t :: Holds(s', c, t) ==> Holds(s, c, t)
    ensures TaskMoved(s, m, s', c)
  {
    forall t | Holds(s', c, t)
      ensures StateKept(s, s', t)
    {
      HeldIsClaimed(s, c, t);
    }
  }

  /** The part of a step that needs no more than the step itself: the clock, and that no core gains a task. */
  ghost predicate GainsNothing(s: System, m: Move, s': System, c: CoreId) {
    ClockMoved(s, m, s', c) && m.step != Mark && s'.store == s.store && forall t :: Holds(s', c, t) ==> Holds(s, c, t)
  }

  lemma TickClock(numcores: nat, s: System, d: CoreId, step: Step, s': System, c: CoreId)
    requires d in s.pc && d in s.miss && TickNext(numcores, s, d, step, s') && c in s.pc
    ensures GainsNothing(s, Move(d, step), s', c)
  {
  }

  lemma ExitClock(numcores: nat, s: System, d: CoreId, step: Step, s': System, c: CoreId)
    requires d in s.pc && d in s.miss && ExitNext(numcores, s, d, step, s') && c in s.pc
    ensures GainsNothing(s, Move(d, step), s', c)
  {
  }

  lemma SpawnClock(numcores: nat, s: System, d: CoreId, step: Step, s': System, c: CoreId)
    requires d in s.pc && d in s.miss && SpawnNext(numcores, s, d, step, s') && c in s.pc
    ensures GainsNothing(s, Move(d, step), s', c)
  {
  }

  lemma ScanClock(numcores: nat, s: System, d: CoreId, step: Step, s': System, c: CoreId)
    requires d in s.pc && d in s.miss && ScanNext(numcores, s, d, step, s') && c in s.pc && PcOk(s, s.pc[d])
    ensures GainsNothing(s, Move(d, step), s', c)
  {
  }

  lemma ChangeClock(numcores: nat, s: System, d: CoreId, step: Step, s': System, c: CoreId)
    requires d in s.pc && d in s.miss && ChangeNext(numcores, s, d, step, s') && c in s.pc
    ensures ClockMoved(s, Move(d, step), s', c)
    ensures (step != Mark || d != c) ==> forall t :: Holds(s', c, t) ==> Holds(s, c, t)
  {
  }

  /** A step that changes the store leaves alone what another core claims. */
  lemma ChangeSpares(numcores: nat, s: System, d: CoreId, step: Step, s': System, c: CoreId, t: TaskRef)
    requires Inv(s) && d in s.pc && d in s.miss && ChangeNext(numcores, s, d, step, s')
    requires c in s.pc && Claim(s, c) == Some(t) && (d == c ==> step != Mark && step != Release)
    ensures StateKept(s, s', t)
  {
    assert t in s.store && s.store[t].state.Running? && PcOk(s, s.pc[d]);
    assert d != c && Claim(s, d).Some? ==> Claim(s, d) != Claim(s, c);
  }

  lemma ChangeTicked(numcores: nat, s: System, d: CoreId, step: Step, s': System, c: CoreId)
    requires Inv(s) && d in s.pc && d in s.miss && ChangeNext(numcores, s, d, step, s') && c in s.pc
    ensures Ticked(s, Move(d, step), s', c)
  {
    ChangeClock(numcores, s, d, step, s', c);
    if step == Mark && d == c {
      assert c in s.current ==> HasCurrent(s.pc[c]);
    } else {
      forall t | Holds(s', c, t)
        ensures StateKept(s, s', t)
      {
        HeldIsClaimed(s, c, t);
        ReleasedIsNotHeld(numcores, s, d, step, s', c, t);
        ChangeSpares(numcores, s, d, step, s', c, t);
      }
    }
  }

  lemma ReleasedIsNotHeld(numcores: nat, s: System, d: CoreId, step: Step, s': System, c: CoreId, t: TaskRef)
    requires ClaimsInv(s) && d in s.pc && d in s.miss && ChangeNext(numcores, s, d, step, s') && Holds(s', c, t)
    requires c in s.pc
    ensures !(d == c && step == Release)
  {
    assert c in s.current ==> HasCurrent(s.pc[c]);
  }

  lemma NextTicked(numcores: nat, s: System, m: Move, s': System, c: CoreId)
    requires Inv(s) && Next(numcores, s, m.core, m.step, s') && c in s.pc
    ensures Ticked(s, m, s', c)
  {
    if ChangeNext(numcores, s, m.core, m.step, s') {
      ChangeTicked(numcores, s, m.core, m.step, s', c);
    } else {
      OtherClock(numcores, s, m, s', c);
      StoreSame(s, m, s', c);
    }
  }

  lemma OtherClock(numcores: nat, s: System, m: Move, s': System, c: CoreId)
    requires ScansInv(s) && Next(numcores, s, m.core, m.step, s') && c in s.pc
    requires !ChangeNext(numcores, s, m.core, m.step, s')
    ensures GainsNothing(s, m, s', c)
  {
    if TickNext(numcores, s, m.core, m.step, s') {
      TickClock(numcores, s, m.core, m.step, s', c);
    } else if ScanNext(numcores, s, m.core, m.step, s') {
      ScanClock(numcores, s, m.core, m.step, s', c);
    } else if ExitNext(numcores, s, m.core, m.step, s') {
      ExitClock(numcores, s, m.core, m.step, s', c);
    } else {
      SpawnClock(numcores, s, m.core, m.step, s', c);
    }
  }

  ghost predicate AllTicked(run: seq<System>, moves: seq<Move>, c: CoreId) {
    |run| == |moves| + 1 && forall k :: 0 <= k < |moves| ==> Ticked(run[k], moves[k], run[k + 1], c)
  }

  lemma TickedAt(numcores: nat, run: seq<System>, moves: seq<Move>, k: nat, c: CoreId)
    requires IsRun(numcores, run, moves) && k < |moves| && c in run[k].pc
    ensures Ticked(run[k], moves[k], run[k + 1], c)
  {
    RunInv(numcores, run, moves, k);
    NextTicked(numcores, run[k], moves[k], run[k + 1], c);
  }

  /** What every move does to the clock and to the set of cores. */
  ghost predicate AllClocked(run: seq<System>, moves: seq<Move>) {
    && |run| == |moves| + 1
    && forall k {:trigger moves[k]} :: 0 <= k < |moves| ==> Clocks(run[k], moves[k], run[k + 1])
  }

  ghost predicate Clocks(s: System, m: Move, s': System) {
    s'.clock == s.clock + (if m.step == FetchClock then 1 else 0) && s'.pc.Keys == s.pc.Keys
  }

  lemma RunClocked(numcores: nat, run: seq<System>, moves: seq<Move>)
    requires IsRun(numcores, run, moves)
    ensures AllClocked(run, moves)
  {
    forall k | 0 <= k < |moves|
      ensures Clocks(run[k], moves[k], run[k + 1])
    {
      ClockedAt(numcores, run, moves, k);
    }
  }

  lemma ClockedAt(numcores: nat, run: seq<System>, moves: seq<Move>, k: nat)
    requires IsRun(numcores, run, moves) && k < |moves|
    ensures Clocks(run[k], moves[k], run[k + 1])
  {
    CoreMoves(numcores, run, moves, k);
    TickedAt(numcores, run, moves, k, moves[k].core);
  }

  lemma {:induction false} CoresKept(run: seq<System>, moves: seq<Move>, n: nat)
    requires AllClocked(run, moves) && n < |run|
    ensures run[n].pc.Keys == run[0].pc.Keys
  {
    if n > 0 {
      CoresKept(run, moves, n - 1);
      assert Clocks(run[n - 1], moves[n - 1], run[n]);
    }
  }

  lemma SameCores(numcores: nat, run: seq<System>, moves: seq<Move>, n: nat)
    requires IsRun(numcores, run, moves) && n < |run|
    ensures run[n].pc.Keys == run[0].pc.Keys
  {
    RunClocked(numcores, run, moves);
    CoresKept(run, moves, n);
  }

  lemma RunTicked(numcores: nat, run: seq<System>, moves: seq<Move>, n: nat, c: CoreId)
    requires IsRun(numcores, run, moves) && n < |run| && c in run[n].pc
    ensures c in run[0].pc && AllTicked(run, moves, c)
  {
    SameCores(numcores, run, moves, n);
    forall k | 0 <= k < |moves|
      ensures Ticked(run[k], moves[k], run[k + 1], c)
    {
      SameCores(numcores, run, moves, k);
      TickedAt(numcores, run, moves, k, c);
    }
  }

  lemma {:induction false} Counted(run: seq<System>, moves: seq<Move>, n: nat)
    requires AllClocked(run, moves) && n < |run|
    ensures run[n].clock == run[0].clock + Fetches(moves[..n])
  {
    if n > 0 {
      Counted(run, moves, n - 1);
      assert Clocks(run[n - 1], moves[n - 1], run[n]);
      assert moves[..n][..n - 1] == moves[..n - 1];
    }
  }

  /** The clock counts how often it was read. */
  lemma ClockCounts(numcores: nat, run: seq<System>, moves: seq<Move>, n: nat)
    requires IsRun(numcores, run, moves) && n < |run|
    ensures run[n].clock == Fetches(moves[..n])
  {
    RunClocked(numcores, run, moves);
    Counted(run, moves, n);
  }

  /** Move k is the last of its kind before move n. */
  ghost predicate IsLast(moves: seq<Move>, n: nat, k: nat, m: Move) {
    k < n <= |moves| && moves[k] == m && forall h :: k < h < n ==> moves[h] != m
  }

  /** The clock was c's last reading before move n. */
  ghost predicate ReadBefore(run: seq<System>, moves: seq<Move>, n: nat, c: CoreId, clock: nat)
    requires |run| == |moves| + 1
  {
    exists j: nat :: IsLast(moves, n, j, Move(c, FetchClock)) && run[j].clock == clock
  }

  /** The task is the one that c marked last, at move k, and its age counts from the clock c had read for it, at j. */
  ghost predicate SliceFrom(run: seq<System>, moves: seq<Move>, n: nat, c: CoreId, t: TaskRef, j: nat, k: nat)
    requires |run| == |moves| + 1 && n < |run|
  {
    && IsLast(moves, n, k, Move(c, Mark)) && IsLast(moves, k, j, Move(c, FetchClock))
    && c in run[k + 1].pc && run[k + 1].pc[c].Marked? && run[k + 1].pc[c].task == t
    && t in run[n].store && run[n].store[t].state == Running(run[j].clock)
  }

  lemma SliceGoesOn(run: seq<System>, moves: seq<Move>, n: nat, c: CoreId, t: TaskRef)
    requires |run| == |moves| + 1 && n < |moves| && HasSlice(run, moves, n, c, t)
    requires moves[n] != Move(c, Mark) && StateKept(run[n], run[n + 1], t)
    ensures HasSlice(run, moves, n + 1, c, t)
  {
    var j: nat, k: nat :| SliceFrom(run, moves, n, c, t, j, k);
    assert SliceFrom(run, moves, n + 1, c, t, j, k);
  }

  ghost predicate HasSlice(run: seq<System>, moves: seq<Move>, n: nat, c: CoreId, t: TaskRef)
    requires |run| == |moves| + 1 && n < |run|
  {
    exists j: nat, k: nat :: SliceFrom(run, moves, n, c, t, j, k)
  }

  lemma {:induction false} ClocksCarried(run: seq<System>, moves: seq<Move>, n: nat, c: CoreId)
    requires AllTicked(run, moves, c) && n < |run| && c in run[0].pc && run[0].pc[c] == Idle
    ensures c in run[n].pc && (HasClock(run[n].pc[c]) ==> ReadBefore(run, moves, n, c, run[n].pc[c].clock))
  {
    if n > 0 {
      ClocksCarried(run, moves, n - 1, c);
      assert Ticked(run[n - 1], moves[n - 1], run[n], c);
      if HasClock(run[n].pc[c]) {
        ReadingStays(run, moves, n - 1, c, run[n].pc[c].clock);
      }
    }
  }

  lemma ReadingStays(run: seq<System>, moves: seq<Move>, n: nat, c: CoreId, clock: nat)
    requires |run| == |moves| + 1 && n < |moves|
    requires if moves[n] == Move(c, FetchClock) then run[n].clock == clock else ReadBefore(run, moves, n, c, clock)
    ensures ReadBefore(run, moves, n + 1, c, clock)
  {
    var j: nat;
    if moves[n] == Move(c, FetchClock) {
      j := n;
    } else {
      j :| IsLast(moves, n, j, Move(c, FetchClock)) && run[j].clock == clock;
    }
    assert IsLast(moves, n + 1, j, Move(c, FetchClock));
  }

  /** A task that c marks at move k starts with the clock c has read last. */
  lemma MarkedNow(run: seq<System>, moves: seq<Move>, k: nat, c: CoreId)
    requires AllTicked(run, moves, c) && k < |moves| && c in run[0].pc && run[0].pc[c] == Idle
    requires moves[k] == Move(c, Mark)
    ensures c in run[k + 1].pc && run[k + 1].pc[c].Marked? && HasSlice(run, moves, k + 1, c, run[k + 1].pc[c].task)
  {
    ClocksCarried(run, moves, k, c);
    assert Ticked(run[k], moves[k], run[k + 1], c);
    var j: nat :| IsLast(moves, k, j, Move(c, FetchClock)) && run[j].clock == run[k].pc[c].clock;
    assert SliceFrom(run, moves, k + 1, c, run[k + 1].pc[c].task, j, k);
  }

  lemma HeldBefore(s: System, m: Move, s': System, c: CoreId, t: TaskRef)
    requires Ticked(s, m, s', c) && Holds(s', c, t)
    ensures if m == Move(c, Mark) then c in s'.pc && s'.pc[c].Marked? && s'.pc[c].task == t
            else Holds(s, c, t) && StateKept(s, s', t)
  {
  }

  lemma {:induction false} SlicesKept(run: seq<System>, moves: seq<Move>, n: nat, c: CoreId, t: TaskRef)
    requires AllTicked(run, moves, c) && n < |run| && c in run[0].pc && run[0].pc[c] == Idle && c !in run[0].current
    requires Holds(run[n], c, t)
    ensures HasSlice(run, moves, n, c, t)
  {
    if n > 0 {
      assert Ticked(run[n - 1], moves[n - 1], run[n], c);
      HeldBefore(run[n - 1], moves[n - 1], run[n], c, t);
      if moves[n - 1] == Move(c, Mark) {
        MarkedNow(run, moves, n - 1, c);
      } else {
        SlicesKept(run, moves, n - 1, c, t);
        SliceGoesOn(run, moves, n - 1, c, t);
      }
    }
  }

  /** Whenever a core marks a task, the task is Running from then on, and its age counts from the clock the core read at
      the start of that very tick. */
  lemma MarkedWithFreshClock(numcores: nat, run: seq<System>, moves: seq<Move>, k: nat) returns (j: nat)
    requires IsRun(numcores, run, moves) && k < |moves| && moves[k].step == Mark
    ensures var (s', c) := (run[k + 1], moves[k].core);
            && IsLast(moves, k, j, Move(c, FetchClock)) && c in s'.pc && s'.pc[c].Marked?
            && s'.pc[c].task in s'.store && s'.store[s'.pc[c].task].state == Running(run[j].clock)
    ensures run[j].clock == Fetches(moves[..j])
  {
    var c := moves[k].core;
    assert Next(numcores, run[k], c, Mark, run[k + 1]);
    RunTicked(numcores, run, moves, k, c);
    MarkedNow(run, moves, k, c);
    var i: nat, h: nat :| SliceFrom(run, moves, k + 1, c, run[k + 1].pc[c].task, i, h);
    assert h == k;
    j := i;
    ClockCounts(numcores, run, moves, j);
  }

  lemma CurrentSlice(numcores: nat, run: seq<System>, moves: seq<Move>, n: nat, c: CoreId) returns (j: nat, k: nat)
    requires IsRun(numcores, run, moves) && n < |run| && c in run[n].pc && c in run[n].current
    ensures SliceFrom(run, moves, n, c, run[n].current[c], j, k)
  {
    RunTicked(numcores, run, moves, n, c);
    SlicesKept(run, moves, n, c, run[n].current[c]);
    j, k :| SliceFrom(run, moves, n, c, run[n].current[c], j, k);
  }

  lemma ClockSince(numcores: nat, run: seq<System>, moves: seq<Move>, j: nat, n: nat)
    requires IsRun(numcores, run, moves) && j <= n < |run|
    ensures run[n].clock - run[j].clock == Fetches(moves[j..n])
  {
    ClockCounts(numcores, run, moves, n);
    ClockCounts(numcores, run, moves, j);
    FetchesSplit(moves[..n], j);
    assert moves[..n][..j] == moves[..j] && moves[..n][j..] == moves[j..n];
  }

  /** A task keeps its core until the clock has been read ten times per core since the tick that adopted it, by whatever
      cores, and is released at the first judgement after that. */
  lemma SliceLength(numcores: nat, run: seq<System>, moves: seq<Move>, e: nat) returns (j: nat, k: nat)
    requires IsRun(numcores, run, moves) && e < |moves| && Judges(moves[e].step)
    ensures var c := moves[e].core;
            && IsLast(moves, e, k, Move(c, Mark)) && IsLast(moves, k, j, Move(c, FetchClock))
            && c in run[e].current && c in run[k + 1].pc && run[k + 1].pc[c].Marked?
            && run[k + 1].pc[c].task == run[e].current[c]
    ensures moves[e].step == Expire <==> Fetches(moves[j..e]) >= 10 * numcores
  {
    JudgedByAge(numcores, run, moves, e);
    CoreMoves(numcores, run, moves, e);
    j, k := CurrentSlice(numcores, run, moves, e, moves[e].core);
    ClockSince(numcores, run, moves, j, e);
  }

  lemma CoreMoves(numcores: nat, run: seq<System>, moves: seq<Move>, k: nat)
    requires IsRun(numcores, run, moves) && k < |moves|
    ensures moves[k].core in run[k].pc
  {
    assert Next(numcores, run[k], moves[k].core, moves[k].step, run[k + 1]);
  }
}
