/**
 The scheduler never blocks for good: a core that cannot move waits for a lock, and in every state of every run some
 core can move.
 */
module SchedulerProgress {
  import opened Wrappers
  import opened Scheduler
  import opened SchedulerRuns
  import opened SchedulerTimes

  ghost predicate CanMove(numcores: nat, s: System, c: CoreId) {
    exists step, s' :: Next(numcores, s, c, step, s')
  }

  /** The core waits for the list's lock, for the readers of the list to leave, or for the lock of one task. */
  ghost predicate Waits(s: System, c: CoreId)
    requires c in s.pc && c in s.miss
  {
    match s.pc[c]
    case Idle => s.miss[c] > 10 && !CanLock(s)
    case Exiting(_) => !CanLock(s)
    case Clocked(_) => s.tasks == [] && s.readers != {}
    case Found(_, _) => s.readers != {}
    case Listed(_) => c in s.current && WrittenByOther(s, c, s.current[c])
    case Releasing(_, t) => LockedByOther(s, c, t)
    case Searching(_, i) => i < |s.tasks| && WrittenByOther(s, c, s.tasks[i])
    case _ => false
  }

  lemma TickCan(numcores: nat, s: System, c: CoreId, step: Step, s': System)
    requires c in s.pc && c in s.miss && TickNext(numcores, s, c, step, s')
    ensures CanMove(numcores, s, c)
  {
    assert Next(numcores, s, c, step, s');
  }

  lemma ScanCan(numcores: nat, s: System, c: CoreId, step: Step, s': System)
    requires c in s.pc && c in s.miss && ScanNext(numcores, s, c, step, s')
    ensures CanMove(numcores, s, c)
  {
    assert Next(numcores, s, c, step, s');
  }

  lemma ExitCan(numcores: nat, s: System, c: CoreId, step: Step, s': System)
    requires c in s.pc && c in s.miss && ExitNext(numcores, s, c, step, s')
    ensures CanMove(numcores, s, c)
  {
    assert Next(numcores, s, c, step, s');
  }

  lemma ChangeCan(numcores: nat, s: System, c: CoreId, step: Step, s': System)
    requires c in s.pc && c in s.miss && ChangeNext(numcores, s, c, step, s')
    ensures CanMove(numcores, s, c)
  {
    assert Next(numcores, s, c, step, s');
  }

  /** A task that is not there yet. */
  lemma NewRef(s: System) returns (made: TaskRef)
    ensures made !in s.store
  {
    made := Beyond(s.store.Keys);
  }

  lemma {:induction false} Beyond(refs: set<TaskRef>) returns (made: TaskRef)
    ensures forall t :: t in refs ==> t < made
    decreases refs
  {
    if refs == {} {
      made := 0;
    } else {
      var t :| t in refs;
      var above := Beyond(refs - {t});
      made := if t < above then above else t + 1;
      assert refs == (refs - {t}) + {t};
    }
  }

  lemma TickMovesOn(numcores: nat, s: System, c: CoreId)
    requires Inv(s) && c in s.pc && c in s.miss && !Waits(s, c)
    requires s.pc[c].Idle? || s.pc[c].Ticking? || s.pc[c].Clocked?
    ensures CanMove(numcores, s, c)
  {
    match s.pc[c] {
      case Idle =>
        if CanLock(s) {
          TickCan(numcores, s, c, TickLock, At(s, c, Ticking).(upgradeable := Some(c), miss := s.miss[c := 0]));
        } else {
          TickCan(numcores, s, c, TickMiss, s.(miss := s.miss[c := s.miss[c] + 1]));
        }
      case Ticking =>
        TickCan(numcores, s, c, FetchClock, At(s, c, Clocked(s.clock)).(clock := s.clock + 1));
      case Clocked(clock) =>
        if s.tasks == [] {
          TickCan(numcores, s, c, InitLock, At(s, c, Starting(clock)).(upgradeable := None, writer := Some(c)));
        } else {
          TickCan(numcores, s, c, Downgrade, At(s, c, Listed(clock)).(upgradeable := None, readers := s.readers + {c}));
        }
      case _ =>
    }
  }

  lemma JudgementMovesOn(numcores: nat, s: System, c: CoreId)
    requires Inv(s) && c in s.pc && c in s.miss && !Waits(s, c) && (s.pc[c].Listed? || s.pc[c].Releasing?)
    ensures CanMove(numcores, s, c)
  {
    if s.pc[c].Releasing? {
      var t := s.pc[c].task;
      assert Claim(s, c) == Some(t);
      ChangeCan(numcores, s, c, Release, At(SetState(s, t, Pending), c, Scanning(s.pc[c].clock, 0, None)));
    } else if c !in s.current {
      TickCan(numcores, s, c, NoCurrent, At(s, c, Scanning(s.pc[c].clock, 0, None)));
    } else {
      var t := s.current[c];
      assert Claim(s, c) == Some(t);
      if s.clock - s.store[t].state.since < LifeExpectancy(s.store[t], numcores) {
        TickCan(numcores, s, c, Keep, At(s, c, Idle).(readers := s.readers - {c}));
      } else {
        TickCan(numcores, s, c, Expire, At(s, c, Releasing(s.pc[c].clock, t)).(current := s.current - {c}));
      }
    }
  }

  /** Scanning cores never wait: they skip what is locked. */
  lemma ScanMovesOn(numcores: nat, s: System, c: CoreId)
    requires Positions(s) && c in s.pc && c in s.miss && s.pc[c].Scanning?
    ensures CanMove(numcores, s, c)
  {
    var (clock, i, best) := (s.pc[c].clock, s.pc[c].i, s.pc[c].best);
    assert PcOk(s, s.pc[c]);
    if i >= |s.tasks| {
      ScanEnds(numcores, s, c);
    } else if LockedByOther(s, c, s.tasks[i]) {
      ScanCan(numcores, s, c, ScanSkip, At(s, c, Scanning(clock, i + 1, best)));
    } else {
      ScanCan(numcores, s, c, ScanProbe, At(s, c, Probing(clock, i, best, s.tasks[i])));
    }
  }

  lemma ScanEnds(numcores: nat, s: System, c: CoreId)
    requires c in s.pc && c in s.miss && s.pc[c].Scanning? && PcOk(s, s.pc[c]) && s.pc[c].i >= |s.tasks|
    ensures CanMove(numcores, s, c)
  {
    if s.pc[c].best.None? {
      ScanCan(numcores, s, c, ScanDone, At(s, c, Idle).(readers := s.readers - {c}));
    } else {
      var b := s.pc[c].best.value;
      ChangeCan(numcores, s, c, Mark, At(SetState(s, b.task, Running(s.pc[c].clock)), c, Marked(b.index, b.task)));
    }
  }

  lemma AdoptMovesOn(numcores: nat, s: System, c: CoreId)
    requires Positions(s) && c in s.pc && c in s.miss && s.pc[c].Marked?
    ensures CanMove(numcores, s, c)
  {
    var index := s.pc[c].index;
    assert PcOk(s, s.pc[c]);
    ScanCan(numcores, s, c, Adopt,
          At(s, c, Idle).(readers := s.readers - {c}, current := s.current[c := s.tasks[index]]));
  }

  lemma ProbeMovesOn(numcores: nat, s: System, c: CoreId)
    requires Inv(s) && c in s.pc && c in s.miss && s.pc[c].Probing?
    ensures CanMove(numcores, s, c)
  {
    var (clock, i, best, t) := (s.pc[c].clock, s.pc[c].i, s.pc[c].best, s.pc[c].probed);
    assert PcOk(s, s.pc[c]);
    if s.store[t].state.Pending? && best.None? {
      ScanCan(numcores, s, c, ScanTake, At(s, c, Scanning(clock, i + 1, Some(Best(i, t)))));
    } else {
      ScanCan(numcores, s, c, ScanDrop, At(s, c, Scanning(clock, i + 1, best)));
    }
  }

  lemma ExitMovesOn(numcores: nat, s: System, c: CoreId)
    requires Inv(s) && c in s.pc && c in s.miss && !Waits(s, c) && Exits(s.pc[c])
    ensures CanMove(numcores, s, c)
  {
    if s.pc[c].Exiting? {
      ExitCan(numcores, s, c, ExitLock, At(s, c, Searching(s.pc[c].task, 0)).(upgradeable := Some(c)));
    } else if s.pc[c].Found? {
      FoundMovesOn(numcores, s, c);
    } else if s.pc[c].Peeking? {
      PeekMovesOn(numcores, s, c);
    } else {
      SearchMovesOn(numcores, s, c);
    }
  }

  lemma FoundMovesOn(numcores: nat, s: System, c: CoreId)
    requires Positions(s) && c in s.pc && c in s.miss && s.pc[c].Found? && s.readers == {}
    ensures CanMove(numcores, s, c)
  {
    var i := s.pc[c].i;
    assert PcOk(s, s.pc[c]);
    ChangeCan(numcores, s, c, Remove, At(s, c, Idle).(upgradeable := None, tasks := s.tasks[..i] + s.tasks[i + 1..]));
  }

  lemma SearchMovesOn(numcores: nat, s: System, c: CoreId)
    requires Inv(s) && c in s.pc && c in s.miss && !Waits(s, c) && s.pc[c].Searching?
    ensures CanMove(numcores, s, c)
  {
    var (t, i) := (s.pc[c].task, s.pc[c].i);
    if i < |s.tasks| {
      ExitCan(numcores, s, c, SearchRead, At(s, c, Peeking(t, i, s.tasks[i])));
    } else {
      ExitCan(numcores, s, c, SearchMiss, At(s, c, Idle).(upgradeable := None));
    }
  }

  lemma PeekMovesOn(numcores: nat, s: System, c: CoreId)
    requires ListInv(s) && ClaimsInv(s) && Positions(s) && c in s.pc && c in s.miss && s.pc[c].Peeking?
    ensures CanMove(numcores, s, c)
  {
    var (t, i, u) := (s.pc[c].task, s.pc[c].i, s.pc[c].peeked);
    assert PcOk(s, s.pc[c]) && Claim(s, c) == Some(t);
    if s.store[u].id == s.store[t].id {
      ExitCan(numcores, s, c, SearchHit, At(s, c, Found(t, i)));
    } else {
      ExitCan(numcores, s, c, SearchNext, At(s, c, Searching(t, i + 1)));
    }
  }

  lemma LoadMovesOn(numcores: nat, s: System, c: CoreId)
    requires c in s.pc && c in s.miss && Writes(s.pc[c])
    ensures CanMove(numcores, s, c)
  {
    var made := NewRef(s);
    if s.pc[c].Starting? {
      ChangeCan(numcores, s, c, InitPush(made),
            At(Pushed(s, made), c, Listed(s.pc[c].clock)).(writer := None, readers := s.readers + {c}));
    } else {
      ChangeCan(numcores, s, c, SpawnPush(made), At(Pushed(s, made), c, Idle).(writer := None));
    }
  }

  /** A core moves or waits for a lock. */
  lemma MovesOrWaits(numcores: nat, s: System, c: CoreId)
    requires Inv(s) && c in s.pc && c in s.miss
    ensures CanMove(numcores, s, c) || Waits(s, c)
  {
    if !Waits(s, c) {
      match s.pc[c] {
        case Scanning(_, _, _) => ScanMovesOn(numcores, s, c);
        case Marked(_, _) => AdoptMovesOn(numcores, s, c);
        case Probing(_, _, _, _) => ProbeMovesOn(numcores, s, c);
        case Listed(_) => JudgementMovesOn(numcores, s, c);
        case Releasing(_, _) => JudgementMovesOn(numcores, s, c);
        case Starting(_) => LoadMovesOn(numcores, s, c);
        case Loading => LoadMovesOn(numcores, s, c);
        case Idle => TickMovesOn(numcores, s, c);
        case Ticking => TickMovesOn(numcores, s, c);
        case Clocked(_) => TickMovesOn(numcores, s, c);
        case _ => ExitMovesOn(numcores, s, c);
      }
    }
  }

  // ---------------------------------------------------------------- no deadlock

  /** Who holds a task's lock does not wait. */
  lemma HoldersMove(numcores: nat, s: System, d: CoreId, t: TaskRef)
    requires Inv(s) && d in s.pc && d in s.miss && t in WriteGuards(s.pc[d]) + ReadGuards(s.pc[d])
    ensures CanMove(numcores, s, d)
  {
    MovesOrWaits(numcores, s, d);
  }

  /** A core that reads the list moves, or waits for one that moves. */
  lemma ReadersMove(numcores: nat, s: System, c: CoreId)
    requires Inv(s) && s.pc.Keys <= s.miss.Keys && c in s.pc && (Reads(s.pc[c]) || s.pc[c].Searching?)
    ensures exists d :: d in s.pc && CanMove(numcores, s, d)
  {
    MovesOrWaits(numcores, s, c);
    if Waits(s, c) {
      match s.pc[c] {
        case Listed(_) =>
          var d :| d in s.pc && d != c && s.current[c] in WriteGuards(s.pc[d]);
          HoldersMove(numcores, s, d, s.current[c]);
        case Releasing(_, t) =>
          var d :| d in s.pc && d != c && t in WriteGuards(s.pc[d]) + ReadGuards(s.pc[d]);
          HoldersMove(numcores, s, d, t);
        case Searching(_, i) =>
          var d :| d in s.pc && d != c && s.tasks[i] in WriteGuards(s.pc[d]);
          HoldersMove(numcores, s, d, s.tasks[i]);
        case _ =>
      }
    }
  }

  /** A core that holds the list's lock upgradeably or for writing moves, or waits for one that moves. */
  lemma OwnersMove(numcores: nat, s: System, c: CoreId)
    requires Inv(s) && ListSeen(s) && s.pc.Keys <= s.miss.Keys && c in s.pc && (Upgradeable(s.pc[c]) || Writes(s.pc[c]))
    ensures exists d :: d in s.pc && CanMove(numcores, s, d)
  {
    MovesOrWaits(numcores, s, c);
    if s.pc[c].Searching? {
      ReadersMove(numcores, s, c);
    } else if Waits(s, c) {
      var d :| d in s.readers;
      assert Reads(s.pc[d]);
      ReadersMove(numcores, s, d);
    }
  }

  lemma SomeoneMoves(numcores: nat, s: System, c: CoreId)
    requires Inv(s) && ListSeen(s) && s.pc.Keys <= s.miss.Keys && c in s.pc
    ensures exists d :: d in s.pc && CanMove(numcores, s, d)
  {
    MovesOrWaits(numcores, s, c);
    if Waits(s, c) {
      if s.pc[c].Idle? || s.pc[c].Exiting? {
        var d := if s.upgradeable.Some? then s.upgradeable.value else s.writer.value;
        OwnersMove(numcores, s, d);
      } else if Upgradeable(s.pc[c]) {
        OwnersMove(numcores, s, c);
      } else {
        ReadersMove(numcores, s, c);
      }
    }
  }

  /** In every state of every run some core can move, and every core moves or waits for a lock. */
  lemma NeverDeadlocked(numcores: nat, run: seq<System>, moves: seq<Move>, n: nat, c: CoreId)
    requires IsRun(numcores, run, moves) && n < |run| && c in run[0].pc
    ensures c in run[n].pc && c in run[n].miss && (CanMove(numcores, run[n], c) || Waits(run[n], c))
    ensures exists d :: d in run[n].pc && CanMove(numcores, run[n], d)
  {
    CoreStays(numcores, run, moves, n, c);
    CounterStays(numcores, run, moves, n, c);
    RunInv(numcores, run, moves, n);
    MovesOrWaits(numcores, run[n], c);
    AlwaysListSeen(numcores, run, moves, n);
    forall d | d in run[n].pc
      ensures d in run[n].miss
    {
      SameCores(numcores, run, moves, n);
      CounterStays(numcores, run, moves, n, d);
    }
    SomeoneMoves(numcores, run[n], c);
  }
}
