/**
 What every run of the scheduler leaves no task without: a Running task always has a core that answers for it, and a
 core that looks for a task passes over one only if it is locked or not Pending at that moment.
 */
module SchedulerSearch {
  import opened Wrappers
  import opened Scheduler
  import opened SchedulerRuns

  // ---------------------------------------------------------------- no task is lost

  ghost predicate HasClaim(s: System, t: TaskRef) {
    exists c :: c in s.pc && Claim(s, c) == Some(t)
  }

  /** Every listed task that is Running has a core that answers for it. */
  ghost predicate AllClaimed(s: System) {
    forall t :: t in s.tasks && t in s.store && s.store[t].state.Running? ==> HasClaim(s, t)
  }

  lemma ClaimStays(s: System, s': System, t: TaskRef)
    requires HasClaim(s, t) && forall d :: d in s.pc && Claim(s, d) == Some(t) ==> d in s'.pc && Claim(s', d) == Some(t)
    ensures HasClaim(s', t)
  {
  }

  lemma MovesKeepsClaimed(s: System, c: CoreId, pc: Pc, s': System)
    requires Moves(s, c, pc, s') && AllClaimed(s)
    ensures AllClaimed(s')
  {
    forall t | t in s'.tasks && t in s'.store && s'.store[t].state.Running?
      ensures HasClaim(s', t)
    {
      ClaimStays(s, s', t);
    }
  }

  lemma PushKeepsClaimed(s: System, made: TaskRef)
    requires AllClaimed(s) && made !in s.store
    ensures AllClaimed(Pushed(s, made))
  {
    var s' := Pushed(s, made);
    forall t | t in s'.tasks && t in s'.store && s'.store[t].state.Running?
      ensures HasClaim(s', t)
    {
      ClaimStays(s, s', t);
    }
  }

  lemma ReleaseKeepsClaimed(numcores: nat, s: System, c: CoreId, s': System)
    requires AllClaimed(s) && c in s.pc && c in s.miss && ChangeNext(numcores, s, c, Release, s')
    ensures AllClaimed(s')
  {
    forall t | t in s'.tasks && t in s'.store && s'.store[t].state.Running?
      ensures HasClaim(s', t)
    {
      assert t != s.pc[c].task && Claim(s, c) == Some(s.pc[c].task);
      ClaimStays(s, s', t);
    }
  }

  lemma MarkKeepsClaimed(numcores: nat, s: System, c: CoreId, s': System)
    requires AllClaimed(s) && c in s.pc && c in s.miss && ChangeNext(numcores, s, c, Mark, s')
    ensures AllClaimed(s')
  {
    forall t | t in s'.tasks && t in s'.store && s'.store[t].state.Running?
      ensures HasClaim(s', t)
    {
      if t == s.pc[c].best.value.task {
        assert Claim(s', c) == Some(t);
      } else {
        assert Claim(s, c) == None;
        ClaimStays(s, s', t);
      }
    }
  }

  lemma RemoveKeepsClaimed(numcores: nat, s: System, c: CoreId, s': System)
    requires ListInv(s) && ScansInv(s) && AllClaimed(s) && c in s.pc && c in s.miss
    requires ChangeNext(numcores, s, c, Remove, s')
    ensures AllClaimed(s')
  {
    assert PcOk(s, s.pc[c]) && s'.tasks == Without(s.tasks, s.pc[c].i);
    WithoutMembers(s.tasks, s.pc[c].i);
    forall t | t in s'.tasks && t in s'.store && s'.store[t].state.Running?
      ensures HasClaim(s', t)
    {
      assert t != s.pc[c].task && Claim(s, c) == Some(s.pc[c].task);
      ClaimStays(s, s', t);
    }
  }

  lemma PushStepKeepsClaimed(numcores: nat, s: System, c: CoreId, step: Step, made: TaskRef, s': System)
    requires Inv(s) && AllClaimed(s) && c in s.pc && c in s.miss && ChangeNext(numcores, s, c, step, s')
    requires step == InitPush(made) || step == SpawnPush(made)
    ensures AllClaimed(s')
  {
    var s1 := Pushed(s, made);
    PushKeepsInv(s, made);
    PushKeepsClaimed(s, made);
    if s.pc[c].Starting? {
      InitPushMoves(s1, c, s');
    } else {
      SpawnUnlockMoves(s1, c, s');
    }
    MovesKeepsClaimed(s1, c, s'.pc[c], s');
  }

  lemma NextKeepsClaimed(numcores: nat, s: System, c: CoreId, step: Step, s': System)
    requires Inv(s) && AllClaimed(s) && Next(numcores, s, c, step, s')
    ensures AllClaimed(s')
  {
    if ChangeNext(numcores, s, c, step, s') {
      match step {
        case Release => ReleaseKeepsClaimed(numcores, s, c, s');
        case Mark => MarkKeepsClaimed(numcores, s, c, s');
        case InitPush(made) => PushStepKeepsClaimed(numcores, s, c, step, made, s');
        case SpawnPush(made) => PushStepKeepsClaimed(numcores, s, c, step, made, s');
        case Remove => RemoveKeepsClaimed(numcores, s, c, s');
        case _ =>
      }
    } else {
      OnlyMoves(numcores, s, c, step, s');
      if step == TickMiss {
        SameClaims(s, s');
      } else {
        MovesKeepsClaimed(s, c, s'.pc[c], s');
      }
    }
  }

  lemma SameClaims(s: System, s': System)
    requires AllClaimed(s) && s' == s.(miss := s'.miss)
    ensures AllClaimed(s')
  {
    forall t | t in s'.tasks && t in s'.store && s'.store[t].state.Running?
      ensures HasClaim(s', t)
    {
      ClaimStays(s, s', t);
    }
  }

  /** In every state of every run, a listed task is Running if and only if a core runs it, has just chosen it, or is
      about to release or remove it: no task is left Running without a core, and none is Pending with one. */
  lemma {:induction false} RunningIffClaimed(numcores: nat, run: seq<System>, moves: seq<Move>, n: nat)
    requires IsRun(numcores, run, moves) && n < |run|
    ensures AllClaimed(run[n])
    ensures var s := run[n];
            forall t :: t in s.tasks ==> t in s.store && (s.store[t].state.Running? <==> HasClaim(s, t))
  {
    if n == 0 {
      assert run[0].tasks == [];
    } else {
      RunningIffClaimed(numcores, run, moves, n - 1);
      ClaimedStep(numcores, run, moves, n - 1);
    }
    ListedAt(numcores, run, moves, n);
  }

  lemma ClaimedStep(numcores: nat, run: seq<System>, moves: seq<Move>, k: nat)
    requires IsRun(numcores, run, moves) && k < |moves| && AllClaimed(run[k])
    ensures AllClaimed(run[k + 1])
  {
    RunInv(numcores, run, moves, k);
    NextKeepsClaimed(numcores, run[k], moves[k].core, moves[k].step, run[k + 1]);
  }

  lemma ListedAt(numcores: nat, run: seq<System>, moves: seq<Move>, n: nat)
    requires IsRun(numcores, run, moves) && n < |run|
    ensures var s := run[n];
            forall t :: t in s.tasks ==> t in s.store && (HasClaim(s, t) ==> s.store[t].state.Running?)
  {
    RunInv(numcores, run, moves, n);
    ListedStored(run[n]);
  }

  lemma ListedStored(s: System)
    requires ListInv(s) && ClaimsInv(s)
    ensures forall t :: t in s.tasks ==> t in s.store && (HasClaim(s, t) ==> s.store[t].state.Running?)
  {
  }

  // ---------------------------------------------------------------- what a scan passes over

  predicate InScan(pc: Pc) {
    pc.Scanning? || pc.Probing?
  }

  /** The scan has passed over all tasks before this index: that of its candidate, or the one it looks at. */
  function Frontier(pc: Pc): nat
    requires InScan(pc)
  {
    if pc.best.Some? then pc.best.value.index else pc.i
  }

  /** There is a reason not to take the task at index x: another core holds its lock, or it is not Pending. */
  ghost predicate Refused(s: System, c: CoreId, x: nat) {
    && x < |s.tasks|
    && (LockedByOther(s, c, s.tasks[x]) || (s.tasks[x] in s.store && !s.store[s.tasks[x]].state.Pending?))
  }

  /** A move leaves a scanning core's frontier and the list where they are, or starts a scan, or passes over one task
      that is refused. */
  ghost predicate Scanned(s: System, s': System, c: CoreId)
    requires c in s.pc && c in s'.pc && InScan(s'.pc[c])
  {
    if !InScan(s.pc[c]) then Frontier(s'.pc[c]) == 0
    else
      && s'.tasks == s.tasks
      && (|| Frontier(s'.pc[c]) == Frontier(s.pc[c])
          || (Frontier(s'.pc[c]) == Frontier(s.pc[c]) + 1 && Refused(s, c, Frontier(s.pc[c]))))
  }

  lemma OwnScan(numcores: nat, s: System, c: CoreId, step: Step, s': System)
    requires Inv(s) && c in s.pc && c in s.miss && ScanNext(numcores, s, c, step, s') && c in s'.pc && InScan(s'.pc[c])
    ensures Scanned(s, s', c)
  {
    NeverSwaps(numcores, s, c, s');
    assert PcOk(s, s.pc[c]);
  }

  lemma ScanStarts(numcores: nat, s: System, c: CoreId, step: Step, s': System)
    requires c in s.pc && c in s.miss && !ScanNext(numcores, s, c, step, s') && Next(numcores, s, c, step, s')
    requires c in s'.pc && InScan(s'.pc[c])
    ensures Scanned(s, s', c)
  {
  }

  /** While a core scans, the list stays as it is and other cores do not move it. */
  lemma OthersScanning(numcores: nat, s: System, d: CoreId, step: Step, s': System, c: CoreId)
    requires Inv(s) && Next(numcores, s, d, step, s') && d != c && c in s.pc && InScan(s.pc[c])
    ensures c in s'.pc && s'.pc[c] == s.pc[c] && s'.tasks == s.tasks
  {
    assert c in s.readers;
    if ChangeNext(numcores, s, d, step, s') {
      assert s.writer == None;
    } else {
      OnlyMoves(numcores, s, d, step, s');
    }
  }

  lemma NextScanned(numcores: nat, s: System, m: Move, s': System, c: CoreId)
    requires Inv(s) && Next(numcores, s, m.core, m.step, s') && c in s.pc && c in s'.pc && InScan(s'.pc[c])
    ensures Scanned(s, s', c)
  {
    if m.core == c {
      if ScanNext(numcores, s, c, m.step, s') {
        OwnScan(numcores, s, c, m.step, s');
      } else {
        ScanStarts(numcores, s, c, m.step, s');
      }
    } else {
      OthersKeepTask(numcores, s, m.core, m.step, s', c);
      OthersScanning(numcores, s, m.core, m.step, s', c);
    }
  }

  /** Since state h the core has been in one scan, over the list as it is in state n. */
  ghost predicate OneScan(run: seq<System>, h: nat, n: nat, c: CoreId) {
    && h <= n < |run|
    && forall g :: h <= g <= n ==> c in run[g].pc && InScan(run[g].pc[c]) && run[g].tasks == run[n].tasks
  }

  /** In the scan that the core is in, the task at index x was refused when the core looked at it. */
  ghost predicate PassedOver(run: seq<System>, n: nat, c: CoreId, x: nat) {
    exists h: nat :: OneScan(run, h, n, c) && Refused(run[h], c, x)
  }

  lemma PassedStays(run: seq<System>, n: nat, c: CoreId, x: nat)
    requires n + 1 < |run| && PassedOver(run, n, c, x)
    requires c in run[n + 1].pc && InScan(run[n + 1].pc[c]) && run[n + 1].tasks == run[n].tasks
    ensures PassedOver(run, n + 1, c, x)
  {
    var h: nat :| OneScan(run, h, n, c) && Refused(run[h], c, x);
    assert OneScan(run, h, n + 1, c);
  }

  ghost predicate AllScanned(run: seq<System>, c: CoreId) {
    && (forall k :: 0 <= k < |run| ==> c in run[k].pc)
    && (forall k :: 0 < k < |run| && InScan(run[k].pc[c]) ==> Scanned(run[k - 1], run[k], c))
  }

  lemma RunScanned(numcores: nat, run: seq<System>, moves: seq<Move>, c: CoreId)
    requires IsRun(numcores, run, moves) && c in run[0].pc
    ensures AllScanned(run, c)
  {
    forall k | 0 <= k < |run|
      ensures c in run[k].pc
    {
      CoreStays(numcores, run, moves, k, c);
    }
    forall k | 0 < k < |run| && InScan(run[k].pc[c])
      ensures Scanned(run[k - 1], run[k], c)
    {
      ScannedAt(numcores, run, moves, k, c);
    }
  }

  lemma ScannedAt(numcores: nat, run: seq<System>, moves: seq<Move>, k: nat, c: CoreId)
    requires IsRun(numcores, run, moves) && 0 < k < |run|
    requires c in run[k - 1].pc && c in run[k].pc && InScan(run[k].pc[c])
    ensures Scanned(run[k - 1], run[k], c)
  {
    RunInv(numcores, run, moves, k - 1);
    NextScanned(numcores, run[k - 1], moves[k - 1], run[k], c);
  }

  lemma {:induction false} ScanPassed(run: seq<System>, n: nat, c: CoreId, x: nat)
    requires AllScanned(run, c) && n < |run| && !InScan(run[0].pc[c])
    requires InScan(run[n].pc[c]) && x < Frontier(run[n].pc[c])
    ensures PassedOver(run, n, c, x)
  {
    assert Scanned(run[n - 1], run[n], c);
    if x < Frontier(run[n - 1].pc[c]) {
      ScanPassed(run, n - 1, c, x);
    } else {
      assert OneScan(run, n - 1, n - 1, c);
    }
    PassedStays(run, n - 1, c, x);
  }

  /** A core takes the first task of the list that it can: every task before the one it marks was locked by another core
      or not Pending when the core looked at it, in this very scan. */
  lemma TakesFirst(numcores: nat, run: seq<System>, moves: seq<Move>, k: nat, c: CoreId, x: nat)
    requires IsRun(numcores, run, moves) && k < |moves| && moves[k] == Move(c, Mark) && c in run[0].pc
    ensures c in run[k].pc && run[k].pc[c].Scanning? && run[k].pc[c].best.Some?
    ensures var b := run[k].pc[c].best.value;
            && b.index < |run[k].tasks| && run[k].tasks[b.index] == b.task
            && b.task in run[k].store && run[k].store[b.task].state.Pending?
            && (x < b.index ==> PassedOver(run, k, c, x))
  {
    assert Next(numcores, run[k], c, Mark, run[k + 1]);
    RunInv(numcores, run, moves, k);
    assert PcOk(run[k], run[k].pc[c]);
    RunScanned(numcores, run, moves, c);
    if x < run[k].pc[c].best.value.index {
      ScanPassed(run, k, c, x);
    }
  }

  /** A core goes idle only if every task of the list was locked by another core or not Pending. */
  lemma IdlesOnlyWithoutWork(numcores: nat, run: seq<System>, moves: seq<Move>, k: nat, c: CoreId, x: nat)
    requires IsRun(numcores, run, moves) && k < |moves| && moves[k] == Move(c, ScanDone) && c in run[0].pc
    requires x < |run[k].tasks|
    ensures PassedOver(run, k, c, x)
  {
    assert Next(numcores, run[k], c, ScanDone, run[k + 1]);
    RunScanned(numcores, run, moves, c);
    ScanPassed(run, k, c, x);
  }
}
