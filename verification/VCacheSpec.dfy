/**
 The window cache without its counters: 4 rows of 512 slots, each free, lazy (given back, not yet recycled) or
 live.  `Grant` says which slot a request gets; the runs at the end show that the kernel's requests never fail.
 */
module VCacheSpec {

  datatype Slot = Free | Lazy(frame: nat) | Live(frame: nat)

  datatype Kind = FreeKind | LazyKind | LiveKind

  predicate Is(k: Kind, s: Slot) {
    match k
    case FreeKind => s.Free?
    case LazyKind => s.Lazy?
    case LiveKind => s.Live?
  }

  type Row = r: seq<Slot> | |r| == 512 witness seq(512, _ => Free)
  type Rows = rs: seq<Row> | |rs| == 4 witness seq(4, _ => seq(512, _ => Free))

  // ---------------------------------------------------------------- counting

  function Count(row: seq<Slot>, k: Kind): nat {
    if row == [] then 0 else Count(row[..|row| - 1], k) + if Is(k, row[|row| - 1]) then 1 else 0
  }

  lemma {:induction false} CountUpdate(row: seq<Slot>, i: nat, s: Slot, k: Kind)
    requires i < |row|
    ensures Count(row[i := s], k) == Count(row, k) - (if Is(k, row[i]) then 1 else 0) + if Is(k, s) then 1 else 0
  {
    var last := |row| - 1;
    if i < last {
      CountUpdate(row[..last], i, s, k);
      assert row[i := s][..last] == row[..last][i := s];
    } else {
      assert row[i := s][..last] == row[..last];
    }
  }

  lemma {:induction false} CountPositive(row: seq<Slot>, k: Kind)
    ensures Count(row, k) > 0 <==> exists i :: 0 <= i < |row| && Is(k, row[i])
  {
    if row != [] {
      var front := row[..|row| - 1];
      CountPositive(front, k);
      if exists i :: 0 <= i < |row| && Is(k, row[i]) {
        var i :| 0 <= i < |row| && Is(k, row[i]);
        assert i < |front| ==> Is(k, front[i]);
      }
    }
  }

  /** Every slot is of exactly one kind. */
  lemma {:induction false} CountTotal(row: seq<Slot>)
    ensures Count(row, FreeKind) + Count(row, LazyKind) + Count(row, LiveKind) == |row|
  {
    if row != [] {
      CountTotal(row[..|row| - 1]);
    }
  }

  lemma {:induction false} CountSplit(row: seq<Slot>, i: nat, k: Kind)
    requires i <= |row|
    ensures Count(row, k) == Count(row[..i], k) + Count(row[i..], k)
    decreases |row|
  {
    if i == |row| {
      assert row[..i] == row;
    } else {
      var last := |row| - 1;
      CountSplit(row[..last], i, k);
      assert row[..last][..i] == row[..i] && row[..last][i..] == row[i..][..last - i];
    }
  }

  // ---------------------------------------------------------------- granting a slot

  predicate Has(row: seq<Slot>, k: Kind) {
    exists i :: 0 <= i < |row| && Is(k, row[i])
  }

  ghost predicate IsFirst(row: seq<Slot>, k: Kind, i: nat) {
    i < |row| && Is(k, row[i]) && forall j :: 0 <= j < i ==> !Is(k, row[j])
  }

  ghost predicate IsLast(row: seq<Slot>, k: Kind, i: nat) {
    i < |row| && Is(k, row[i]) && forall j :: i < j < |row| ==> !Is(k, row[j])
  }

  /** Every lazy slot becomes free. */
  function Reclaimed(row: Row): Row {
    seq(512, i requires 0 <= i < 512 => if row[i].Lazy? then Free else row[i])
  }

  lemma {:induction false} ReclaimCounts(a: seq<Slot>, b: seq<Slot>)
    requires |a| == |b| && forall i :: 0 <= i < |a| ==> b[i] == if a[i].Lazy? then Free else a[i]
    ensures Count(b, FreeKind) == Count(a, FreeKind) + Count(a, LazyKind) && Count(b, LazyKind) == 0
  {
    if a != [] {
      ReclaimCounts(a[..|a| - 1], b[..|b| - 1]);
    }
  }

  /** The first n slots have been through reclaiming. */
  function ReclaimedTo(row: Row, n: nat): Row {
    seq(512, i requires 0 <= i < 512 => if i < n && row[i].Lazy? then Free else row[i])
  }

  function SetSlot(rows: Rows, g: nat, i: nat, s: Slot): Rows
    requires g < 4 && i < 512
  {
    rows[g := rows[g][i := s]]
  }

  lemma SetSlotTwice(rows: Rows, g: nat, i: nat, s: Slot, t: Slot)
    requires g < 4 && i < 512
    ensures SetSlot(SetSlot(rows, g, i, s), g, i, t) == SetSlot(rows, g, i, t)
  {
    assert rows[g][i := s][i := t] == rows[g][i := t];
  }

  lemma ReclaimStep(rows: Rows, g: nat, n: nat)
    requires g < 4
    ensures rows[g := ReclaimedTo(rows[g], 0)] == rows
    ensures n < 512 ==> ReclaimedTo(rows[g], n)[n] == rows[g][n]
    ensures n < 512 && rows[g][n].Lazy? ==>
              SetSlot(rows[g := ReclaimedTo(rows[g], n)], g, n, Free) == rows[g := ReclaimedTo(rows[g], n + 1)]
    ensures n < 512 && !rows[g][n].Lazy? ==> ReclaimedTo(rows[g], n + 1) == ReclaimedTo(rows[g], n)
  {
    assert ReclaimedTo(rows[g], 0) == rows[g];
    if n < 512 && rows[g][n].Lazy? {
      assert ReclaimedTo(rows[g], n + 1) == ReclaimedTo(rows[g], n)[n := Free];
    }
  }

  /** In the first n slots there were `found` lazy ones, the last of them at `last`. */
  ghost predicate SeenTo(row: Row, n: nat, found: nat, last: nat) {
    && n <= 512
    && found == Count(row[..n], LazyKind)
    && (found > 0 ==> last < n && row[last].Lazy? && forall j :: last < j < n ==> !row[j].Lazy?)
  }

  lemma SeenStep(row: Row, n: nat, found: nat, last: nat, limit: nat)
    requires SeenTo(row, n, found, last) && n < 512
    requires found < limit && (limit == 0 || limit == Count(row, LazyKind))
    ensures if row[n].Lazy? then SeenTo(row, n + 1, found + 1, n) else SeenTo(row, n + 1, found, last)
  {
    CountStep(row, n, LazyKind);
  }

  /** Once as many lazy slots have been seen as there are, the row is reclaimed. */
  lemma AllSeen(row: Row, n: nat, found: nat, last: nat)
    requires SeenTo(row, n, found, last) && found <= Count(row, LazyKind)
    requires n == 512 || found >= Count(row, LazyKind) > 0
    ensures ReclaimedTo(row, n) == Reclaimed(row) && found == Count(row, LazyKind)
    ensures found > 0 ==> IsLast(row, LazyKind, last)
  {
    CountSplit(row, n, LazyKind);
    CountPositive(row[n..], LazyKind);
    assert row[..512] == row;
    forall j | n <= j < 512
      ensures !row[j].Lazy?
    {
      assert row[n..][j - n] == row[j];
    }
  }

  lemma CountStep(row: seq<Slot>, n: nat, k: Kind)
    requires n < |row|
    ensures Count(row[..n + 1], k) == Count(row[..n], k) + if Is(k, row[n]) then 1 else 0
  {
    assert row[..n + 1][..n] == row[..n];
  }

  /** Row 0 reclaimed, and its slot i given out. */
  function ReclaimAndTake(rows: Rows, i: nat, frame: nat): Rows
    requires i < 512
  {
    SetSlot(rows[0 := Reclaimed(rows[0])], 0, i, Live(frame))
  }

  /** The slot (g, i) is the one a request gets, and rows' what it leaves: the first free slot of the first row
      with one, or, when no slot is free, the last lazy slot of row 0 with the rest of that row's lazy slots freed. */
  ghost predicate Grant(rows: Rows, frame: nat, g: nat, i: nat, rows': Rows) {
    && g < 4 && i < 512
    && if exists h :: 0 <= h < 4 && Has(rows[h], FreeKind) then
         && (forall h :: 0 <= h < g ==> !Has(rows[h], FreeKind))
         && IsFirst(rows[g], FreeKind, i)
         && rows' == SetSlot(rows, g, i, Live(frame))
       else
         && g == 0
         && IsLast(rows[0], LazyKind, i)
         && rows' == ReclaimAndTake(rows, i, frame)
  }

  /** The request panics: nothing is free and row 0 has nothing to reclaim, whatever the other rows hold. */
  predicate Stuck(rows: Rows) {
    (forall h :: 0 <= h < 4 ==> !Has(rows[h], FreeKind)) && !Has(rows[0], LazyKind)
  }

  lemma {:induction false} FirstExists(row: seq<Slot>, k: Kind) returns (i: nat)
    requires Has(row, k)
    ensures IsFirst(row, k, i)
  {
    i := 0;
    while !Is(k, row[i])
      invariant i < |row| && forall j :: 0 <= j < i ==> !Is(k, row[j])
      decreases |row| - i
    {
      i := i + 1;
    }
  }

  lemma {:induction false} LastExists(row: seq<Slot>, k: Kind) returns (i: nat)
    requires Has(row, k)
    ensures IsLast(row, k, i)
  {
    i := |row| - 1;
    while !Is(k, row[i])
      invariant i < |row| && forall j :: i < j < |row| ==> !Is(k, row[j])
      decreases i
    {
      assert exists j :: 0 <= j < |row| && j < i && Is(k, row[j]);
      i := i - 1;
    }
  }

  /** A request has an answer exactly when it is not stuck. */
  lemma GrantUnlessStuck(rows: Rows, frame: nat) returns (g: nat, i: nat, rows': Rows)
    ensures Stuck(rows) <==> forall h, j, r: Rows :: !Grant(rows, frame, h, j, r)
    ensures !Stuck(rows) ==> Grant(rows, frame, g, i, rows')
  {
    if Stuck(rows) {
      forall h, j, r: Rows
        ensures !Grant(rows, frame, h, j, r)
      {
        assert IsLast(rows[0], LazyKind, j) ==> Has(rows[0], LazyKind);
      }
    }
    g, i, rows' := 0, 0, rows;
    if exists h :: 0 <= h < 4 && Has(rows[h], FreeKind) {
      while !Has(rows[g], FreeKind)
        invariant g < 4 && forall h :: 0 <= h < g ==> !Has(rows[h], FreeKind)
        decreases 4 - g
      {
        g := g + 1;
      }
      i := FirstExists(rows[g], FreeKind);
      rows' := SetSlot(rows, g, i, Live(frame));
      assert Grant(rows, frame, g, i, rows');
    } else if Has(rows[0], LazyKind) {
      i := LastExists(rows[0], LazyKind);
      rows' := ReclaimAndTake(rows, i, frame);
      assert Grant(rows, frame, g, i, rows');
    }
  }

  /** A granted slot was not live, and every live slot keeps its frame. */
  lemma GrantSparesLive(rows: Rows, frame: nat, g: nat, i: nat, rows': Rows)
    requires Grant(rows, frame, g, i, rows')
    ensures !rows[g][i].Live? && rows'[g][i] == Live(frame)
    ensures forall h, j :: 0 <= h < 4 && 0 <= j < 512 && (h, j) != (g, i) ==>
              (rows'[h][j].Live? <==> rows[h][j].Live?) && (rows[h][j].Live? ==> rows'[h][j] == rows[h][j])
  {
  }

  // ---------------------------------------------------------------- runs

  function LiveCount(rows: Rows): nat {
    Count(rows[0], LiveKind) + Count(rows[1], LiveKind) + Count(rows[2], LiveKind) + Count(rows[3], LiveKind)
  }

  /** While some slot of a full row's worth is not live, a request succeeds. */
  lemma NotStuck(rows: Rows)
    requires LiveCount(rows) < 512
    ensures !Stuck(rows)
  {
    CountTotal(rows[0]);
    CountPositive(rows[0], FreeKind);
    CountPositive(rows[0], LazyKind);
  }

  /** The bound is exact: with 512 live slots, all in row 0, and everything else lazy, a request is stuck although
      1536 slots could be reclaimed. */
  lemma StuckAtTheBound() returns (rows: Rows)
    ensures LiveCount(rows) == 512 && Stuck(rows) && Count(rows[1], LazyKind) == 512
  {
    var live: Row := seq(512, _ => Live(0));
    var lazy: Row := seq(512, _ => Lazy(0));
    rows := [live, lazy, lazy, lazy];
    CountTotal(live);
    CountTotal(lazy);
    CountPositive(live, FreeKind);
    CountPositive(live, LazyKind);
    CountPositive(lazy, FreeKind);
    CountPositive(lazy, LiveKind);
  }

  lemma SetSlotLive(rows: Rows, g: nat, i: nat, s: Slot)
    requires g < 4 && i < 512
    ensures LiveCount(SetSlot(rows, g, i, s)) ==
            LiveCount(rows) - (if rows[g][i].Live? then 1 else 0) + if s.Live? then 1 else 0
  {
    CountUpdate(rows[g], i, s, LiveKind);
  }

  lemma {:induction false} SameLiveSameCount(a: seq<Slot>, b: seq<Slot>)
    requires |a| == |b| && forall i :: 0 <= i < |a| ==> a[i].Live? == b[i].Live?
    ensures Count(a, LiveKind) == Count(b, LiveKind)
  {
    if a != [] {
      SameLiveSameCount(a[..|a| - 1], b[..|b| - 1]);
    }
  }

  lemma GrantAddsOneLive(rows: Rows, frame: nat, g: nat, i: nat, rows': Rows)
    requires Grant(rows, frame, g, i, rows')
    ensures LiveCount(rows') == LiveCount(rows) + 1
  {
    if exists h :: 0 <= h < 4 && Has(rows[h], FreeKind) {
      SetSlotLive(rows, g, i, Live(frame));
    } else {
      var mid: Rows := rows[0 := Reclaimed(rows[0])];
      SameLiveSameCount(rows[0], mid[0]);
      SetSlotLive(mid, 0, i, Live(frame));
    }
  }

  /** Requests in a row for the first frames got the slots: they differ, each shows its frame, and no slot that was
      live has changed. */
  ghost predicate AllGranted(rows: Rows, frames: seq<nat>, slots: seq<(nat, nat)>, rows': Rows) {
    && |slots| <= |frames| && LiveCount(rows') == LiveCount(rows) + |slots|
    && (forall k :: 0 <= k < |slots| ==> GrantedAt(rows, frames[k], slots[k], rows'))
    && (forall k, l :: 0 <= k < l < |slots| ==> slots[k] != slots[l])
    && (forall h, j :: 0 <= h < 4 && 0 <= j < 512 && rows[h][j].Live? ==> rows'[h][j] == rows[h][j])
  }

  ghost predicate GrantedAt(rows: Rows, frame: nat, slot: (nat, nat), rows': Rows) {
    && slot.0 < 4 && slot.1 < 512
    && !rows[slot.0][slot.1].Live? && rows'[slot.0][slot.1] == Live(frame)
  }

  lemma GrantedNext(
      rows: Rows, frames: seq<nat>, slots: seq<(nat, nat)>, mid: Rows, g: nat, i: nat, rows': Rows)
    requires AllGranted(rows, frames, slots, mid) && |slots| < |frames| && Grant(mid, frames[|slots|], g, i, rows')
    ensures AllGranted(rows, frames, slots + [(g, i)], rows')
  {
    GrantSparesLive(mid, frames[|slots|], g, i, rows');
    GrantAddsOneLive(mid, frames[|slots|], g, i, rows');
    forall k | 0 <= k < |slots|
      ensures GrantedAt(rows, frames[k], slots[k], rows') && slots[k] != (g, i)
    {
      assert GrantedAt(rows, frames[k], slots[k], mid);
    }
  }

  /** The cache and the slots currently lent out for editing tables; all other live slots are permanent. */
  datatype State = State(rows: Rows, lent: set<(nat, nat)>)

  datatype Step = Take(frame: nat, g: nat, i: nat) | Aim(g: nat, i: nat, frame: nat) | Give(g: nat, i: nat)

  /** The kernel's discipline: at most two slots lent at a time, and only lent slots re-aimed or given back. */
  ghost predicate Next(s: State, step: Step, s': State) {
    match step
    case Take(frame, g, i) =>
      |s.lent| < 2 && Grant(s.rows, frame, g, i, s'.rows) && s'.lent == s.lent + {(g, i)}
    case Aim(g, i, frame) =>
      && (g, i) in s.lent && g < 4 && i < 512
      && s'.rows == SetSlot(s.rows, g, i, Live(frame)) && s'.lent == s.lent
    case Give(g, i) =>
      && (g, i) in s.lent && g < 4 && i < 512 && s.rows[g][i].Live?
      && s'.rows == SetSlot(s.rows, g, i, Lazy(s.rows[g][i].frame)) && s'.lent == s.lent - {(g, i)}
  }

  ghost predicate Inv(start: Rows, s: State) {
    && |s.lent| <= 2
    && LiveCount(s.rows) == LiveCount(start) + |s.lent|
    && (forall x :: x in s.lent ==> x.0 < 4 && x.1 < 512 && s.rows[x.0][x.1].Live? && !start[x.0][x.1].Live?)
    && (forall h, j :: 0 <= h < 4 && 0 <= j < 512 && start[h][j].Live? ==> s.rows[h][j] == start[h][j])
  }

  lemma NextKeepsInv(start: Rows, s: State, step: Step, s': State)
    requires Inv(start, s) && Next(s, step, s')
    ensures Inv(start, s')
  {
    match step
    case Take(frame, g, i) =>
      GrantSparesLive(s.rows, frame, g, i, s'.rows);
      GrantAddsOneLive(s.rows, frame, g, i, s'.rows);
      assert (g, i) !in s.lent;
    case Aim(g, i, frame) =>
      SetSlotLive(s.rows, g, i, Live(frame));
    case Give(g, i) =>
      SetSlotLive(s.rows, g, i, Lazy(s.rows[g][i].frame));
  }

  /** Over every run of the kernel, however long, no request is ever stuck, and the permanent slots stay as they
      were.  The kernel has five permanent slots: its four tables and the root table. */
  lemma {:induction false} RunNeverStuck(run: seq<State>, steps: seq<Step>, n: nat)
    requires |run| == |steps| + 1 && n < |run|
    requires run[0].lent == {} && LiveCount(run[0].rows) <= 5
    requires forall k :: 0 <= k < |steps| ==> Next(run[k], steps[k], run[k + 1])
    ensures Inv(run[0].rows, run[n]) && !Stuck(run[n].rows)
  {
    if n > 0 {
      RunNeverStuck(run, steps, n - 1);
      NextKeepsInv(run[0].rows, run[n - 1], steps[n - 1], run[n]);
    }
    NotStuck(run[n].rows);
  }
}
