/**
 The window cache on many cores.  Calls are serialised by the cache's lock; between any two steps, also inside a
 call, every core's hardware may fill its translation buffer from present entries or drop what it holds.  Reclaiming
 clears entries without flushing, re-aiming a slot at its own frame does not flush, and other cores are never
 flushed; still no core sees a wrong frame through a slot it holds.
 */
module VCacheCores {
  import opened Wrappers
  import opened VCacheSpec
  import Hardware
  import Window
  import VCache
  import Boot

  type CoreId = nat
  type SlotId = (nat, nat)

  /** Who may use a live slot. */
  datatype Holder = One(core: CoreId) | Everyone

  /** `unflushed` is the slot whose entry the lock's owner has written but not yet flushed. */
  datatype World = World(rows: Rows, holder: map<SlotId, Holder>, unflushed: Option<(CoreId, SlotId)>,
                         tlb: map<(CoreId, SlotId), nat>)

  predicate InRows(s: SlotId) {
    s.0 < 4 && s.1 < 512
  }

  function SlotIn(rows: Rows, s: SlotId): Slot
    requires InRows(s)
  {
    rows[s.0][s.1]
  }

  datatype Event =
    | Fill(core: CoreId, slot: SlotId)
    | Evict(core: CoreId, slot: SlotId)
    | Take(core: CoreId, slot: SlotId, frame: nat)
    | Aim(core: CoreId, slot: SlotId, frame: nat)
    | AimSame(core: CoreId, slot: SlotId)
    | Flush(core: CoreId, slot: SlotId)
    | Give(core: CoreId, slot: SlotId)

  /** The slot is lent to the core, and no call is in progress. */
  ghost predicate MayCall(s: World, core: CoreId, slot: SlotId) {
    s.unflushed.None? && InRows(slot) && slot in s.holder && s.holder[slot] == One(core) && SlotIn(s.rows, slot).Live?
  }

  ghost predicate Next(s: World, step: Event, s': World) {
    match step
    case Fill(c, x) =>
      && InRows(x) && !SlotIn(s.rows, x).Free?
      && s' == s.(tlb := s.tlb[(c, x) := SlotIn(s.rows, x).frame])
    case Evict(c, x) =>
      s' == s.(tlb := s.tlb - {(c, x)})
    case Take(c, x, f) =>
      && s.unflushed.None? && Grant(s.rows, f, x.0, x.1, s'.rows)
      && s'.holder == s.holder[x := One(c)] && s'.unflushed == Some((c, x)) && s'.tlb == s.tlb
    case Aim(c, x, f) =>
      && MayCall(s, c, x) && SlotIn(s.rows, x) != Live(f)
      && s' == s.(rows := SetSlot(s.rows, x.0, x.1, Live(f)), unflushed := Some((c, x)))
    case AimSame(c, x) =>
      MayCall(s, c, x) && s' == s
    case Flush(c, x) =>
      s.unflushed == Some((c, x)) && s' == s.(tlb := s.tlb - {(c, x)}, unflushed := None)
    case Give(c, x) =>
      && MayCall(s, c, x)
      && s' == s.(rows := SetSlot(s.rows, x.0, x.1, Lazy(SlotIn(s.rows, x).frame)), holder := s.holder - {x})
  }

  /** The core may go through the slot now. */
  ghost predicate MayUse(s: World, c: CoreId, x: SlotId) {
    x in s.holder && (s.holder[x] == Everyone || s.holder[x] == One(c)) && s.unflushed != Some((c, x))
  }

  /** What the core sees through a slot is what the slot holds. */
  ghost predicate SeesTruth(s: World, c: CoreId, x: SlotId)
    requires InRows(x)
  {
    SlotIn(s.rows, x).Live? && ((c, x) in s.tlb ==> s.tlb[(c, x)] == SlotIn(s.rows, x).frame)
  }

  ghost predicate Inv(s: World) {
    && (forall x :: x in s.holder ==> InRows(x) && SlotIn(s.rows, x).Live?)
    && (s.unflushed.Some? ==>
          s.unflushed.value.1 in s.holder && s.holder[s.unflushed.value.1] == One(s.unflushed.value.0))
    && (forall x :: InRows(x) && SlotIn(s.rows, x).Live? ==> x in s.holder)
    && (forall c, x :: MayUse(s, c, x) ==> SeesTruth(s, c, x))
  }

  /** After start-up the window's four tables and the root are in the first slots, for every core under the lock, and
      no buffer holds anything else for them. */
  ghost predicate AfterBoot(s: World, first: nat, root: nat) {
    && Grant(Boot.FreshRows(4, first), root, 0, 4, s.rows) && s.unflushed.None?
    && (forall x :: x in s.holder <==> x.0 == 0 && x.1 < 5)
    && (forall x :: x in s.holder ==> s.holder[x] == Everyone)
    && (forall c: CoreId, x: SlotId :: x in s.holder && (c, x) in s.tlb && InRows(x) && !SlotIn(s.rows, x).Free? ==>
          s.tlb[(c, x)] == SlotIn(s.rows, x).frame)
  }

  /** What start-up leaves on the core that ran it; the buffers of the others are empty. */
  ghost function WorldOf(vc: VCache.VCache, boot: CoreId): World
    reads vc, vc.hw
  {
    var slots := set g, i | 0 <= g < 4 && 0 <= i < 512 :: (g, i);
    var seen := set x | x in slots && Window.SlotPage(x.0, x.1) in vc.hw.tlb :: (boot, x);
    World(vc.Slots(), map x | x in slots && x.0 == 0 && x.1 < 5 :: Everyone, None,
          map k | k in seen :: FrameSeen(vc.hw.tlb, k.1))
  }

  function FrameSeen(tlb: Hardware.Tlb, x: SlotId): nat {
    if InRows(x) && Window.SlotPage(x.0, x.1) in tlb then tlb[Window.SlotPage(x.0, x.1)].frame else 0
  }

  /** That is the state described. */
  lemma BootLeaves(vc: VCache.VCache, boot: CoreId, first: nat)
    requires vc.Valid() && Grant(Boot.FreshRows(4, first), vc.hw.root, 0, 4, vc.Slots())
    ensures AfterBoot(WorldOf(vc, boot), first, vc.hw.root)
  {
    var s := WorldOf(vc, boot);
    forall c: CoreId, x: SlotId | x in s.holder && (c, x) in s.tlb && InRows(x) && !SlotIn(s.rows, x).Free?
      ensures s.tlb[(c, x)] == SlotIn(s.rows, x).frame
    {
      Window.SlotWalk(vc.hw.ram, vc.hw.root, vc.spine, vc.age, x.0, x.1);
    }
  }

  lemma BootInv(s: World, first: nat, root: nat)
    requires AfterBoot(s, first, root)
    ensures Inv(s)
  {
    assert Boot.FreshRows(4, first)[0][4].Free?;
    assert Has(Boot.FreshRows(4, first)[0], FreeKind);
    forall x | InRows(x)
      ensures SlotIn(s.rows, x).Live? <==> x in s.holder
    {
    }
  }

  lemma GrantStep(s: World, c: CoreId, x: SlotId, f: nat, s': World)
    requires Inv(s) && Next(s, Event.Take(c, x, f), s')
    ensures Inv(s') && x !in s.holder
  {
    GrantSparesLive(s.rows, f, x.0, x.1, s'.rows);
    forall d: CoreId, y: SlotId | MayUse(s', d, y)
      ensures SeesTruth(s', d, y)
    {
      assert y != x ==> MayUse(s, d, y);
    }
  }

  lemma NextKeepsInv(s: World, step: Event, s': World)
    requires Inv(s) && Next(s, step, s')
    ensures Inv(s')
  {
    match step
    case Take(c, x, f) =>
      GrantStep(s, c, x, f, s');
    case Aim(c, x, f) =>
      OthersKeepTruth(s, x, s');
    case Flush(c, x) =>
      forall d: CoreId, y: SlotId | MayUse(s', d, y)
        ensures SeesTruth(s', d, y)
      {
        assert (d, y) != (c, x) ==> MayUse(s, d, y);
      }
    case Give(c, x) =>
      OthersKeepTruth(s, x, s');
    case Fill(c, x) =>
      assert forall d, y :: MayUse(s', d, y) ==> MayUse(s, d, y);
    case Evict(c, x) =>
      assert forall d, y :: MayUse(s', d, y) ==> MayUse(s, d, y);
    case AimSame(c, x) =>
  }

  ghost predicate KeepsHolder(s: World, y: SlotId, s': World) {
    y in s.holder && y in s'.holder && s'.holder[y] == s.holder[y]
  }

  lemma OthersKeepTruth(s: World, x: SlotId, s': World)
    requires Inv(s) && InRows(x) && s'.tlb == s.tlb && s.unflushed.None?
    requires exists t :: s'.rows == SetSlot(s.rows, x.0, x.1, t)
    ensures forall d, y :: y != x && KeepsHolder(s, y, s') && MayUse(s', d, y) ==> SeesTruth(s', d, y)
  {
    forall d: CoreId, y: SlotId | y != x && KeepsHolder(s, y, s') && MayUse(s', d, y)
      ensures SeesTruth(s', d, y)
    {
      assert MayUse(s, d, y);
    }
  }

  ghost predicate IsRun(run: seq<World>, steps: seq<Event>, first: nat, root: nat) {
    && |run| == |steps| + 1 && AfterBoot(run[0], first, root)
    && forall k :: 0 <= k < |steps| ==> Next(run[k], steps[k], run[k + 1])
  }

  /** Over every interleaving of calls, fills and evictions on any number of cores, a core that may use a slot sees
      the frame the slot holds. */
  lemma {:induction false} NeverStale(run: seq<World>, steps: seq<Event>, first: nat, root: nat, n: nat)
    requires IsRun(run, steps, first, root) && n < |run|
    ensures Inv(run[n])
    ensures forall c, x :: MayUse(run[n], c, x) ==> SeesTruth(run[n], c, x)
  {
    if n == 0 {
      BootInv(run[0], first, root);
    } else {
      NeverStale(run, steps, first, root, n - 1);
      NextKeepsInv(run[n - 1], steps[n - 1], run[n]);
    }
  }

  /** Holding the slot is necessary: from any quiet state, another core can be led to keep a frame the slot no longer
      holds. */
  lemma StaleElsewhere(s: World, c: CoreId, d: CoreId, x: SlotId, f: nat, f': nat, rows: Rows)
    returns (run: seq<World>, steps: seq<Event>)
    requires Inv(s) && s.unflushed.None? && c != d && f != f' && Grant(s.rows, f, x.0, x.1, rows)
    ensures |run| == |steps| + 1 && run[0] == s
    ensures forall k :: 0 <= k < |steps| ==> Next(run[k], steps[k], run[k + 1])
    ensures var last := run[|steps|];
            SlotIn(last.rows, x) == Live(f') && MayUse(last, c, x) && (d, x) in last.tlb && last.tlb[(d, x)] == f
  {
    GrantSparesLive(s.rows, f, x.0, x.1, rows);
    var s1 := World(rows, s.holder[x := One(c)], Some((c, x)), s.tlb);
    var s2 := s1.(tlb := s1.tlb - {(c, x)}, unflushed := None);
    var s3 := s2.(tlb := s2.tlb[(d, x) := f]);
    var s4 := s3.(rows := SetSlot(rows, x.0, x.1, Live(f')), unflushed := Some((c, x)));
    var s5 := s4.(tlb := s4.tlb - {(c, x)}, unflushed := None);
    steps := [Event.Take(c, x, f), Flush(c, x), Fill(d, x), Event.Aim(c, x, f'), Flush(c, x)];
    run := [s, s1, s2, s3, s4, s5];
  }
}
