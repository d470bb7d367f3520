/**
 The window cache as the kernel runs it: counters and ages in the object, the slots themselves in page tables
 that are read and written through the cache's own first four slots.
 */
module VCache {
  import opened Wrappers
  import opened Paging
  import opened Hardware
  import opened VCacheSpec
  import opened Window

  type Counts = c: seq<nat> | |c| == 4 witness [0, 0, 0, 0]

  /** The first row whose counter is not zero, or 4. */
  function FirstNonZero(counts: Counts): (r: nat)
    ensures r <= 4 && (r < 4 ==> counts[r] != 0) && forall h :: 0 <= h < r ==> counts[h] == 0
  {
    if counts[0] != 0 then 0
    else if counts[1] != 0 then 1
    else if counts[2] != 0 then 2
    else if counts[3] != 0 then 3
    else 4
  }

  ghost predicate CountsOf(rows: Rows, free: Counts, lazy: Counts) {
    forall g :: 0 <= g < 4 ==> free[g] == Count(rows[g], FreeKind) && lazy[g] == Count(rows[g], LazyKind)
  }

  /** A slot re-aimed, which leaves its age alone. */
  function Aimed(s: Slot, frame: nat): Slot {
    if s.Lazy? then Lazy(frame) else Live(frame)
  }

  /** A slot given back. */
  function Aged(s: Slot): Slot {
    if s.Live? then Lazy(s.frame) else s
  }

  class VCache {
    const hw: Core
    ghost const spine: Spine
    var freecount: Counts
    var lazycount: Counts
    var age: Ages

    /** The tables are in order; the counters and the translation buffer may not be. */
    ghost predicate Sound()
      reads this`age, hw
    {
      && hw.WellFormed()
      && Hangs(hw.owner, hw.hole, spine)
      && Linked(hw.ram, hw.root, spine)
      && WellKept(hw.ram, spine.tabs, age)
      && spine.open
    }

    ghost function Slots(): Rows
      reads this`age, hw
    {
      RowsOf(hw.ram, spine.tabs, age)
    }

    /** The counters count what they name. */
    ghost predicate Counted()
      reads this, hw
    {
      CountsOf(Slots(), freecount, lazycount)
    }

    /** The tables are in order and every live slot may be used. */
    ghost predicate Working()
      reads this`age, hw
    {
      Sound() && LiveAgree(Slots(), hw.tlb, hw.ram, hw.root)
    }

    /** Since memory was ram0 and the buffer tlb0, nothing outside the window has changed. */
    ghost predicate Undisturbed(ram0: Ram, tlb0: Tlb)
      reads hw
    {
      Quiet(ram0, tlb0, hw.ram, hw.tlb, hw.root, hw.owner, hw.hole, spine.tabs)
    }

    ghost predicate Valid()
      reads this, hw
    {
      Working() && Counted()
    }

    /** The cache over an existing window (`renew`). */
    constructor (hw: Core, ghost spine: Spine, freecount: Counts, lazycount: Counts, age: Ages)
      ensures this.hw == hw && this.spine == spine
      ensures this.freecount == freecount && this.lazycount == lazycount && this.age == age
    {
      this.hw, this.spine := hw, spine;
      this.freecount, this.lazycount, this.age := freecount, lazycount, age;
    }

    ghost predicate AgreesBut(g: nat, i: nat)
      reads this`age, hw
    {
      LiveAgreeBut(Slots(), hw.tlb, hw.ram, hw.root, g, i)
    }

    lemma TableUsable(g: Idx, h: nat, i: nat)
      requires Sound() && AgreesBut(h, i) && g < 4 && !(h == 0 && i < 4)
      ensures hw.Writable(SlotPage(0, g)) && Walk(hw.ram, hw.root, SlotPage(0, g)).value.frame == spine.tabs[g]
    {
      SlotWalk(hw.ram, hw.root, spine, age, 0, g);
      SlotRights(hw.ram, hw.root, spine, age, g, 0);
      assert Slots()[0][g] == SlotOf(Get(hw.ram, spine.tabs[0], g), age[0][g]);
    }

    lemma AgedIsLazy(g: Idx, i: Idx)
      requires Sound() && g < 4
      ensures age[g][i] != 0 <==> Slots()[g][i].Lazy?
      ensures Get(hw.ram, spine.tabs[g], i).flags.present <==> !Slots()[g][i].Free?
    {
      assert Slots()[g][i] == SlotOf(Get(hw.ram, spine.tabs[g], i), age[g][i]);
    }

    /** `self.p1[g][i]`, read through slot g; the slot (h, j) may be in the middle of a change. */
    method ReadEntry(g: Idx, i: Idx, ghost h: nat, ghost j: nat) returns (e: Entry)
      requires Sound() && g < 4 && !(h == 0 && j < 4) && AgreesBut(h, j)
      ensures e == Get(hw.ram, spine.tabs[g], i)
    {
      TableUsable(g, h, j);
      e := hw.Load(SlotPage(0, g), i);
    }

    /** `self.p1[g][i] = e`, written through slot g.  The four slots that map the tables are never written. */
    method WriteEntry(g: Idx, i: Idx, e: Entry)
      requires Sound() && g < 4 && !(g == 0 && i < 4) && AgreesBut(g, i)
      requires if e.flags.present then e.flags == WINDOW_FLAGS else age[g][i] == 0
      modifies hw`ram, hw`tlb
      ensures hw.owner == old(hw.owner) && hw.hole == old(hw.hole)
      ensures hw.ram == Put(old(hw.ram), spine.tabs[g], i, e)
      ensures Sound() && Slots() == SetSlot(old(Slots()), g, i, SlotOf(e, age[g][i]))
      ensures Undisturbed(old(hw.ram), old(hw.tlb)) && AllFilled(old(hw.tlb), hw.tlb, hw.ram, hw.root)
      ensures AgreesBut(g, i)
    {
      ghost var ram0, tlb0 := hw.ram, hw.tlb;
      TableUsable(g, g, i);
      hw.Store(SlotPage(0, g), i, e);
      SlotWritten(ram0, tlb0, hw.tlb, hw.root, hw.owner, hw.hole, spine, age, g, i, e);
    }

    /** Points the slot at a frame and flushes its page on this core. */
    method Install(g: Idx, i: Idx, frame: nat)
      requires Sound() && g < 4 && !(g == 0 && i < 4) && AgreesBut(g, i)
      modifies hw`ram, hw`tlb
      ensures hw.owner == old(hw.owner) && hw.hole == old(hw.hole)
      ensures hw.ram == Put(old(hw.ram), spine.tabs[g], i, Entry(frame, WINDOW_FLAGS))
      ensures Working() && Slots() == SetSlot(old(Slots()), g, i, SlotOf(Entry(frame, WINDOW_FLAGS), age[g][i]))
      ensures Undisturbed(old(hw.ram), old(hw.tlb)) && AllFilled(old(hw.tlb), hw.tlb, hw.ram, hw.root)
    {
      WriteEntry(g, i, Entry(frame, WINDOW_FLAGS));
      ghost var tlb1 := hw.tlb;
      hw.Invlpg(SlotPage(g, i));
      FilledTwice(old(hw.tlb), tlb1, hw.tlb, hw.ram, hw.root);
      FlushAgrees(tlb1, hw.tlb, hw.ram, hw.root, hw.owner, hw.hole, Slots(), g, i);
      QuietTransitive(old(hw.ram), old(hw.tlb), hw.ram, tlb1, hw.ram, hw.tlb, hw.root, hw.owner, hw.hole, spine.tabs);
    }

    /** Frees lazy slots of row g in order, until `limit` of them are freed. */
    method Reclaim(g: Idx, limit: nat) returns (found: nat, last: Idx)
      requires Working() && g < 4
      requires limit == 0 || limit == Count(Slots()[g], LazyKind)
      modifies hw`ram, hw`tlb, this`age
      ensures hw.owner == old(hw.owner) && hw.hole == old(hw.hole)
      ensures freecount == old(freecount) && lazycount == old(lazycount)
      ensures Working() && found == limit
      ensures limit == 0 ==> Slots() == old(Slots())
      ensures limit > 0 ==> Slots() == old(Slots())[g := Reclaimed(old(Slots())[g])]
      ensures limit > 0 ==> IsLast(old(Slots())[g], LazyKind, last)
      ensures Undisturbed(old(hw.ram), old(hw.tlb))
    {
      ghost var rows0, ram0, tlb0 := Slots(), hw.ram, hw.tlb;
      found, last := 0, 0;
      ReclaimStep(rows0, g, 0);
      var n := 0;
      while n < 512 && found < limit
        invariant n <= 512 && (limit == 0 ==> n == 0) && found <= limit
        invariant Reclaiming(rows0, g, n, found, last, ram0, tlb0)
      {
        found, last := ReclaimNth(g, n, found, last, limit, rows0, ram0, tlb0);
        n := n + 1;
      }
      if limit > 0 {
        AllSeen(rows0[g], n, found, last);
      }
    }

    /** The first n slots of row g have been looked at; `found` of them were lazy and are free now. */
    ghost predicate Reclaiming(rows0: Rows, g: nat, n: nat, found: nat, last: nat, ram0: Ram, tlb0: Tlb)
      requires g < 4
      reads this`age, hw
    {
      && n <= 512 && Working() && Slots() == rows0[g := ReclaimedTo(rows0[g], n)] && SeenTo(rows0[g], n, found, last)
      && Undisturbed(ram0, tlb0)
    }

    method ReclaimNth(g: Idx, n: Idx, found: nat, last: Idx, ghost limit: nat, ghost rows0: Rows, ghost ram0: Ram,
                      ghost tlb0: Tlb)
      returns (found': nat, last': Idx)
      requires g < 4 && Reclaiming(rows0, g, n, found, last, ram0, tlb0)
      requires found < limit && limit == Count(rows0[g], LazyKind)
      modifies hw`ram, hw`tlb, this`age
      ensures hw.owner == old(hw.owner) && hw.hole == old(hw.hole) && found' <= limit
      ensures Reclaiming(rows0, g, n + 1, found', last', ram0, tlb0)
    {
      SeenStep(rows0[g], n, found, last, limit);
      ReclaimStep(rows0, g, n);
      var lazy := ReclaimSlot(g, n, ram0, tlb0);
      found', last' := if lazy then found + 1 else found, if lazy then n else last;
    }

    method ReclaimSlot(g: Idx, i: Idx, ghost ram0: Ram, ghost tlb0: Tlb) returns (lazy: bool)
      requires Working() && g < 4 && Undisturbed(ram0, tlb0)
      modifies hw`ram, hw`tlb, this`age
      ensures hw.owner == old(hw.owner) && hw.hole == old(hw.hole)
      ensures Working() && Undisturbed(ram0, tlb0)
      ensures lazy == old(Slots())[g][i].Lazy?
      ensures Slots() == if lazy then SetSlot(old(Slots()), g, i, Free) else old(Slots())
    {
      AgedIsLazy(g, i);
      lazy := age[g][i] != 0;
      if lazy {
        ghost var ram1, tlb1 := hw.ram, hw.tlb;
        FreeLazy(g, i);
        QuietTransitive(ram0, tlb0, ram1, tlb1, hw.ram, hw.tlb, hw.root, hw.owner, hw.hole, spine.tabs);
      }
    }

    /** One lazy slot is freed: its age is cleared and its entry made not present.  Nothing is flushed. */
    method FreeLazy(g: Idx, i: Idx)
      requires Working() && g < 4 && age[g][i] != 0
      modifies hw`ram, hw`tlb, this`age
      ensures hw.owner == old(hw.owner) && hw.hole == old(hw.hole)
      ensures Working()
      ensures old(Slots())[g][i].Lazy? && Slots() == SetSlot(old(Slots()), g, i, Free)
      ensures age == SetAge(old(age), g, i, 0)
      ensures Undisturbed(old(hw.ram), old(hw.tlb))
    {
      ghost var rows0 := Slots();
      age := SetAge(age, g, i, 0);
      AgeStore(hw.ram, spine.tabs, old(age), g, i, 0);
      SetSlotTwice(rows0, g, i, SlotOf(Get(hw.ram, spine.tabs[g], i), 0), Free);
      var e := ReadEntry(g, i, g, i);
      WriteEntry(g, i, Entry(e.frame, e.flags.(present := false)));
    }

    /** The first slot of row g whose entry is not present. */
    method FindFree(g: Idx) returns (i: Idx)
      requires Valid() && g < 4 && Count(Slots()[g], FreeKind) > 0
      ensures Valid() && Slots() == old(Slots()) && IsFirst(Slots()[g], FreeKind, i)
      ensures hw.ram == old(hw.ram) && hw.tlb == old(hw.tlb) && hw.owner == old(hw.owner) && hw.hole == old(hw.hole)
    {
      ghost var row := Slots()[g];
      CountPositive(row, FreeKind);
      i := 0;
      while true
        invariant exists j :: i <= j < 512 && row[j].Free?
        invariant forall j :: 0 <= j < i ==> !row[j].Free?
        invariant row == Slots()[g]
        decreases 512 - i
      {
        AgedIsLazy(g, i);
        var e := ReadEntry(g, i, 3, 0);
        if !e.flags.present {
          return;
        }
        i := i + 1;
      }
    }

    /** Takes a free slot: one off the row's free counter, the age cleared, the entry pointed at the frame. */
    method Take(g: Idx, i: Idx, frame: nat)
      requires Valid() && g < 4 && Slots()[g][i].Free?
      modifies hw`ram, hw`tlb, this`freecount, this`age
      ensures hw.owner == old(hw.owner) && hw.hole == old(hw.hole)
      ensures Valid() && Undisturbed(old(hw.ram), old(hw.tlb))
      ensures Slots() == SetSlot(old(Slots()), g, i, Live(frame))
      ensures Lent(hw.ram, hw.tlb, hw.root, SlotPage(g, i), frame)
    {
      FreeSlotAt(g, i);
      TakeFree(Slots(), freecount, lazycount, g, i, frame);
      freecount := freecount[g := freecount[g] - 1];
      age := SetAge(age, g, i, 0);
      assert age == old(age);
      Install(g, i, frame);
      LiveIsLent(SlotPage(g, i), frame);
    }

    /** Reclaims the first row with lazy slots, but never more slots than row 0 has lazy ones. */
    method ReclaimRow() returns (last: Option<Idx>)
      requires Valid() && forall g :: 0 <= g < 4 ==> freecount[g] == 0
      modifies hw`ram, hw`tlb, this`freecount, this`lazycount, this`age
      ensures hw.owner == old(hw.owner) && hw.hole == old(hw.hole)
      ensures last.None? <==> old(lazycount[0]) == 0
      ensures last.Some? ==> Valid() && Undisturbed(old(hw.ram), old(hw.tlb))
      ensures last.Some? ==> IsLast(old(Slots())[0], LazyKind, last.value)
      ensures last.Some? ==> Slots() == old(Slots())[0 := Reclaimed(old(Slots())[0])]
    {
      var limit := lazycount[0];
      var g := FirstNonZero(lazycount);
      if g == 4 {
        return None;  // unwrap of p2index
      }
      ReclaimedCounts(Slots(), freecount, lazycount);
      var found, at := Reclaim(g, limit);
      if found == 0 {
        return None;  // subtraction from p2_freecount
      }
      SetCounters(freecount[g := found], lazycount[g := 0]);
      last := Some(at);
    }

    method SetCounters(free: Counts, lazy: Counts)
      requires Working() && CountsOf(Slots(), free, lazy)
      modifies this`freecount, this`lazycount
      ensures Valid() && Slots() == old(Slots())
      ensures hw.ram == old(hw.ram) && hw.tlb == old(hw.tlb) && hw.owner == old(hw.owner) && hw.hole == old(hw.hole)
    {
      freecount, lazycount := free, lazy;
    }

    /** The request when no slot is free. */
    method MapReclaiming(frame: nat) returns (r: Option<(Idx, Idx)>)
      requires Valid() && forall g :: 0 <= g < 4 ==> freecount[g] == 0
      modifies hw`ram, hw`tlb, this`freecount, this`lazycount, this`age
      ensures hw.owner == old(hw.owner) && hw.hole == old(hw.hole)
      ensures r.None? <==> Stuck(old(Slots()))
      ensures r.Some? ==> Valid() && Undisturbed(old(hw.ram), old(hw.tlb)) && r.value.0 < 4
      ensures r.Some? ==> Grant(old(Slots()), frame, r.value.0, r.value.1, Slots())
      ensures r.Some? ==> Lent(hw.ram, hw.tlb, hw.root, SlotPage(r.value.0, r.value.1), frame)
    {
      ghost var rows0 := Slots();
      CountersDecide(rows0, freecount, lazycount);
      var i := ReclaimRow();
      if i.None? {
        return None;
      }
      GrantFromLazy(rows0, i.value, frame);
      ghost var ram1, tlb1 := hw.ram, hw.tlb;
      Take(0, i.value, frame);
      QuietTransitive(old(hw.ram), old(hw.tlb), ram1, tlb1, hw.ram, hw.tlb, hw.root, hw.owner, hw.hole, spine.tabs);
      r := Some((0, i.value));
    }

    /** The request when row g is the first with a free slot. */
    method MapFree(g: Idx, frame: nat) returns (i: Idx)
      requires Valid() && g < 4 && freecount[g] != 0 && forall h :: 0 <= h < g ==> freecount[h] == 0
      modifies hw`ram, hw`tlb, this`freecount, this`lazycount, this`age
      ensures hw.owner == old(hw.owner) && hw.hole == old(hw.hole)
      ensures !Stuck(old(Slots())) && Valid() && Undisturbed(old(hw.ram), old(hw.tlb))
      ensures Grant(old(Slots()), frame, g, i, Slots())
      ensures Lent(hw.ram, hw.tlb, hw.root, SlotPage(g, i), frame)
    {
      CountersDecide(Slots(), freecount, lazycount);
      i := FindFree(g);
      GrantFromFree(Slots(), g, i, frame);
      Take(g, i, frame);
    }

    /** Lends a slot aimed at `frame`.  `None` is a panic; the `Err` is never returned, because
        the count it depends on is always set in the first round of the search. */
    method Map(frame: nat) returns (r: Option<(Idx, Idx)>)
      requires Valid()
      modifies hw`ram, hw`tlb, this`freecount, this`lazycount, this`age
      ensures hw.owner == old(hw.owner) && hw.hole == old(hw.hole)
      ensures r.None? <==> Stuck(old(Slots()))
      ensures r.Some? ==> Valid() && Undisturbed(old(hw.ram), old(hw.tlb)) && r.value.0 < 4
      ensures r.Some? ==> Grant(old(Slots()), frame, r.value.0, r.value.1, Slots())
      ensures r.Some? ==> Lent(hw.ram, hw.tlb, hw.root, SlotPage(r.value.0, r.value.1), frame)
    {
      var g := FirstNonZero(freecount);
      if g < 4 {
        var row: Idx := g;
        var i := MapFree(row, frame);
        r := Some((row, i));
      } else {
        r := MapReclaiming(frame);
      }
    }

    method MapNext(frames: seq<nat>, slots: seq<(Idx, Idx)>, ghost ram0: Ram, ghost tlb0: Tlb, ghost rows0: Rows)
        returns (s: Option<(Idx, Idx)>)
      requires Valid() && Undisturbed(ram0, tlb0) && AllGranted(rows0, frames, slots, Slots()) && |slots| < |frames|
      modifies hw`ram, hw`tlb, this`freecount, this`lazycount, this`age
      ensures hw.owner == old(hw.owner) && hw.hole == old(hw.hole)
      ensures s.None? ==> Stuck(old(Slots())) && LiveCount(old(Slots())) >= 512
      ensures s.Some? ==> Valid() && Undisturbed(ram0, tlb0) && AllGranted(rows0, frames, slots + [s.value], Slots())
    {
      ghost var rows1, ram1, tlb1 := Slots(), hw.ram, hw.tlb;
      s := Map(frames[|slots|]);
      if s.Some? {
        QuietTransitive(ram0, tlb0, ram1, tlb1, hw.ram, hw.tlb, hw.root, hw.owner, hw.hole, spine.tabs);
        GrantedNext(rows0, frames, slots, rows1, s.value.0, s.value.1, Slots());
      } else if LiveCount(rows1) < 512 {
        NotStuck(rows1);
      }
    }

    /** `map_many`.  `None` is a panic in one of the requests, after which nothing is given back. */
    method MapMany(frames: seq<nat>) returns (r: Option<seq<(Idx, Idx)>>, ghost got: seq<(Idx, Idx)>, ghost at: Rows)
      requires Valid()
      modifies hw`ram, hw`tlb, this`freecount, this`lazycount, this`age
      ensures hw.owner == old(hw.owner) && hw.hole == old(hw.hole)
      ensures r.Some? ==> Valid() && Undisturbed(old(hw.ram), old(hw.tlb))
      ensures r.Some? ==> |r.value| == |frames| && AllGranted(old(Slots()), frames, r.value, Slots())
      ensures r.None? ==> |got| < |frames| && AllGranted(old(Slots()), frames, got, at) && Stuck(at)
      ensures LiveCount(old(Slots())) + |frames| <= 512 ==> r.Some?
    {
      var slots: seq<(Idx, Idx)> := [];
      got, at := [], Slots();
      for k := 0 to |frames|
        invariant hw.owner == old(hw.owner) && hw.hole == old(hw.hole)
        invariant |slots| == k && Valid() && Undisturbed(old(hw.ram), old(hw.tlb))
        invariant AllGranted(old(Slots()), frames, slots, Slots())
      {
        got, at := slots, Slots();
        var s := MapNext(frames, slots, old(hw.ram), old(hw.tlb), old(Slots()));
        if s.None? {
          return None, got, at;
        }
        slots := slots + [s.value];
      }
      r := Some(slots);
    }

    /** One of the four slots that show the cache's own tables is aimed elsewhere. */
    ghost predicate Misleads(p: Page, frame: nat) {
      InWindow(p) && p.c == 0 && p.d < 4 && frame != spine.tabs[p.d]
    }

    /** Re-aims a slot.  Without a change of frame nothing is written and nothing flushed.  Neither the counters nor
        which slot it is are looked at: the cache stays in order exactly when the slot was not free, and is not made to
        show another frame in place of one of its own tables. */
    method Remap(p: Page, frame: nat) returns (ok: bool)
      requires Valid()
      modifies hw`ram, hw`tlb
      ensures hw.owner == old(hw.owner) && hw.hole == old(hw.hole)
      ensures ok <==> InWindow(p)
      ensures !ok ==> hw.ram == old(hw.ram) && hw.tlb == old(hw.tlb)
      ensures ok ==> Slots() == SetSlot(old(Slots()), p.c, p.d, Aimed(old(Slots())[p.c][p.d], frame))
      ensures ok && !Misleads(p, frame) ==> Working()
      ensures ok && !Misleads(p, frame) && old(Slots())[p.c][p.d].Live? ==> Lent(hw.ram, hw.tlb, hw.root, p, frame)
      ensures Valid() <==> (ok ==> !old(Slots())[p.c][p.d].Free? && !Misleads(p, frame))
      ensures Undisturbed(old(hw.ram), old(hw.tlb)) && AllFilled(old(hw.tlb), hw.tlb, hw.ram, hw.root)
    {
      if !InWindow(p) {
        return false;
      }
      SlotAt(p.c, p.d);
      Reaimed(Slots(), freecount, lazycount, p.c, p.d, frame);
      var e := ReadEntry(p.c, p.d, 3, 0);
      if !(Link(e) && e.frame == frame) {
        if p.c == 0 && p.d < 4 {
          Mislead(p.d, frame);
        } else {
          Install(p.c, p.d, frame);
        }
      }
      ok := true;
      if !Misleads(p, frame) && old(Slots())[p.c][p.d].Live? {
        LiveIsLent(p, frame);
      }
    }

    /** The same writes for a slot of the cache's own. */
    method Mislead(d: Idx, frame: nat)
      requires Valid() && d < 4 && frame != spine.tabs[d]
      modifies hw`ram, hw`tlb
      ensures hw.owner == old(hw.owner) && hw.hole == old(hw.hole) && !Valid()
      ensures Slots() == SetSlot(old(Slots()), 0, d, Live(frame))
      ensures Undisturbed(old(hw.ram), old(hw.tlb)) && AllFilled(old(hw.tlb), hw.tlb, hw.ram, hw.root)
    {
      ghost var ram0, tlb0, rows0, e := hw.ram, hw.tlb, Slots(), Entry(frame, WINDOW_FLAGS);
      TableUsable(0, 3, 0);
      SlotStore(ram0, hw.root, hw.owner, hw.hole, spine, 0, d, e);
      RowStore(ram0, hw.owner, hw.hole, spine, age, 0, d, e);
      hw.Store(SlotPage(0, 0), d, Entry(frame, WINDOW_FLAGS));
      StoreAgrees(ram0, tlb0, hw.ram, hw.tlb, hw.root, hw.owner, hw.hole, rows0, 0, d);
      ghost var tlb1 := hw.tlb;
      hw.Invlpg(SlotPage(0, d));
      FilledTwice(tlb0, tlb1, hw.tlb, hw.ram, hw.root);
      FlushAgrees(tlb1, hw.tlb, hw.ram, hw.root, hw.owner, hw.hole, rows0, 0, d);
      QuietTransitive(ram0, tlb0, hw.ram, tlb1, hw.ram, hw.tlb, hw.root, hw.owner, hw.hole, spine.tabs);
      assert Get(hw.ram, spine.tabs[0], d) == e;
    }

    /** Gives a slot back: a live slot becomes lazy, and stays mapped.  The cache stays in order exactly when the slot
        was live and is not one of the cache's own. */
    method Unmap(g: Idx, i: Idx)
      requires Valid() && g < 4
      modifies this`age, this`lazycount
      ensures hw.ram == old(hw.ram) && hw.tlb == old(hw.tlb) && hw.owner == old(hw.owner) && hw.hole == old(hw.hole)
      ensures Slots() == SetSlot(old(Slots()), g, i, Aged(old(Slots())[g][i]))
      ensures Valid() <==> old(Slots())[g][i].Live? && !(g == 0 && i < 4)
    {
      SlotAt(g, i);
      AgeingKeepsCounts(Slots(), freecount, lazycount, g, i);
      AgeStore(hw.ram, spine.tabs, age, g, i, 1);
      age := SetAge(age, g, i, 1);
      lazycount := lazycount[g := lazycount[g] + 1];
      if g == 0 && i < 4 && Sound() {
        FirstFourLive();
      }
    }

    lemma SlotAt(g: Idx, i: Idx)
      requires g < 4
      ensures Slots()[g][i] == SlotOf(Get(hw.ram, spine.tabs[g], i), age[g][i])
    {
    }

    lemma FirstFourLive()
      requires Sound()
      ensures forall k :: 0 <= k < 4 ==> Slots()[0][k].Live?
    {
      forall k: Idx | k < 4
        ensures Slots()[0][k].Live?
      {
        SlotAt(0, k);
      }
    }

    /** The page is a live slot that shows frame t. */
    ghost predicate Shows(p: Page, t: nat)
      reads this`age, hw
    {
      InWindow(p) && Slots()[p.c][p.d] == Live(t)
    }

    lemma ShownIsUsable(p: Page, t: nat)
      requires Valid() && Shows(p, t) && t in hw.ram
      ensures hw.Writable(p) && Walk(hw.ram, hw.root, p) == Some(Entry(t, WINDOW_FLAGS))
    {
      SlotAt(p.c, p.d);
      SlotRights(hw.ram, hw.root, spine, age, p.c, p.d);
      SlotWalk(hw.ram, hw.root, spine, age, p.c, p.d);
      assert p == SlotPage(p.c, p.d);
    }

    lemma LiveIsLent(p: Page, frame: nat)
      requires Working() && Shows(p, frame)
      ensures Lent(hw.ram, hw.tlb, hw.root, p, frame)
    {
      SlotAt(p.c, p.d);
      SlotRights(hw.ram, hw.root, spine, age, p.c, p.d);
      SlotWalk(hw.ram, hw.root, spine, age, p.c, p.d);
      assert p == SlotPage(p.c, p.d);
    }

    /** A store elsewhere leaves the cache valid. */
    lemma StillValid(ram0: Ram, tlb0: Tlb, rows0: Rows)
      requires rows0 == RowsOf(ram0, spine.tabs, age) && WellKept(ram0, spine.tabs, age) && spine.open
      requires CountsOf(rows0, freecount, lazycount) && LiveAgree(rows0, tlb0, ram0, hw.root)
      requires hw.WellFormed() && Hangs(hw.owner, hw.hole, spine) && Linked(hw.ram, hw.root, spine)
      requires forall h: Idx, j: Idx :: h < 4 ==> Get(hw.ram, spine.tabs[h], j) == Get(ram0, spine.tabs[h], j)
      requires forall h: Idx, j: Idx :: h < 4 ==>
                 Walk(hw.ram, hw.root, SlotPage(h, j)) == Walk(ram0, hw.root, SlotPage(h, j))
      requires AllFilled(tlb0, hw.tlb, hw.ram, hw.root)
      ensures Valid() && Slots() == rows0
    {
      SameRows(ram0, hw.ram, spine.tabs, age);
      forall h: Idx, j: Idx | h < 4 && rows0[h][j].Live?
        ensures Agrees(hw.tlb, hw.ram, hw.root, SlotPage(h, j))
      {
        assert Agrees(tlb0, ram0, hw.root, SlotPage(h, j));
        assert Filled(tlb0, hw.tlb, hw.ram, hw.root, SlotPage(h, j));
      }
    }

    /** A slot that is not live is none of the first four, and a free one has no age. */
    lemma FreeSlotAt(g: Idx, i: Idx)
      requires Sound() && g < 4
      ensures !Slots()[g][i].Live? ==> !(g == 0 && i < 4)
      ensures Slots()[g][i].Free? ==> SetAge(age, g, i, 0) == age
    {
      assert Slots()[g][i] == SlotOf(Get(hw.ram, spine.tabs[g], i), age[g][i]);
      var row: seq<nat> := age[g];
      assert age[g][i] == 0 ==> row[i := 0] == row;
    }
  }

  lemma TakeFree(rows: Rows, free: Counts, lazy: Counts, g: Idx, i: Idx, frame: nat)
    requires CountsOf(rows, free, lazy) && g < 4 && rows[g][i].Free?
    ensures free[g] > 0 && CountsOf(SetSlot(rows, g, i, Live(frame)), free[g := free[g] - 1], lazy)
  {
    CountUpdate(rows[g], i, Live(frame), FreeKind);
    CountUpdate(rows[g], i, Live(frame), LazyKind);
  }

  lemma ReclaimedCounts(rows: Rows, free: Counts, lazy: Counts)
    requires CountsOf(rows, free, lazy) && free[0] == 0
    ensures CountsOf(rows[0 := Reclaimed(rows[0])], free[0 := lazy[0]], lazy[0 := 0])
  {
    ReclaimCounts(rows[0], Reclaimed(rows[0]));
  }

  lemma CountersDecide(rows: Rows, free: Counts, lazy: Counts)
    requires CountsOf(rows, free, lazy)
    ensures forall g :: 0 <= g < 4 ==> (free[g] != 0 <==> Has(rows[g], FreeKind))
    ensures lazy[0] != 0 <==> Has(rows[0], LazyKind)
  {
    forall g | 0 <= g < 4
      ensures free[g] != 0 <==> Has(rows[g], FreeKind)
    {
      CountPositive(rows[g], FreeKind);
    }
    CountPositive(rows[0], LazyKind);
  }

  lemma GrantFromFree(rows: Rows, g: Idx, i: Idx, frame: nat)
    requires g < 4 && IsFirst(rows[g], FreeKind, i) && forall h :: 0 <= h < g ==> !Has(rows[h], FreeKind)
    ensures Grant(rows, frame, g, i, SetSlot(rows, g, i, Live(frame))) && !Stuck(rows)
  {
    assert Has(rows[g], FreeKind);
  }

  lemma GrantFromLazy(rows: Rows, i: Idx, frame: nat)
    requires IsLast(rows[0], LazyKind, i) && forall h :: 0 <= h < 4 ==> !Has(rows[h], FreeKind)
    ensures Grant(rows, frame, 0, i, ReclaimAndTake(rows, i, frame)) && !Stuck(rows)
  {
    assert Has(rows[0], LazyKind);
  }

  lemma Reaimed(rows: Rows, free: Counts, lazy: Counts, g: Idx, i: Idx, frame: nat)
    requires CountsOf(rows, free, lazy) && g < 4
    ensures CountsOf(SetSlot(rows, g, i, Aimed(rows[g][i], frame)), free, lazy) <==> !rows[g][i].Free?
    ensures rows[g][i] == Aimed(rows[g][i], frame) ==> SetSlot(rows, g, i, Aimed(rows[g][i], frame)) == rows
  {
    var s := Aimed(rows[g][i], frame);
    CountUpdate(rows[g], i, s, FreeKind);
    CountUpdate(rows[g], i, s, LazyKind);
    assert rows[g][i] == s ==> rows[g][i := s] == rows[g];
  }

  /** Ageing a slot and adding one to its row's lazy counter keeps the counters true exactly when the slot was
      live: giving the same slot back twice, or giving back a free one, makes them false. */
  lemma AgeingKeepsCounts(rows: Rows, free: Counts, lazy: Counts, g: Idx, i: Idx)
    requires CountsOf(rows, free, lazy) && g < 4
    ensures CountsOf(SetSlot(rows, g, i, Aged(rows[g][i])), free, lazy[g := lazy[g] + 1]) <==> rows[g][i].Live?
  {
    CountUpdate(rows[g], i, Aged(rows[g][i]), FreeKind);
    CountUpdate(rows[g], i, Aged(rows[g][i]), LazyKind);
  }
}
