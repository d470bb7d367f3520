/**
 The kernel mapper: edits the four-level tables through two borrowed window slots, re-aimed as it walks down,
 and through the permanent slot that shows the root table.
 */
module Mapper {
  import opened Wrappers
  import opened Paging
  import opened Hardware
  import opened VCacheSpec
  import opened Window
  import opened Tables
  import opened Steps
  import opened Ranges
  import opened VCache

  const FLUSH_ALL_THRESHOLD: nat := 32

  /** `NoVCacheSpace` stands for the panic or the error of a stuck window cache, `OutOfFrames` for the panic of a
      table that cannot be allocated. */
  datatype MapResult = Ok | NullSize | Managed | NoVCacheSpace | OutOfFrames

  function NumPages(size: nat): nat {
    (size + 4095) / 4096
  }

  /** The flags a mapping gets whatever the caller asks: present, and in kernel space global and closed to users. */
  function Forced(start: nat, flags: Flags): Flags {
    if start > KERNEL_START then flags.(global := true, user := false, present := true) else flags.(present := true)
  }

  /** Forcing the flags again, for a later page of the run, changes nothing. */
  lemma ForcedAgain(start: nat, n: nat, i: nat, flags: Flags)
    requires CanonicalRun(start, n) && i < n
    ensures Forced(start + i, flags) == Forced(start, flags) == Forced(start, Forced(start, flags))
  {
  }

  /** The page leads to the frame with every bit as the caller wanted it, except that it is present, and in kernel space
      global and closed to users. */
  predicate AsAsked(found: Option<Entry>, p: Page, frame: nat, wanted: Flags) {
    && found.Some? && found.value.frame == frame
    && var (f, kernel) := (found.value.flags, p.a >= 256);
       && f.present && f.writable == wanted.writable && f.huge == wanted.huge && f.other == wanted.other
       && f.user == (wanted.user && !kernel) && f.global == (wanted.global || kernel)
  }

  /** The page holds one of the `size` bytes from the start of `first` on. */
  predicate Touches(p: Page, first: Page, size: nat) {
    Number(first) <= Number(p) && (Number(p) - Number(first)) * 4096 < size
  }

  lemma OverlaidAsAsked(before: Option<Entry>, p: Page, start: nat, n: nat, phys: nat, wanted: Flags)
    requires CanonicalRun(start, n) && InRun(p, start, n)
    ensures AsAsked(Overlaid(before, p, start, n, phys, Forced(start, wanted)), p, phys + (Number(p) - start), wanted)
  {
    WindowNumbers(p);
  }

  /** What a mapped run means for the caller, page by page. */
  lemma MappedAsAsked(m0: Mem, m: Mem, root: nat, first: Page, size: nat, phys: nat, wanted: Flags)
    requires CanonicalRun(Number(first), NumPages(size))
    requires var (start, n) := (Number(first), NumPages(size));
             Mapped(m0, m, root, start, n, phys, Forced(start, wanted), FlushesEach(start, n, wanted))
    ensures forall p :: Touches(p, first, size) ==>
              AsAsked(Walk(m.ram, root, p), p, phys + (Number(p) - Number(first)), wanted)
    ensures forall p :: !InWindow(p) && !Touches(p, first, size) ==> Walk(m.ram, root, p) == Walk(m0.ram, root, p)
    ensures wanted.global || first.a >= 256 || size <= 31 * 4096 ==>
              forall p :: Touches(p, first, size) ==> Agrees(m.tlb, m.ram, root, p)
  {
    WindowNumbers(first);
    forall p
      ensures Touches(p, first, size) <==> InRun(p, Number(first), NumPages(size))
    {
    }
    forall p | Touches(p, first, size)
      ensures AsAsked(Walk(m.ram, root, p), p, phys + (Number(p) - Number(first)), wanted)
    {
      WindowNumbers(p);
      OverlaidAsAsked(Walk(m0.ram, root, p), p, Number(first), NumPages(size), phys, wanted);
    }
  }

  /** Page by page, rather than all at once. */
  predicate FlushesEach(start: nat, n: nat, flags: Flags) {
    flags.global || start >= KERNEL_START || n < FLUSH_ALL_THRESHOLD
  }

  ghost predicate SpareIn(rows: Rows, to: Page, from: Page, p4: Page) {
    && InWindow(to) && rows[to.c][to.d].Live? && !(to.c == 0 && to.d < 4)
    && to != from && to != p4
  }

  ghost predicate ShowsIn(rows: Rows, p: Page, t: nat) {
    InWindow(p) && rows[p.c][p.d] == Live(t)
  }

  /** Re-aiming one borrowed page leaves the other and the root's page alone. */
  lemma AimKeeps(rows: Rows, to: Page, f: nat, other: Page, p4: Page, root: nat)
    requires SpareIn(rows, to, other, p4) && SpareIn(rows, other, to, p4) && ShowsIn(rows, p4, root)
    ensures var rows' := SetSlot(rows, to.c, to.d, Live(f));
            && SpareIn(rows', to, other, p4) && SpareIn(rows', other, to, p4)
            && ShowsIn(rows', p4, root) && ShowsIn(rows', to, f)
            && (forall t :: ShowsIn(rows, other, t) ==> ShowsIn(rows', other, t))
            && LiveCount(rows') == LiveCount(rows)
  {
    assert (to.c, to.d) != (other.c, other.d) && (to.c, to.d) != (p4.c, p4.d);
    SetSlotLive(rows, to.c, to.d, Live(f));
  }

  class KernelMapper {
    const hw: Core
    const vcache: VCache
    /** The permanent window page of the root table. */
    const p4: Page
    /** The frames the physical allocator can hand out. */
    var free: set<nat>

    constructor (hw: Core, vcache: VCache, p4: Page, free: set<nat>)
      requires vcache.hw == hw && vcache.Valid() && hw.hole == {} && free !! hw.owner.Keys && free <= hw.ram.Keys
      requires vcache.Shows(p4, hw.root) && !(p4.c == 0 && p4.d < 4)
      ensures this.hw == hw && this.vcache == vcache && this.p4 == p4 && this.free == free
      ensures Valid() && LiveSlots() == LiveCount(vcache.Slots())
    {
      this.hw, this.vcache, this.p4, this.free := hw, vcache, p4, free;
    }

    ghost predicate Valid()
      reads this, hw, vcache
    {
      && vcache.hw == hw && vcache.Valid()
      && hw.hole == {}
      && free !! hw.owner.Keys && free <= hw.ram.Keys
      && vcache.Shows(p4, hw.root) && !(p4.c == 0 && p4.d < 4)
    }

    /** The physical allocator, as an operation on the set of free frames; which one it picks does not matter. */
    method Palloc() returns (r: Option<nat>)
      modifies this`free
      ensures r.None? <==> old(free) == {}
      ensures free == if r.Some? then old(free) - {r.value} else old(free)
      ensures r.Some? ==> r.value in old(free)
    {
      if free == {} {
        return None;
      }
      var g :| g in free;
      free := free - {g};
      r := Some(g);
    }

    ghost predicate Ready()
      reads this, hw, vcache
    {
      vcache.hw == hw && vcache.Valid()
    }

    /** Links the frame g, uncleared, at entry i of the table shown at `from`. */
    method LinkTable(from: Page, i: Idx, flags: Flags, g: nat, ghost t: nat)
      requires Ready() && hw.hole == {} && vcache.Shows(from, t)
      requires CanGrow(hw.ram, hw.root, hw.owner, t, i, g, flags)
      modifies hw
      ensures hw.ram == Put(old(hw.ram), t, i, Entry(g, flags))
      ensures hw.owner == old(hw.owner)[g := Child(old(hw.owner)[t], i)]
      ensures hw.hole == {g}
      ensures AllFilled(old(hw.tlb), hw.tlb, hw.ram, hw.root)
      ensures Ready() && vcache.Slots() == old(vcache.Slots())
    {
      ghost var ram0, tlb0, owner0, rows0, s := hw.ram, hw.tlb, hw.owner, vcache.Slots(), vcache.spine;
      vcache.ShownIsUsable(from, t);
      LinkedTree(ram0, hw.root, owner0, s, t, i, g, flags);
      forall h: Idx, j: Idx | h < 4
        ensures Get(Put(ram0, t, i, Entry(g, flags)), s.tabs[h], j) == Get(ram0, s.tabs[h], j)
        ensures Walk(Put(ram0, t, i, Entry(g, flags)), hw.root, SlotPage(h, j)) == Walk(ram0, hw.root, SlotPage(h, j))
      {
        LinkedWindow(ram0, hw.root, owner0, s, t, i, Entry(g, flags), h, j);
      }
      hw.Store(from, i, Entry(g, flags));
      hw.owner := owner0[g := Child(owner0[t], i)];
      hw.hole := {g};
      vcache.StillValid(ram0, tlb0, rows0);
    }

    /** Clears the table shown at `to`. */
    method ClearTable(to: Page, ghost g: nat)
      requires Ready() && vcache.Shows(to, g) && g in hw.owner && OffWindow(hw.owner[g]) && hw.hole <= {g}
      modifies hw
      ensures hw.ram == old(hw.ram)[g := Zeroed()]
      ensures hw.owner == old(hw.owner) && hw.hole == {}
      ensures AllFilled(old(hw.tlb), hw.tlb, hw.ram, hw.root)
      ensures Ready() && vcache.Slots() == old(vcache.Slots())
    {
      ghost var ram0, tlb0, rows0, s := hw.ram, hw.tlb, vcache.Slots(), vcache.spine;
      vcache.ShownIsUsable(to, g);
      ClearedTree(ram0, hw.root, hw.owner, hw.hole, s, g);
      forall h: Idx, j: Idx | h < 4
        ensures Get(ram0[g := Zeroed()], s.tabs[h], j) == Get(ram0, s.tabs[h], j)
        ensures Walk(ram0[g := Zeroed()], hw.root, SlotPage(h, j)) == Walk(ram0, hw.root, SlotPage(h, j))
      {
        ClearedWindow(ram0, hw.root, hw.owner, hw.hole, s, g, h, j);
      }
      hw.Zero(to);
      hw.hole := {};
      vcache.StillValid(ram0, tlb0, rows0);
    }

    /** A window page that may be re-aimed while `from` is in use. */
    ghost predicate Spare(to: Page, from: Page)
      reads vcache, vcache.hw
    {
      SpareIn(vcache.Slots(), to, from, p4)
    }

    /** Creates the table below entry i of t and shows it at `to`. */
    method Create(from: Page, i: Idx, user: bool, to: Page, g: nat, ghost t: nat)
      requires Ready() && hw.hole == {} && vcache.Shows(from, t) && Spare(to, from)
      requires CanGrow(hw.ram, hw.root, hw.owner, t, i, g, TableFlags(user))
      modifies hw
      ensures Ready() && hw.hole == {}
      ensures vcache.Slots() == SetSlot(old(vcache.Slots()), to.c, to.d, Live(g))
      ensures CanDescend(old(hw.ram), hw.root, old(hw.owner), t, i)
      ensures Descended(old(hw.ram), old(hw.owner), hw.ram, hw.owner, hw.root, vcache.spine, t, i, g, user)
      ensures OthersFilled(old(hw.ram), old(hw.owner), t, i, old(hw.tlb), hw.tlb, hw.ram, hw.root)
      ensures Tame(old(hw.ram)[g], g) ==> NoNewGlobal(old(hw.ram), old(hw.tlb), hw.ram, hw.tlb, hw.root)
    {
      ghost var ram0, t0, owner0, s := hw.ram, hw.tlb, hw.owner, vcache.spine;
      ghost var ram1, t1 := LinkAndShow(from, i, TableFlags(user), to, g, t);
      ghost var ram2, t2 := hw.ram, hw.tlb;
      ClearTable(to, g);
      CreatedRam(ram0, ram1, ram2, hw.ram, owner0, s, t, i, g, TableFlags(user));
      CreatedFills(ram0, t0, ram1, t1, ram2, t2, hw.ram, hw.tlb, hw.root, owner0, hw.owner, s, t, i, g, user);
      if Tame(ram0[g], g) {
        CreatedGlobals(ram0, t0, ram1, t1, ram2, t2, hw.ram, hw.tlb, hw.root, owner0, s, t, i, g, TableFlags(user));
      }
    }

    /** The new table is linked and shown before it is cleared; ram1 and t1 are the state in between. */
    method LinkAndShow(from: Page, i: Idx, flags: Flags, to: Page, g: nat, ghost t: nat)
      returns (ghost ram1: Ram, ghost t1: Tlb)
      requires Ready() && hw.hole == {} && vcache.Shows(from, t) && Spare(to, from)
      requires CanGrow(hw.ram, hw.root, hw.owner, t, i, g, flags)
      modifies hw
      ensures Ready() && vcache.Shows(to, g) && OffWindow(Child(old(hw.owner)[t], i))
      ensures hw.owner == old(hw.owner)[g := Child(old(hw.owner)[t], i)] && hw.hole == {g}
      ensures vcache.Slots() == SetSlot(old(vcache.Slots()), to.c, to.d, Live(g))
      ensures ram1 == Put(old(hw.ram), t, i, Entry(g, flags)) && AllFilled(old(hw.tlb), t1, ram1, hw.root)
      ensures Quiet(ram1, t1, hw.ram, hw.tlb, hw.root, hw.owner, hw.hole, vcache.spine.tabs)
      ensures AllFilled(t1, hw.tlb, hw.ram, hw.root)
    {
      LinkedTree(hw.ram, hw.root, hw.owner, vcache.spine, t, i, g, flags);
      LinkTable(from, i, flags, g, t);
      ram1, t1 := hw.ram, hw.tlb;
      Aim(to, g, from);
    }

    /** Shows another frame at a spare page. */
    method Aim(to: Page, f: nat, ghost from: Page)
      requires Ready() && Spare(to, from)
      modifies hw`ram, hw`tlb
      ensures Ready() && vcache.Slots() == SetSlot(old(vcache.Slots()), to.c, to.d, Live(f))
      ensures vcache.Undisturbed(old(hw.ram), old(hw.tlb)) && AllFilled(old(hw.tlb), hw.tlb, hw.ram, hw.root)
    {
      var ok := vcache.Remap(to, f);
    }

    /** Shows at `to` the table below entry i of the table t shown at `from`, creating it if there is none.  Fails
        only when there is no frame for it. */
    method EnsureAllocated(from: Page, i: Idx, user: bool, to: Page, ghost t: nat) returns (ok: bool, ghost f: nat)
      requires Valid() && vcache.Shows(from, t) && Spare(to, from)
      requires CanDescend(hw.ram, hw.root, hw.owner, t, i)
      modifies hw, this`free
      ensures !ok ==> old(free) == {} && Get(old(hw.ram), t, i) == UNUSED
      ensures ok ==> Ready() && hw.hole == {}
      ensures ok ==> vcache.Slots() == SetSlot(old(vcache.Slots()), to.c, to.d, Live(f))
      ensures ok ==> StepsDown(old(Snap()), Snap(), hw.root, vcache.spine, t, i, f, user)
    {
      vcache.ShownIsUsable(from, t);
      var e := hw.Load(from, i);
      if e == UNUSED {
        var g := Palloc();
        if g.None? {
          return false, 0;
        }
        Create(from, i, user, to, g.value, t);
        return true, g.value;
      }
      Follow(to, e.frame, i, user, t);
      return true, e.frame;
    }

    /** Shows an existing table at `to`. */
    method Follow(to: Page, f: nat, ghost i: Idx, ghost user: bool, ghost t: nat)
      requires Ready() && hw.hole == {} && Spare(to, p4) && CanDescend(hw.ram, hw.root, hw.owner, t, i)
      requires Link(Get(hw.ram, t, i)) && f == Get(hw.ram, t, i).frame
      modifies hw`ram, hw`tlb
      ensures Ready() && hw.owner == old(hw.owner) && hw.hole == {}
      ensures vcache.Slots() == SetSlot(old(vcache.Slots()), to.c, to.d, Live(f))
      ensures Descended(old(hw.ram), old(hw.owner), hw.ram, hw.owner, hw.root, vcache.spine, t, i, f, user)
      ensures OthersFilled(old(hw.ram), old(hw.owner), t, i, old(hw.tlb), hw.tlb, hw.ram, hw.root)
      ensures NoNewGlobal(old(hw.ram), old(hw.tlb), hw.ram, hw.tlb, hw.root)
    {
      ghost var ram0, t0, owner0 := hw.ram, hw.tlb, hw.owner;
      Aim(to, f, p4);
      forall p | !InWindow(p)
        ensures Filled(t0, hw.tlb, hw.ram, hw.root, p)
      {
        assert Elsewhere(owner0, {}, p);
      }
      assert forall p :: !InWindow(p) && p in hw.tlb && hw.tlb[p].flags.global ==>
          Filled(t0, hw.tlb, hw.ram, hw.root, p);
    }

    ghost function Snap(): Mem
      reads this`free, hw
    {
      Mem(hw.ram, hw.tlb, hw.owner, free)
    }

    /** The borrowed pages a and b are live, distinct and neither the root's page nor the tables' own. */
    ghost predicate Borrowed(a: Page, b: Page)
      reads vcache, vcache.hw
    {
      Spare(a, b) && Spare(b, a)
    }

    ghost function LiveSlots(): nat
      reads vcache, vcache.hw
    {
      LiveCount(vcache.Slots())
    }

    /** One level down for the page q: afterwards `to` shows the table below. */
    method Step(from: Page, pos: Pos, q: Page, to: Page, ghost other: Page, ghost t: nat)
      returns (ok: bool, ghost f: nat)
      requires Valid() && vcache.Shows(from, t) && Borrowed(to, other) && from in {p4, other}
      requires !pos.L1? && At(hw.ram, hw.root, pos) == Some(t) && Covers(pos, q)
      requires Followable(Get(hw.ram, t, IndexAt(pos, q)))
      modifies hw, this`free
      ensures !ok ==> Short(old(Snap()), hw.root, {Child(pos, IndexAt(pos, q))})
      ensures ok ==> Deepens(old(Snap()), Snap(), hw.root, {Child(pos, IndexAt(pos, q))})
      ensures ok ==> Valid() && vcache.Shows(to, f) && Borrowed(to, other)
      ensures ok ==> LiveSlots() == old(LiveSlots())
      ensures ok ==> At(hw.ram, hw.root, Child(pos, IndexAt(pos, q))) == Some(f)
    {
      ghost var m := Snap();
      AtOwner(hw.ram, hw.root, hw.owner, pos);
      ok, f := Enter(from, IndexAt(pos, q), q.a < 256, to, other, t);
      if ok {
        StepDeepens(m, Snap(), hw.root, vcache.spine, pos, q, t, f);
      } else {
        NothingBelow(m, hw.root, pos, IndexAt(pos, q));
      }
    }

    /** The same in terms of the borrowed pages. */
    method Enter(from: Page, i: Idx, user: bool, to: Page, ghost other: Page, ghost t: nat)
      returns (ok: bool, ghost f: nat)
      requires Valid() && vcache.Shows(from, t) && Borrowed(to, other) && from in {p4, other}
      requires CanDescend(hw.ram, hw.root, hw.owner, t, i)
      modifies hw, this`free
      ensures !ok ==> old(free) == {} && Get(old(hw.ram), t, i) == UNUSED
      ensures ok ==> Ready() && hw.hole == {} && vcache.Shows(p4, hw.root) && vcache.Shows(to, f) && Borrowed(to, other)
      ensures ok ==> LiveSlots() == old(LiveSlots())
      ensures ok ==> StepsDown(old(Snap()), Snap(), hw.root, vcache.spine, t, i, f, user)
    {
      ghost var rows := vcache.Slots();
      ok, f := EnsureAllocated(from, i, user, to, t);
      if ok {
        AimKeeps(rows, to, f, other, p4, hw.root);
      }
    }

    /** Two levels down for the page q, through a and then b, where the second table is shown. */
    method DescendTwo(q: Page, a: Page, b: Page) returns (ok: bool, ghost t2: nat)
      requires Valid() && Borrowed(a, b) && !InWindow(q) && PathOk(hw.ram, hw.root, q)
      modifies hw, this`free
      ensures !ok ==> Short(old(Snap()), hw.root, UpperWay(q))
      ensures ok ==> Deepens(old(Snap()), Snap(), hw.root, UpperWay(q))
      ensures ok ==> Valid() && Borrowed(a, b) && vcache.Shows(b, t2) && LiveSlots() == old(LiveSlots())
      ensures ok ==> At(hw.ram, hw.root, L2(q.a, q.b)) == Some(t2) && PathOk(hw.ram, hw.root, q)
    {
      ghost var m0, t3 := Snap(), 0;
      t2 := 0;
      ok, t3 := Step(p4, Root, q, a, b, hw.root);
      if !ok {
        ShortMore(m0, hw.root, {L3(q.a)}, UpperWay(q));
        return;
      }
      ghost var m1 := Snap();
      assert PathOk(hw.ram, hw.root, q);
      ok, t2 := Step(a, L3(q.a), q, b, a, t3);
      if !ok {
        ShortAfter(m0, m1, hw.root, {L3(q.a)}, {L2(q.a, q.b)});
        return;
      }
      assert PathOk(hw.ram, hw.root, q);
      DeepensTransitive(m0, m1, Snap(), hw.root, {L3(q.a)}, {L2(q.a, q.b)});
    }

    /** Three levels down for the page q, through the two borrowed pages in turn: the last table is shown at a. */
    method Descend(q: Page, a: Page, b: Page) returns (ok: bool, ghost t1: nat)
      requires Valid() && Borrowed(a, b) && !InWindow(q) && PathOk(hw.ram, hw.root, q)
      modifies hw, this`free
      ensures !ok ==> Short(old(Snap()), hw.root, WayOf(q))
      ensures ok ==> Deepens(old(Snap()), Snap(), hw.root, WayOf(q))
      ensures ok ==> Valid() && Borrowed(a, b) && vcache.Shows(a, t1) && LiveSlots() == old(LiveSlots())
      ensures ok ==> At(hw.ram, hw.root, L1(q.a, q.b, q.c)) == Some(t1)
    {
      ghost var m0, t2 := Snap(), 0;
      t1 := 0;
      WholeWay(q);
      ok, t2 := DescendTwo(q, a, b);
      if !ok {
        ShortMore(m0, hw.root, UpperWay(q), WayOf(q));
        return;
      }
      ghost var m2 := Snap();
      ok, t1 := Step(b, L2(q.a, q.b), q, a, b, t2);
      if !ok {
        ShortAfter(m0, m2, hw.root, UpperWay(q), {L1(q.a, q.b, q.c)});
        return;
      }
      DeepensTransitive(m0, m2, Snap(), hw.root, UpperWay(q), {L1(q.a, q.b, q.c)});
    }

    /** Writes the leaf of q through the page that shows its table, and flushes q if asked to. */
    method StoreLeaf(a: Page, q: Page, e: Entry, flush: bool, ghost t1: nat)
      requires Valid() && vcache.Shows(a, t1) && !InWindow(q) && e.flags.present
      requires At(hw.ram, hw.root, L1(q.a, q.b, q.c)) == Some(t1) && t1 in hw.ram
      modifies hw`ram, hw`tlb
      ensures hw.owner == old(hw.owner) && hw.hole == old(hw.hole) && free == old(free)
      ensures hw.ram == Put(old(hw.ram), t1, q.d, e)
      ensures Valid() && vcache.Slots() == old(vcache.Slots()) && LiveSlots() == old(LiveSlots())
      ensures AllFilled(old(hw.tlb), hw.tlb, hw.ram, hw.root) && (flush ==> Agrees(hw.tlb, hw.ram, hw.root, q))
      ensures LinksFrom(old(hw.ram), hw.owner, hw.ram, hw.owner)
    {
      ghost var ram0, tlb0, rows0, s := hw.ram, hw.tlb, vcache.Slots(), vcache.spine;
      vcache.ShownIsUsable(a, t1);
      LeafSpine(ram0, hw.root, hw.owner, s, t1, q, e);
      forall h: Idx, j: Idx | h < 4
        ensures Get(Put(ram0, t1, q.d, e), s.tabs[h], j) == Get(ram0, s.tabs[h], j)
        ensures Walk(Put(ram0, t1, q.d, e), hw.root, SlotPage(h, j)) == Walk(ram0, hw.root, SlotPage(h, j))
      {
        LeafWindow(ram0, hw.root, hw.owner, s, t1, q, e, h, j);
      }
      hw.Store(a, q.d, e);
      if flush {
        ghost var tlb1 := hw.tlb;
        hw.Invlpg(q);
        FilledTwice(tlb0, tlb1, hw.tlb, hw.ram, hw.root);
      }
      vcache.StillValid(ram0, tlb0, rows0);
    }

    /** One round of the mapping loop. */
    method MapPage(q: Page, e: Entry, flush: bool, a: Page, b: Page) returns (ok: bool)
      requires Valid() && Borrowed(a, b) && !InWindow(q) && PathOk(hw.ram, hw.root, q) && e.flags.present
      modifies hw, this`free
      ensures !ok ==> Short(old(Snap()), hw.root, WayOf(q))
      ensures ok ==> Valid() && Borrowed(a, b) && LiveSlots() == old(LiveSlots())
      ensures ok ==> PageMapped(old(Snap()), Snap(), hw.root, q, e, flush)
    {
      ghost var m, t1 := Snap(), 0;
      ok, t1 := Descend(q, a, b);
      if !ok { return; }
      ghost var m1 := Snap();
      AtOwner(hw.ram, hw.root, hw.owner, L1(q.a, q.b, q.c));
      StoreLeaf(a, q, e, flush, t1);
      PageDone(m, m1, Snap(), hw.root, q, e, t1, flush);
    }

    /** The round that maps page i of the run: the flags carried so far are forced again, to the same effect. */
    method MapNth(start: nat, n: nat, i: nat, phys: nat, carried: Flags, flush: bool, a: Page, b: Page,
                  ghost m0: Mem, ghost final: Flags) returns (ok: bool, flags: Flags)
      requires Valid() && Borrowed(a, b) && CanonicalRun(start, n) && i < n
      requires forall p :: InRun(p, start, n) ==> PathOk(m0.ram, hw.root, p)
      requires Forced(start, carried) == final
      requires RunMapped(m0, Snap(), hw.root, start, i, phys, final, flush)
      modifies hw, this`free
      ensures Forced(start, flags) == final
      ensures !ok ==> Short(m0, hw.root, Ways(start, n))
      ensures ok ==> Valid() && Borrowed(a, b) && LiveSlots() == old(LiveSlots())
      ensures ok ==> RunMapped(m0, Snap(), hw.root, start, i + 1, phys, final, flush)
    {
      var q := PageAt(start + i);
      RunPage(start, n, i, q);
      flags := Forced(start + i, carried);
      ForcedAgain(start, n, i, carried);
      ghost var m := Snap();
      ok := MapPage(q, Entry(phys + i, flags), flush, a, b);
      if ok {
        RunStep(m0, m, Snap(), hw.root, start, i, phys, flags, q, flush);
      } else {
        RunShort(m0, m, hw.root, start, i, n, q);
      }
    }

    /** The mapping loop, with the caller's flags forced on the way. */
    method MapRun(start: nat, n: nat, phys: nat, wanted: Flags, flush: bool, a: Page, b: Page) returns (ok: bool)
      requires Valid() && Borrowed(a, b) && CanonicalRun(start, n)
      requires forall p :: InRun(p, start, n) ==> PathOk(hw.ram, hw.root, p)
      modifies hw, this`free
      ensures !ok ==> Short(old(Snap()), hw.root, Ways(start, n))
      ensures ok ==> Valid() && Borrowed(a, b) && LiveSlots() == old(LiveSlots())
      ensures ok ==> RunMapped(old(Snap()), Snap(), hw.root, start, n, phys, Forced(start, wanted), flush)
    {
      ghost var m0, final := Snap(), Forced(start, wanted);
      RunStart(m0, hw.root, start, phys, final, flush);
      var flags := wanted;
      for i := 0 to n
        invariant Forced(start, flags) == final
        invariant Valid() && Borrowed(a, b) && LiveSlots() == old(LiveSlots())
        invariant RunMapped(m0, Snap(), hw.root, start, i, phys, final, flush)
      {
        ok, flags := MapNth(start, n, i, phys, flags, flush, a, b, m0, final);
        if !ok { return; }
      }
      ok := true;
    }

    /** Borrows two slots; below the cache's bound this succeeds. */
    method Borrow() returns (ok: bool, a: Page, b: Page)
      requires Valid() && LiveSlots() <= 5
      modifies hw`ram, hw`tlb, vcache`freecount, vcache`lazycount, vcache`age
      ensures ok && Valid() && Borrowed(a, b)
      ensures hw.owner == old(hw.owner) && hw.hole == old(hw.hole) && free == old(free)
      ensures vcache.Undisturbed(old(hw.ram), old(hw.tlb))
      ensures LiveSlots() == old(LiveSlots()) + 2
    {
      ghost var rows0 := vcache.Slots();
      vcache.FirstFourLive();
      var slots, _, _ := vcache.MapMany([0, 0]);
      var s0, s1 := slots.value[0], slots.value[1];
      ok, a, b := true, SlotPage(s0.0, s0.1), SlotPage(s1.0, s1.1);
      BorrowedFrom(rows0, vcache.Slots(), slots.value, a, b, p4, hw.root);
    }

    method GiveOne(a: Page, ghost b: Page)
      requires Valid() && Spare(a, b) && InWindow(b)
      modifies vcache`lazycount, vcache`age
      ensures Snap() == old(Snap())
      ensures Valid() && LiveSlots() == old(LiveSlots()) - 1
      ensures vcache.Slots()[b.c][b.d] == old(vcache.Slots())[b.c][b.d]
    {
      GivenBackOne(vcache.Slots(), a, b, p4, hw.root);
      vcache.Unmap(a.c, a.d);
    }

    /** Gives both slots back. */
    method GiveBack(a: Page, b: Page)
      requires Valid() && Borrowed(a, b)
      modifies vcache`lazycount, vcache`age
      ensures Snap() == old(Snap())
      ensures Valid() && LiveSlots() == old(LiveSlots()) - 2
    {
      GiveOne(a, b);
      GiveOne(b, a);
    }

    /** Drops every translation of this core that is not global. */
    method FlushAll()
      requires Valid()
      modifies hw`tlb
      ensures Valid() && LiveSlots() == old(LiveSlots())
      ensures hw.ram == old(hw.ram) && hw.owner == old(hw.owner) && free == old(free)
      ensures Reloaded(old(hw.tlb), hw.tlb, hw.ram, hw.root)
    {
      ghost var ram0, tlb0, rows0 := hw.ram, hw.tlb, vcache.Slots();
      hw.ReloadCr3();
      assert AllFilled(tlb0, hw.tlb, hw.ram, hw.root);
      vcache.StillValid(ram0, tlb0, rows0);
    }

    /** Maps `size` bytes of pages from `page` to the frames from `phys` on. */
    method Map(page: Page, phys: nat, size: nat, flags: Flags) returns (r: MapResult)
      requires Valid() && LiveSlots() <= 5 && !flags.huge
      requires InWindow(page) || CanonicalRun(Number(page), NumPages(size))
      requires InWindow(page) || forall p :: InRun(p, Number(page), NumPages(size)) ==> PathOk(hw.ram, hw.root, p)
      modifies hw, this`free, vcache`freecount, vcache`lazycount, vcache`age
      ensures r.NullSize? <==> size == 0
      ensures r.Managed? <==> size > 0 && InWindow(page)
      ensures !r.NoVCacheSpace?
      ensures r.OutOfFrames? <==>
                size > 0 && !InWindow(page) && Short(old(Snap()), hw.root, Ways(Number(page), NumPages(size)))
      ensures r.NullSize? || r.Managed? ==> Snap() == old(Snap())
      ensures !r.OutOfFrames? ==> Valid() && LiveSlots() == old(LiveSlots())
      ensures r.Ok? ==> var (start, n) := (Number(page), NumPages(size));
                Mapped(old(Snap()), Snap(), hw.root, start, n, phys, Forced(start, flags), FlushesEach(start, n, flags))
      ensures r.Ok? ==> forall p :: Touches(p, page, size) ==>
                AsAsked(Walk(hw.ram, hw.root, p), p, phys + (Number(p) - Number(page)), flags)
      ensures r.Ok? ==> forall p :: !InWindow(p) && !Touches(p, page, size) ==>
                Walk(hw.ram, hw.root, p) == Walk(old(hw.ram), hw.root, p)
      ensures r.Ok? && (flags.global || page.a >= 256 || size <= 31 * 4096) ==>
                forall p :: Touches(p, page, size) ==> Agrees(hw.tlb, hw.ram, hw.root, p)
    {
      if size == 0 {
        return NullSize;
      }
      if InWindow(page) {
        return Managed;
      }
      ghost var m0 := Snap();
      r := MapChecked(Number(page), NumPages(size), phys, flags);
      if r.Ok? {
        MappedAsAsked(m0, Snap(), hw.root, page, size, phys, flags);
      }
    }

    /** Borrows the two slots without disturbing any page of the run. */
    method BorrowFor(start: nat, n: nat) returns (a: Page, b: Page)
      requires Valid() && LiveSlots() <= 5 && CanonicalRun(start, n)
      requires forall p :: InRun(p, start, n) ==> PathOk(hw.ram, hw.root, p)
      modifies hw`ram, hw`tlb, vcache`freecount, vcache`lazycount, vcache`age
      ensures Valid() && Borrowed(a, b) && LiveSlots() == old(LiveSlots()) + 2
      ensures Deepens(old(Snap()), Snap(), hw.root, {})
      ensures forall p :: InRun(p, start, n) ==> PathOk(hw.ram, hw.root, p)
    {
      ghost var m0 := Snap();
      var ok;
      ok, a, b := Borrow();
      BorrowGentle(m0, Snap(), hw.root, vcache.spine);
      forall p | InRun(p, start, n)
        ensures PathOk(hw.ram, hw.root, p)
      {
        WindowNumbers(p);
      }
    }

    /** Gives the slots back, and flushes all at once if nothing was flushed page by page. */
    method Finish(a: Page, b: Page, start: nat, n: nat, phys: nat, flags: Flags, flush: bool, ghost m0: Mem)
      requires Valid() && Borrowed(a, b) && RunMapped(m0, Snap(), hw.root, start, n, phys, flags, flush)
      requires CanonicalRun(start, n)
      modifies hw`tlb, vcache`lazycount, vcache`age
      ensures Valid() && LiveSlots() == old(LiveSlots()) - 2
      ensures Mapped(m0, Snap(), hw.root, start, n, phys, flags, flush)
    {
      GiveBack(a, b);
      if !flush {
        ghost var m2 := Snap();
        FlushAll();
        FlushedRun(m0, m2, Snap(), hw.root, start, n, phys, flags);
      }
    }

    method MapChecked(start: nat, n: nat, phys: nat, flags: Flags) returns (r: MapResult)
      requires Valid() && LiveSlots() <= 5 && CanonicalRun(start, n)
      requires forall p :: InRun(p, start, n) ==> PathOk(hw.ram, hw.root, p)
      modifies hw, this`free, vcache`freecount, vcache`lazycount, vcache`age
      ensures r.Ok? || r.OutOfFrames?
      ensures r.OutOfFrames? <==> Short(old(Snap()), hw.root, Ways(start, n))
      ensures r.Ok? ==> Valid() && LiveSlots() == old(LiveSlots())
      ensures r.Ok? ==>
                Mapped(old(Snap()), Snap(), hw.root, start, n, phys, Forced(start, flags), FlushesEach(start, n, flags))
    {
      ghost var m0 := Snap();
      var flush := FlushesEach(start, n, flags);
      var a, b := BorrowFor(start, n);
      ghost var m1 := Snap();
      var ok := MapRun(start, n, phys, flags, flush, a, b);
      if !ok {
        ShortSame(m0, m1, hw.root, Ways(start, n));
        return OutOfFrames;
      }
      RunAfterGentle(m0, m1, Snap(), hw.root, start, n, phys, Forced(start, flags), flush);
      Finish(a, b, start, n, phys, Forced(start, flags), flush, m0);
      r := Ok;
    }

    method ClearRootEntry(i: Idx, ghost m0: Mem)
      requires Valid() && i < 256 && LowerCleared(hw.ram, hw.root, i) && Clearing(m0, Snap(), hw.root)
      modifies hw`ram, hw`tlb
      ensures Valid() && LiveSlots() == old(LiveSlots()) && hw.owner == old(hw.owner) && free == old(free)
      ensures LowerCleared(hw.ram, hw.root, i + 1) && Clearing(m0, Snap(), hw.root)
    {
      ghost var m, rows0 := Snap(), vcache.Slots();
      vcache.ShownIsUsable(p4, hw.root);
      RootStore(m.ram, hw.root, hw.owner, vcache.spine, i);
      hw.Store(p4, i, UNUSED);
      vcache.StillValid(m.ram, m.tlb, rows0);
      ClearingStep(m0, m, Snap(), hw.root, i);
    }

    /** Clears the lower half of the root table, through its window page, and flushes.  No page of the lower half
        stays mapped, and kernel pages translate as before. */
    method RemoveIdentity()
      requires Valid()
      modifies hw
      ensures Valid() && LiveSlots() == old(LiveSlots())
      ensures UserLinks(hw.ram, hw.owner)
      ensures forall p: Page :: p.a < 256 ==> Walk(hw.ram, hw.root, p) == None && PathOk(hw.ram, hw.root, p)
      ensures forall p: Page :: p.a >= 256 ==> Walk(hw.ram, hw.root, p) == Walk(old(hw.ram), hw.root, p)
      ensures Purged(old(Snap()), Snap(), hw.root) && NewLinks(old(Snap()), Snap())
    {
      ghost var m0 := Snap();
      ClearLower();
      ghost var m := Snap();
      FlushAll();
      ForgetLower();
      PurgedLower(m0, m, Snap(), hw.root);
      RootOnlyLinks(m0, Snap(), hw.root);
    }

    method ClearLower()
      requires Valid()
      modifies hw`ram, hw`tlb
      ensures Valid() && LiveSlots() == old(LiveSlots()) && hw.owner == old(hw.owner) && free == old(free)
      ensures LowerCleared(hw.ram, hw.root, 256) && Clearing(old(Snap()), Snap(), hw.root)
    {
      ghost var m0 := Snap();
      for i := 0 to 256
        invariant Valid() && LiveSlots() == old(LiveSlots()) && hw.owner == old(hw.owner) && free == old(free)
        invariant LowerCleared(hw.ram, hw.root, i) && Clearing(m0, Snap(), hw.root)
      {
        ClearRootEntry(i, m0);
      }
    }

    /** The tables of the lower half are tables no more. */
    ghost method ForgetLower()
      requires Valid() && LowerCleared(hw.ram, hw.root, 256)
      modifies hw`owner
      ensures Valid() && LiveSlots() == old(LiveSlots()) && hw.ram == old(hw.ram) && hw.tlb == old(hw.tlb)
      ensures free == old(free) && hw.owner == UpperTables(old(hw.owner))
      ensures UserLinks(hw.ram, hw.owner)
      ensures forall p: Page :: p.a < 256 ==> Walk(hw.ram, hw.root, p) == None && PathOk(hw.ram, hw.root, p)
    {
      ghost var ram0, tlb0, rows0 := hw.ram, hw.tlb, vcache.Slots();
      LowerHalfGone(hw.ram, hw.root, hw.owner, vcache.spine);
      hw.owner := UpperTables(hw.owner);
      assert AllFilled(tlb0, hw.tlb, hw.ram, hw.root);
      vcache.StillValid(ram0, tlb0, rows0);
    }
  }

  lemma StepDeepens(m: Mem, m': Mem, root: nat, s: Spine, pos: Pos, q: Page, t: nat, f: nat)
    requires WellPlaced(m, root, s) && !pos.L1? && At(m.ram, root, pos) == Some(t) && Covers(pos, q)
    requires CanDescend(m.ram, root, m.owner, t, IndexAt(pos, q)) && Tree(m'.ram, root, m'.owner, {})
    requires StepsDown(m, m', root, s, t, IndexAt(pos, q), f, q.a < 256)
    ensures WellPlaced(m', root, s) && Deepens(m, m', root, {Child(pos, IndexAt(pos, q))})
    ensures At(m'.ram, root, Child(pos, IndexAt(pos, q))) == Some(f)
  {
    AtOwner(m.ram, root, m.owner, pos);
    DescendedDeepens(m, m', root, s, t, IndexAt(pos, q), f, q.a < 256);
  }

  lemma NothingBelow(m: Mem, root: nat, pos: Pos, i: Idx)
    requires Tree(m.ram, root, m.owner, {}) && !pos.L1? && At(m.ram, root, pos).Some?
    requires Get(m.ram, At(m.ram, root, pos).value, i) == UNUSED && m.free == {}
    ensures Short(m, root, {Child(pos, i)})
  {
    assert At(m.ram, root, Child(pos, i)).None?;
    assert Lacking(m.ram, root, {Child(pos, i)}) == {Child(pos, i)};
  }

  lemma GivenBackOne(rows: Rows, a: Page, b: Page, p4: Page, root: nat)
    requires InWindow(a) && rows[a.c][a.d].Live? && InWindow(b) && a != b && ShowsIn(rows, p4, root) && a != p4
    ensures var rows' := SetSlot(rows, a.c, a.d, Lazy(rows[a.c][a.d].frame));
            && rows'[b.c][b.d] == rows[b.c][b.d] && ShowsIn(rows', p4, root)
            && LiveCount(rows') == LiveCount(rows) - 1
  {
    assert (a.c, a.d) != (b.c, b.d) && (a.c, a.d) != (p4.c, p4.d);
    SetSlotLive(rows, a.c, a.d, Lazy(rows[a.c][a.d].frame));
  }

  lemma BorrowedFrom(rows: Rows, rows': Rows, slots: seq<(nat, nat)>, a: Page, b: Page, p4: Page, root: nat)
    requires InWindow(a) && InWindow(b) && ShowsIn(rows, p4, root)
    requires AllGranted(rows, [0, 0], slots, rows') && |slots| == 2 && slots[0] == (a.c, a.d) && slots[1] == (b.c, b.d)
    requires forall k :: 0 <= k < 4 ==> rows[0][k].Live?
    ensures SpareIn(rows', a, b, p4) && SpareIn(rows', b, a, p4) && ShowsIn(rows', p4, root)
    ensures LiveCount(rows') == LiveCount(rows) + 2
  {
    assert GrantedAt(rows, 0, slots[0], rows') && GrantedAt(rows, 0, slots[1], rows');
  }

  lemma CreatedFills(ram0: Ram, t0: Tlb, ram1: Ram, t1: Tlb, ram2: Ram, t2: Tlb, ram3: Ram, t3: Tlb, root: nat,
                     owner: map<nat, Pos>, owner': map<nat, Pos>, s: Spine, t: nat, i: Idx, g: nat, user: bool)
    requires CanGrow(ram0, root, owner, t, i, g, TableFlags(user)) && CanDescend(ram0, root, owner, t, i)
    requires Hangs(owner, {}, s)
    requires Descended(ram0, owner, ram3, owner', root, s, t, i, g, user)
    requires ram1 == Put(ram0, t, i, Entry(g, TableFlags(user))) && AllFilled(t0, t1, ram1, root)
    requires ElsewhereKept(ram1, t1, ram2, t2, root, owner[g := Child(owner[t], i)], {g})
    requires AllFilled(t2, t3, ram3, root)
    ensures OthersFilled(ram0, owner, t, i, t0, t3, ram3, root)
  {
    forall p | !InWindow(p) && !Exposed(ram0, owner, t, i, p)
      ensures Filled(t0, t3, ram3, root, p)
    {
      DescendedWalk(ram0, owner, ram3, owner', root, s, t, i, g, user, p);
      CreatedTlb(ram0, t0, ram1, t1, ram2, t2, ram3, t3, root, owner, s, t, i, g, TableFlags(user), p);
    }
  }

  lemma CreatedRam(ram0: Ram, ram1: Ram, ram2: Ram, ram3: Ram, owner: map<nat, Pos>, s: Spine,
                   t: nat, i: Idx, g: nat, flags: Flags)
    requires Hangs(owner, {}, s) && g !in owner && t in ram0 && g in ram0
    requires ram1 == Put(ram0, t, i, Entry(g, flags)) && OnlyTabs(ram1, ram2, s.tabs) && ram3 == ram2[g := Zeroed()]
    ensures OnlyTabs(Grown(ram0, t, i, g, flags), ram3, s.tabs)
  {
    assert forall h: Idx :: h < 4 ==> s.tabs[h] in owner;
    assert g !in s.tabs;
  }
}
