/**
 The window: the first 8 MiB of kernel space, whose four lowest-level tables map themselves through its first
 four slots.  These definitions and lemmas are about plain values; the cache itself is in VCache.
 */
module Window {
  import opened Wrappers
  import opened Paging
  import opened Hardware
  import opened VCacheSpec

  const WINDOW_FLAGS := Flags(true, true, false, true, false, 0)

  predicate InWindow(p: Page) {
    p.a == 256 && p.b == 0 && p.c < 4
  }

  function SlotPage(g: nat, i: nat): Page
    requires g < 4 && i < 512
  {
    Page(256, 0, g, i)
  }

  /** A table at this position is on no window page's path. */
  predicate OffWindow(pos: Pos) {
    match pos
    case Root => false
    case L3(a) => a != 256
    case L2(a, b) => a != 256 || b != 0
    case L1(a, b, c) => a != 256 || b != 0 || c >= 4
  }

  type Tabs = t: seq<nat> | |t| == 4 witness [0, 0, 0, 0]

  /** The frames of the tables above the slots, and whether the links to them let stores through. */
  datatype Spine = Spine(mid: nat, low: nat, tabs: Tabs, open: bool)

  ghost predicate Hangs(owner: map<nat, Pos>, hole: set<nat>, s: Spine) {
    && s.mid in owner && owner[s.mid] == L3(256)
    && s.low in owner && owner[s.low] == L2(256, 0)
    && (forall g: Idx :: g < 4 ==> s.tabs[g] in owner && owner[s.tabs[g]] == L1(256, 0, g))
    && (forall h :: h in hole && h in owner ==> OffWindow(owner[h]))
  }

  ghost predicate Linked(ram: Ram, root: nat, s: Spine) {
    && Link(Get(ram, root, 256)) && Get(ram, root, 256).frame == s.mid
    && Link(Get(ram, s.mid, 0)) && Get(ram, s.mid, 0).frame == s.low
    && (forall g: Idx :: g < 4 ==> Link(Get(ram, s.low, g)) && Get(ram, s.low, g).frame == s.tabs[g])
    && (forall g: Idx :: g < 4 ==> s.tabs[g] in ram)
    && s.open == LinksOpen(ram, root, s)
  }

  ghost predicate LinksOpen(ram: Ram, root: nat, s: Spine) {
    && Get(ram, root, 256).flags.writable && Get(ram, s.mid, 0).flags.writable
    && forall g: Idx :: g < 4 ==> Get(ram, s.low, g).flags.writable
  }

  type Ages = a: seq<seq<nat>> | |a| == 4 && forall g :: 0 <= g < 4 ==> |a[g]| == 512
    witness seq(4, _ => seq(512, _ => 0))

  function SetAge(age: Ages, g: Idx, i: Idx, a: nat): Ages
    requires g < 4
  {
    var row: seq<nat> := age[g];
    age[g := row[i := a]]
  }

  function SlotOf(e: Entry, age: nat): Slot {
    if !e.flags.present then Free else if age != 0 then Lazy(e.frame) else Live(e.frame)
  }

  ghost function RowOf(ram: Ram, f: nat, age: seq<nat>): Row
    requires |age| == 512
  {
    seq(512, i requires 0 <= i < 512 => SlotOf(Get(ram, f, i), age[i]))
  }

  ghost function RowsOf(ram: Ram, tabs: Tabs, age: Ages): Rows
  {
    seq(4, g requires 0 <= g < 4 => RowOf(ram, tabs[g], age[g]))
  }

  /** Entries in the window carry the window's flags, only present entries age, and slots 0 to 3 map the tables. */
  ghost predicate WellKept(ram: Ram, tabs: Tabs, age: Ages) {
    && (forall g: Idx, i: Idx :: g < 4 && Get(ram, tabs[g], i).flags.present ==>
          Get(ram, tabs[g], i).flags == WINDOW_FLAGS)
    && (forall g: Idx, i: Idx :: g < 4 && !Get(ram, tabs[g], i).flags.present ==> age[g][i] == 0)
    && (forall g: Idx :: g < 4 ==> Get(ram, tabs[0], g) == Entry(tabs[g], WINDOW_FLAGS) && age[0][g] == 0)
  }

  /** The core sees no stale frame through a live slot. */
  ghost predicate LiveAgree(rows: Rows, tlb: Tlb, ram: Ram, root: nat) {
    forall g: Idx, i: Idx :: g < 4 && rows[g][i].Live? ==> Agrees(tlb, ram, root, SlotPage(g, i))
  }

  /** The same, but for the slot (g, i), which is being written. */
  ghost predicate LiveAgreeBut(rows: Rows, tlb: Tlb, ram: Ram, root: nat, g: nat, i: nat) {
    forall h: Idx, j: Idx :: h < 4 && (h, j) != (g, i) && rows[h][j].Live? ==> Agrees(tlb, ram, root, SlotPage(h, j))
  }

  /** A page outside the window, below no uncleared table. */
  ghost predicate Elsewhere(owner: map<nat, Pos>, hole: set<nat>, p: Page) {
    !InWindow(p) && Clear(owner, hole, p)
  }

  /** Pages elsewhere translate as before, and the buffer holds nothing new about them but that. */
  ghost predicate ElsewhereKept(
      ram0: Ram, t0: Tlb, ram1: Ram, t1: Tlb, root: nat, owner: map<nat, Pos>, hole: set<nat>)
  {
    && (forall p :: Elsewhere(owner, hole, p) ==> Walk(ram1, root, p) == Walk(ram0, root, p))
    && (forall p :: Elsewhere(owner, hole, p) ==> Filled(t0, t1, ram1, root, p))
  }

  /** Only the window's tables were written. */
  ghost predicate OnlyTabs(ram0: Ram, ram1: Ram, tabs: Tabs) {
    ram1.Keys == ram0.Keys && forall f :: f in ram0 && f !in tabs ==> ram1[f] == ram0[f]
  }

  /** What every operation of the cache leaves alone. */
  ghost predicate Quiet(
      ram0: Ram, t0: Tlb, ram1: Ram, t1: Tlb, root: nat, owner: map<nat, Pos>, hole: set<nat>, tabs: Tabs)
  {
    OnlyTabs(ram0, ram1, tabs) && ElsewhereKept(ram0, t0, ram1, t1, root, owner, hole)
  }

  lemma QuietTransitive(ram0: Ram, t0: Tlb, ram1: Ram, t1: Tlb, ram2: Ram, t2: Tlb,
                        root: nat, owner: map<nat, Pos>, hole: set<nat>, tabs: Tabs)
    requires Quiet(ram0, t0, ram1, t1, root, owner, hole, tabs)
    requires Quiet(ram1, t1, ram2, t2, root, owner, hole, tabs)
    ensures Quiet(ram0, t0, ram2, t2, root, owner, hole, tabs)
  {
    forall p | Elsewhere(owner, hole, p)
      ensures Walk(ram2, root, p) == Walk(ram0, root, p) && Filled(t0, t2, ram2, root, p)
    {
      assert Walk(ram1, root, p) == Walk(ram0, root, p);
      assert Filled(t0, t1, ram1, root, p) && Filled(t1, t2, ram2, root, p);
    }
  }

  /** A slot page translates to what its slot holds. */
  lemma SlotWalk(ram: Ram, root: nat, s: Spine, age: Ages, g: Idx, i: Idx)
    requires Linked(ram, root, s) && WellKept(ram, s.tabs, age) && g < 4
    ensures Walk(ram, root, SlotPage(g, i)) ==
            if Get(ram, s.tabs[g], i).flags.present then Some(Get(ram, s.tabs[g], i)) else None
    ensures Walk(ram, root, SlotPage(0, g)) == Some(Entry(s.tabs[g], WINDOW_FLAGS))
  {
  }

  /** Through open links, a slot that is not free may be written. */
  lemma SlotRights(ram: Ram, root: nat, s: Spine, age: Ages, g: Idx, i: Idx)
    requires Linked(ram, root, s) && WellKept(ram, s.tabs, age) && s.open && g < 4
    ensures Get(ram, s.tabs[g], i).flags.present ==> MayWrite(ram, root, SlotPage(g, i))
    ensures MayWrite(ram, root, SlotPage(0, g))
  {
  }

  /** The page leads to the frame, for stores too and for the kernel alone, over changes of the address space, and the
      core sees no other frame there. */
  ghost predicate Lent(ram: Ram, tlb: Tlb, root: nat, p: Page, frame: nat) {
    && Agrees(tlb, ram, root, p) && MayWrite(ram, root, p) && Walk(ram, root, p).Some?
    && var e := Walk(ram, root, p).value;
       e.frame == frame && e.flags.global && !e.flags.user && !e.flags.huge && e.flags.other == 0
  }

  lemma WindowClear(owner: map<nat, Pos>, hole: set<nat>, s: Spine, p: Page)
    requires Hangs(owner, hole, s) && InWindow(p)
    ensures Clear(owner, hole, p)
  {
  }

  /** The effect of one store into the window's tables, at the slot (g, i). */
  lemma SlotStore(ram: Ram, root: nat, owner: map<nat, Pos>, hole: set<nat>, s: Spine, g: Idx, i: Idx, e: Entry)
    requires Tree(ram, root, owner, hole) && Hangs(owner, hole, s) && Linked(ram, root, s) && g < 4
    ensures var ram' := Put(ram, s.tabs[g], i, e);
            && Tree(ram', root, owner, hole)
            && Linked(ram', root, s)
            && (forall p :: Elsewhere(owner, hole, p) ==> Walk(ram', root, p) == Walk(ram, root, p))
            && (forall h: Idx, j: Idx :: h < 4 && (h, j) != (g, i) ==>
                  Walk(ram', root, SlotPage(h, j)) == Walk(ram, root, SlotPage(h, j)))
  {
    var f, ram' := s.tabs[g], Put(ram, s.tabs[g], i, e);
    assert owner[f] == L1(256, 0, g);
    assert forall o, j: Idx :: o in {root, s.mid, s.low} ==> Get(ram', o, j) == Get(ram, o, j);
    assert Linked(ram', root, s);
    forall p | Elsewhere(owner, hole, p)
      ensures Walk(ram', root, p) == Walk(ram, root, p)
    {
      WriteLocal(ram, root, owner, hole, f, i, e, p);
    }
    forall h: Idx, j: Idx | h < 4 && (h, j) != (g, i)
      ensures Walk(ram', root, SlotPage(h, j)) == Walk(ram, root, SlotPage(h, j))
    {
      WindowClear(owner, hole, s, SlotPage(h, j));
      WriteLocal(ram, root, owner, hole, f, i, e, SlotPage(h, j));
    }
  }

  lemma TabsDistinct(owner: map<nat, Pos>, hole: set<nat>, s: Spine, g: Idx, h: Idx)
    requires Hangs(owner, hole, s) && g < 4 && h < 4 && g != h
    ensures s.tabs[g] != s.tabs[h]
  {
    assert owner[s.tabs[g]] == L1(256, 0, g) && owner[s.tabs[h]] == L1(256, 0, h);
  }

  lemma RowStore(ram: Ram, owner: map<nat, Pos>, hole: set<nat>, s: Spine, age: Ages, g: Idx, i: Idx, e: Entry)
    requires Hangs(owner, hole, s) && g < 4 && s.tabs[g] in ram
    ensures var rows := RowsOf(ram, s.tabs, age);
            RowsOf(Put(ram, s.tabs[g], i, e), s.tabs, age) == SetSlot(rows, g, i, SlotOf(e, age[g][i]))
  {
    var rows, rows' := RowsOf(ram, s.tabs, age), RowsOf(Put(ram, s.tabs[g], i, e), s.tabs, age);
    assert rows'[g] == rows[g][i := SlotOf(e, age[g][i])];
    forall h: Idx | h < 4 && h != g
      ensures rows'[h] == rows[h]
    {
      TabsDistinct(owner, hole, s, g, h);
    }
  }

  lemma KeptStore(ram: Ram, owner: map<nat, Pos>, hole: set<nat>, s: Spine, age: Ages, g: Idx, i: Idx, e: Entry)
    requires Hangs(owner, hole, s) && WellKept(ram, s.tabs, age) && g < 4 && s.tabs[g] in ram
    requires !(g == 0 && i < 4)
    requires if e.flags.present then e.flags == WINDOW_FLAGS else age[g][i] == 0
    ensures WellKept(Put(ram, s.tabs[g], i, e), s.tabs, age)
  {
    var ram' := Put(ram, s.tabs[g], i, e);
    forall h: Idx, j: Idx | h < 4
      ensures Get(ram', s.tabs[h], j) == if h == g && j == i then e else Get(ram, s.tabs[h], j)
    {
      if h != g {
        TabsDistinct(owner, hole, s, g, h);
      }
    }
  }

  /** After the store, the buffer still agrees with the tables at every live slot but the one written. */
  lemma StoreAgrees(ram0: Ram, t0: Tlb, ram1: Ram, t1: Tlb, root: nat, owner: map<nat, Pos>, hole: set<nat>,
                    rows: Rows, g: Idx, i: Idx)
    requires LiveAgreeBut(rows, t0, ram0, root, g, i) && AllFilled(t0, t1, ram1, root)
    requires forall p :: Elsewhere(owner, hole, p) ==> Walk(ram1, root, p) == Walk(ram0, root, p)
    requires forall h: Idx, j: Idx :: h < 4 && (h, j) != (g, i) ==>
               Walk(ram1, root, SlotPage(h, j)) == Walk(ram0, root, SlotPage(h, j))
    ensures ElsewhereKept(ram0, t0, ram1, t1, root, owner, hole)
    ensures LiveAgreeBut(rows, t1, ram1, root, g, i)
  {
    forall p: Page
      ensures Filled(t0, t1, ram1, root, p)
    {
    }
    forall h: Idx, j: Idx | h < 4 && (h, j) != (g, i) && rows[h][j].Live?
      ensures Agrees(t1, ram1, root, SlotPage(h, j))
    {
      assert Agrees(t0, ram0, root, SlotPage(h, j));
      assert Filled(t0, t1, ram1, root, SlotPage(h, j));
    }
  }

  /** All of it together: the tables stay in order, one slot is set, and nothing else shows. */
  lemma SlotWritten(ram: Ram, t0: Tlb, t1: Tlb, root: nat, owner: map<nat, Pos>, hole: set<nat>, s: Spine, age: Ages,
                    g: Idx, i: Idx, e: Entry)
    requires Tree(ram, root, owner, hole) && Hangs(owner, hole, s) && Linked(ram, root, s) && WellKept(ram, s.tabs, age)
    requires g < 4 && !(g == 0 && i < 4) && (if e.flags.present then e.flags == WINDOW_FLAGS else age[g][i] == 0)
    requires s.tabs[g] in ram && AllFilled(t0, t1, Put(ram, s.tabs[g], i, e), root)
    requires LiveAgreeBut(RowsOf(ram, s.tabs, age), t0, ram, root, g, i)
    ensures var ram' := Put(ram, s.tabs[g], i, e);
            var rows' := SetSlot(RowsOf(ram, s.tabs, age), g, i, SlotOf(e, age[g][i]));
            && Tree(ram', root, owner, hole) && Linked(ram', root, s) && WellKept(ram', s.tabs, age)
            && RowsOf(ram', s.tabs, age) == rows' && LiveAgreeBut(rows', t1, ram', root, g, i)
            && Quiet(ram, t0, ram', t1, root, owner, hole, s.tabs)
  {
    SlotStore(ram, root, owner, hole, s, g, i, e);
    RowStore(ram, owner, hole, s, age, g, i, e);
    KeptStore(ram, owner, hole, s, age, g, i, e);
    StoreAgrees(ram, t0, Put(ram, s.tabs[g], i, e), t1, root, owner, hole, RowsOf(ram, s.tabs, age), g, i);
  }

  lemma FlushAgrees(t0: Tlb, t1: Tlb, ram: Ram, root: nat, owner: map<nat, Pos>, hole: set<nat>,
                    rows: Rows, g: Idx, i: Idx)
    requires g < 4 && LiveAgreeBut(rows, t0, ram, root, g, i) && AllFilled(t0, t1, ram, root)
    requires Agrees(t1, ram, root, SlotPage(g, i))
    ensures LiveAgree(rows, t1, ram, root)
    ensures ElsewhereKept(ram, t0, ram, t1, root, owner, hole)
  {
    StoreAgrees(ram, t0, ram, t1, root, owner, hole, rows, g, i);
  }

  lemma AgeStore(ram: Ram, tabs: Tabs, age: Ages, g: Idx, i: Idx, a: nat)
    requires g < 4
    ensures var rows := RowsOf(ram, tabs, age);
            RowsOf(ram, tabs, SetAge(age, g, i, a)) == SetSlot(rows, g, i, SlotOf(Get(ram, tabs[g], i), a))
  {
    var rows, rows' := RowsOf(ram, tabs, age), RowsOf(ram, tabs, SetAge(age, g, i, a));
    assert rows'[g] == rows[g][i := SlotOf(Get(ram, tabs[g], i), a)];
    assert forall h :: 0 <= h < 4 && h != g ==> rows'[h] == rows[h];
  }

  lemma SameRows(ram: Ram, ram': Ram, tabs: Tabs, age: Ages)
    requires forall h: Idx, j: Idx :: h < 4 ==> Get(ram', tabs[h], j) == Get(ram, tabs[h], j)
    ensures RowsOf(ram', tabs, age) == RowsOf(ram, tabs, age)
    ensures WellKept(ram, tabs, age) ==> WellKept(ram', tabs, age)
  {
    forall h: Idx | h < 4
      ensures RowOf(ram', tabs[h], age[h]) == RowOf(ram, tabs[h], age[h])
    {
    }
  }
}
