/**
 Start-up of the window cache, while physical memory is still mapped one to one: the tables above the window are
 created, the four lowest-level tables are taken from the frame allocator one after the other, and the cache's
 first four requests map them into the window itself.
 */
module Boot {
  import opened Wrappers
  import opened Paging
  import opened Hardware
  import opened VCacheSpec
  import opened Window
  import opened Tables
  import opened VCache
  import opened Mapper
  import Phys
  import PhysInit

  type PhysicalFrameAllocator = Phys.PhysicalFrameAllocator

  /** From the first free page on, the next n pages of that segment are free. */
  ghost predicate RunOfFree(v: Phys.View, s: Phys.Spot, n: nat) {
    && Phys.IsFirstFit(v, s)
    && s.page + n <= |v[s.seg]|
    && forall k :: s.page <= k < s.page + n ==> !v[s.seg][k]
  }

  function After(s: Phys.Spot, n: nat): Phys.Spot {
    Phys.Spot(s.seg, s.page + n)
  }

  /** First fit hands out the pages of such a run in order. */
  lemma FirstFitAdvances(v: Phys.View, s: Phys.Spot, n: nat)
    requires RunOfFree(v, s, n) && n > 1
    ensures RunOfFree(Phys.Write(v, s, true), After(s, 1), n - 1)
  {
    var w := Phys.Write(v, s, true);
    assert forall i :: 0 <= i < s.seg ==> w[i] == v[i];
  }

  /** So that the frames of such a run follow one another. */
  lemma {:induction false} RunHandedOut(es: seq<Phys.Extent>, v: Phys.View, s: Phys.Spot, n: nat)
    requires RunOfFree(v, s, n) && |v| == |es| && n > 0
    ensures Phys.HandedOut(es, v, n) == seq(n, i => Phys.FrameAt(es, s) + i)
    decreases n
  {
    Phys.SpotIsRoom(v, s);
    var (w, g) := (Phys.Write(v, s, true), Phys.FrameAt(es, s));
    Phys.HandsFirst(es, v, g, w, n - 1);
    if n > 1 {
      FirstFitAdvances(v, s, n);
      RunHandedOut(es, w, After(s, 1), n - 1);
    }
    assert seq(n, i => g + i) == [g] + seq(n - 1, i => g + 1 + i);
  }

  /** Memory and the positions of its tables while start-up runs. */
  datatype Machine = Machine(ram: Ram, owner: map<nat, Pos>)

  /** What the allocator hands out is memory and no table; `all` are the free frames and the tables together. */
  ghost predicate Supplied(pmm: PhysicalFrameAllocator, m: Machine, root: nat, all: set<nat>)
    reads pmm, pmm.Bitmaps()
  {
    pmm.Valid() && Stock(pmm.Free(), m, root, all)
  }

  ghost predicate Stock(free: set<nat>, m: Machine, root: nat, all: set<nat>) {
    && Tree(m.ram, root, m.owner, {}) && (forall f :: f in free ==> f in m.ram && f !in m.owner)
    && m.owner.Keys + free == all
  }

  /** Memory with a cleared frame linked as a table at entry i of t. */
  ghost predicate Links(m: Machine, root: nat, t: nat, i: Idx, m': Machine, g: nat) {
    && CanGrow(m.ram, root, m.owner, t, i, g, TableFlags(false)) && m'.ram == Grown(m.ram, t, i, g, TableFlags(false))
    && m'.owner == m.owner[g := Child(m.owner[t], i)] && At(m'.ram, root, m'.owner[g]) == Some(g)
  }

  lemma LinksFree(
      free: set<nat>, free': set<nat>, m: Machine, root: nat, all: set<nat>, t: nat, i: Idx, m': Machine, g: nat)
    requires Stock(free, m, root, all) && g in free && free' == free - {g}
    requires t in m.owner && !m.owner[t].L1? && At(m.ram, root, m.owner[t]) == Some(t) && Get(m.ram, t, i) == UNUSED
    requires m' == Machine(Grown(m.ram, t, i, g, TableFlags(false)), m.owner[g := Child(m.owner[t], i)])
    ensures Links(m, root, t, i, m', g) && Stock(free', m', root, all)
  {
    GrownTree(m.ram, root, m.owner, t, i, g, TableFlags(false));
    GrownAt(m.ram, root, m.owner, t, i, g, TableFlags(false), Root);
  }

  /** `alloc_substruct` with the frame cleared in place: the first free frame, cleared, is linked at entry i of t. */
  method AllocSubstruct(pmm: PhysicalFrameAllocator, m: Machine, root: nat, ghost all: set<nat>, t: nat, i: Idx)
    returns (r: Option<(Machine, nat)>)
    requires Supplied(pmm, m, root, all)
    requires t in m.owner && !m.owner[t].L1? && At(m.ram, root, m.owner[t]) == Some(t) && Get(m.ram, t, i) == UNUSED
    modifies pmm.Bitmaps()
    ensures pmm.Valid() && pmm.Ranges() == old(pmm.Ranges()) && pmm.segments == old(pmm.segments)
    ensures r.None? <==> Phys.Full(old(pmm.UsedBits()))
    ensures r.None? ==> Exhausted(pmm) && pmm.UsedBits() == old(pmm.UsedBits())
    ensures r.Some? ==> Supplied(pmm, r.value.0, root, all) && Links(m, root, t, i, r.value.0, r.value.1)
    ensures r.Some? ==> Phys.Hands(pmm.Ranges(), old(pmm.UsedBits()), r.value.1, pmm.UsedBits())
  {
    ghost var v := pmm.UsedBits();
    var frame, spot := pmm.Palloc();
    if frame.None? {
      return None;
    }
    Phys.SpotIsRoom(v, spot);
    var g := frame.value;
    var m' := Machine(Grown(m.ram, t, i, g, TableFlags(false)), m.owner[g := Child(m.owner[t], i)]);
    LinksFree(old(pmm.Free()), pmm.Free(), m, root, all, t, i, m', g);
    r := Some((m', g));
  }

  /** What the allocator has handed out since its view was v. */
  ghost predicate Since(pmm: PhysicalFrameAllocator, v: Phys.View, tr: Phys.Trail)
    reads pmm, pmm.Bitmaps()
  {
    Phys.Follows(pmm.Ranges(), v, tr, pmm.UsedBits())
  }

  /** The table below entry i of t, created if the entry is unused. */
  method EnsureTable(
      pmm: PhysicalFrameAllocator, m: Machine, root: nat, ghost all: set<nat>, t: nat, i: Idx, ghost v: Phys.View,
      ghost tr: Phys.Trail)
    returns (r: Option<(Machine, nat)>, ghost tr': Phys.Trail)
    requires Supplied(pmm, m, root, all) && Since(pmm, v, tr)
    requires t in m.owner && !m.owner[t].L1? && At(m.ram, root, m.owner[t]) == Some(t) && Followable(Get(m.ram, t, i))
    requires !Lower(Child(m.owner[t], i))
    modifies pmm.Bitmaps()
    ensures pmm.Ranges() == old(pmm.Ranges()) && pmm.segments == old(pmm.segments)
    ensures r.None? ==> Exhausted(pmm) && Get(m.ram, t, i) == UNUSED && tr' == tr
    ensures r.Some? ==> Supplied(pmm, r.value.0, root, all) && Below(m, root, t, i, r.value.0, r.value.1)
    ensures Since(pmm, v, tr')
    ensures r.Some? ==> |tr'.frames| == if Get(m.ram, t, i) == UNUSED then |tr.frames| + 1 else |tr.frames|
  {
    var e := Get(m.ram, t, i);
    tr' := tr;
    if e == UNUSED {
      r := AllocSubstruct(pmm, m, root, all, t, i);
      if r.Some? {
        GrownBelow(m, r.value.0, root, t, i, r.value.1);
        Phys.FollowsNext(pmm.Ranges(), v, tr, old(pmm.UsedBits()), r.value.1, pmm.UsedBits());
        tr' := Phys.Trail(tr.views + [pmm.UsedBits()], tr.frames + [r.value.1]);
      }
    } else {
      r := Some((m, e.frame));
      NextTable(m.ram, root, m.owner, t, i);
    }
  }

  lemma GrownBelow(m: Machine, m': Machine, root: nat, t: nat, i: Idx, g: nat)
    requires Links(m, root, t, i, m', g) && Get(m.ram, t, i) == UNUSED && !Lower(Child(m.owner[t], i))
    ensures Below(m, root, t, i, m', g)
  {
    GrownWalks(m, m', root, t, i, g);
    GrownAdds(m.ram, root, m.owner, t, i, g, TableFlags(false));
  }

  /** Entry i of t leads to the table g; it did before, or g is new and empty.  Nothing else changed. */
  ghost predicate Below(m: Machine, root: nat, t: nat, i: Idx, m': Machine, g: nat) {
    && t in m.owner && !m.owner[t].L1?
    && Link(Get(m'.ram, t, i)) && Get(m'.ram, t, i).frame == g
    && g in m'.owner && m'.owner[g] == Child(m.owner[t], i) && At(m'.ram, root, m'.owner[g]) == Some(g)
    && (forall f :: f in m.owner ==> f in m'.owner && m'.owner[f] == m.owner[f])
    && (forall f, j: Idx :: f in m.owner && (f, j) != (t, i) ==> Get(m'.ram, f, j) == Get(m.ram, f, j))
    && Extends(m, m', root) && Adds(m.ram, m'.ram, root, {Child(m.owner[t], i)})
    && if Get(m.ram, t, i) == UNUSED
       then Get(m'.ram, t, i).flags.writable && forall j: Idx :: Get(m'.ram, g, j) == UNUSED
       else m' == m
  }

  lemma NextTable(ram: Ram, root: nat, owner: map<nat, Pos>, t: nat, i: Idx)
    requires Tree(ram, root, owner, {}) && t in owner && !owner[t].L1? && At(ram, root, owner[t]) == Some(t)
    requires Link(Get(ram, t, i))
    ensures At(ram, root, Child(owner[t], i)) == Some(Get(ram, t, i).frame)
  {
  }

  /** After k of the four lowest-level tables: they are cleared, and hang where they should. */
  ghost predicate Built(m: Machine, root: nat, mid: nat, low: nat, tabs: seq<nat>) {
    && Link(Get(m.ram, root, 256)) && Get(m.ram, root, 256).frame == mid
    && Link(Get(m.ram, mid, 0)) && Get(m.ram, mid, 0).frame == low
    && mid in m.owner && m.owner[mid] == L3(256) && low in m.owner && m.owner[low] == L2(256, 0)
    && At(m.ram, root, L2(256, 0)) == Some(low)
    && |tabs| <= 4
    && (forall k: Idx :: k < |tabs| ==>
          && Get(m.ram, low, k) == Entry(tabs[k], TableFlags(false))
          && tabs[k] in m.ram && m.ram[tabs[k]] == Zeroed() && tabs[k] in m.owner && m.owner[tabs[k]] == L1(256, 0, k))
  }

  /** The frames follow one another. */
  predicate Consecutive(tabs: seq<nat>) {
    forall k :: 0 <= k < |tabs| ==> tabs[k] == tabs[0] + k
  }

  /** One of the four entries the window needs is in use already. */
  ghost predicate Clash(ram: Ram, root: nat) {
    && Link(Get(ram, root, 256)) && Link(Get(ram, Get(ram, root, 256).frame, 0))
    && exists k: Idx :: k < 4 && Get(ram, Get(ram, Get(ram, root, 256).frame, 0).frame, k) != UNUSED
  }

  /** No translation changed, no way became worse, no table is lost, and other frames hold what they held. */
  ghost predicate Extends(m: Machine, m': Machine, root: nat) {
    && (forall p :: Walk(m'.ram, root, p) == Walk(m.ram, root, p))
    && (forall p :: PathOk(m.ram, root, p) ==> PathOk(m'.ram, root, p))
    && m'.ram.Keys == m.ram.Keys && m.owner.Keys <= m'.owner.Keys && Untouched(m.ram, m'.ram, m'.owner)
    && LinksFrom(m.ram, m.owner, m'.ram, m'.owner)
  }

  /** The links the window finds on its way let stores through. */
  predicate WayOpen(ram: Ram, root: nat) {
    var e := Get(ram, root, 256);
    e == UNUSED || (e.flags.writable && (Get(ram, e.frame, 0) == UNUSED || Get(ram, e.frame, 0).flags.writable))
  }

  predicate UpperOpen(ram: Ram, root: nat, mid: nat) {
    Get(ram, root, 256).flags.writable && Get(ram, mid, 0).flags.writable
  }

  /** Where the window's tables hang: the two above the last level, and the first k of the last. */
  function UpperSpots(): set<Pos> {
    {L3(256)} + {L2(256, 0)}
  }

  function LowSpots(k: nat): set<Pos>
    requires k <= 4
  {
    set j: Idx | j < k :: L1(256, 0, j)
  }

  function WindowSpots(): set<Pos> {
    UpperSpots() + LowSpots(4)
  }

  /** How many of the two tables above the last level are missing. */
  function Missing(ram: Ram, root: nat): nat {
    if Get(ram, root, 256) == UNUSED then 2
    else if Get(ram, Get(ram, root, 256).frame, 0) == UNUSED then 1 else 0
  }

  /** `InUse` is the panic of a table entry found in use, `NoFrames` that of an allocator with no frame left. */
  datatype Building = Done(m: Machine, spine: Spine) | InUse | NoFrames

  /** The tables above the window.  The last four come from the frames the allocator hands out after those for the upper
      two, as far as these are missing. */
  method BuildTables(pmm: PhysicalFrameAllocator, m0: Machine, root: nat, ghost all: set<nat>)
    returns (r: Building, ghost tr: Phys.Trail)
    requires Supplied(pmm, m0, root, all) && Followable(Get(m0.ram, root, 256))
    requires Link(Get(m0.ram, root, 256)) ==> Followable(Get(m0.ram, Get(m0.ram, root, 256).frame, 0))
    modifies pmm.Bitmaps()
    ensures pmm.Ranges() == old(pmm.Ranges()) && pmm.segments == old(pmm.segments)
    ensures pmm.Valid() && Since(pmm, old(pmm.UsedBits()), tr) && (r.InUse? ==> Clash(m0.ram, root))
    ensures r.NoFrames? ==> Exhausted(pmm) && |tr.frames| < Missing(m0.ram, root) + 4
    ensures r.Done? ==> !Clash(m0.ram, root) && Supplied(pmm, r.m, root, all) && WindowBuilt(m0, r.m, root, r.spine)
    ensures r.Done? ==> |tr.frames| == Missing(m0.ram, root) + 4 && r.spine.tabs == tr.frames[Missing(m0.ram, root)..]
  {
    var upper, tr0 := BuildUpper(pmm, m0, root, all);
    if upper.None? {
      return NoFrames, tr0;
    }
    var (m, mid, low) := upper.value;
    r, tr := BuildLower(pmm, m, root, all, mid, low, old(pmm.UsedBits()), tr0);
    if r.Done? {
      BothBuilt(m0, m, r.m, root, r.spine);
    }
  }

  /** All tables above the window are there, and nothing else has changed. */
  ghost predicate WindowBuilt(m0: Machine, m: Machine, root: nat, s: Spine) {
    && Built(m, root, s.mid, s.low, s.tabs) && Extends(m0, m, root) && Adds(m0.ram, m.ram, root, WindowSpots())
    && UpperOpen(m.ram, root, s.mid) == s.open == WayOpen(m0.ram, root)
  }

  lemma BothBuilt(m0: Machine, m: Machine, m': Machine, root: nat, s: Spine)
    requires Extends(m0, m, root) && Adds(m0.ram, m.ram, root, UpperSpots())
    requires TabsBuilt(m, m', root, s.mid, s.low, s.tabs)
    requires s.open == UpperOpen(m.ram, root, s.mid) == WayOpen(m0.ram, root)
    ensures WindowBuilt(m0, m', root, s)
  {
    AddsTransitive(m0.ram, m.ram, m'.ram, root, UpperSpots(), LowSpots(4));
    ExtendsTransitive(m0, m, m', root);
  }

  lemma ExtendsTransitive(m0: Machine, m: Machine, m': Machine, root: nat)
    requires Extends(m0, m, root) && Extends(m, m', root)
    ensures Extends(m0, m', root)
  {
    LinksFromTransitive(m0.ram, m0.owner, m.ram, m.owner, m'.ram, m'.owner);
  }

  /** No frame is left. */
  ghost predicate Exhausted(pmm: PhysicalFrameAllocator)
    reads pmm, pmm.Bitmaps()
  {
    pmm.Valid() && pmm.Free() == {} && Phys.Full(pmm.UsedBits())
  }

  /** The two tables above the last level. */
  method BuildUpper(pmm: PhysicalFrameAllocator, m0: Machine, root: nat, ghost all: set<nat>)
    returns (r: Option<(Machine, nat, nat)>, ghost tr: Phys.Trail)
    requires Supplied(pmm, m0, root, all) && Followable(Get(m0.ram, root, 256))
    requires Link(Get(m0.ram, root, 256)) ==> Followable(Get(m0.ram, Get(m0.ram, root, 256).frame, 0))
    modifies pmm.Bitmaps()
    ensures pmm.Ranges() == old(pmm.Ranges()) && pmm.segments == old(pmm.segments)
    ensures r.None? ==> Exhausted(pmm) && |tr.frames| < Missing(m0.ram, root)
    ensures r.Some? ==> var (m, mid, low) := r.value;
              && Supplied(pmm, m, root, all) && Built(m, root, mid, low, []) && Extends(m0, m, root)
              && Adds(m0.ram, m.ram, root, UpperSpots())
              && (Clash(m0.ram, root) <==> exists k: Idx :: k < 4 && Get(m.ram, low, k) != UNUSED)
              && UpperOpen(m.ram, root, mid) == WayOpen(m0.ram, root)
    ensures Since(pmm, old(pmm.UsedBits()), tr) && (r.Some? ==> |tr.frames| == Missing(m0.ram, root))
  {
    ghost var v := pmm.UsedBits();
    var first, second;
    first, tr := EnsureTable(pmm, m0, root, all, root, 256, v, Phys.Trail([v], []));
    if first.None? {
      return None, tr;
    }
    var (m1, mid) := first.value;
    second, tr := EnsureTable(pmm, m1, root, all, mid, 0, v, tr);
    if second.None? {
      return None, tr;
    }
    UpperBuilt(m0, m1, second.value.0, root, mid, second.value.1);
    r := Some((second.value.0, mid, second.value.1));
  }

  lemma UpperBuilt(m0: Machine, m1: Machine, m: Machine, root: nat, mid: nat, low: nat)
    requires Tree(m0.ram, root, m0.owner, {}) && Below(m0, root, root, 256, m1, mid) && Below(m1, root, mid, 0, m, low)
    ensures Built(m, root, mid, low, []) && Extends(m0, m, root) && Adds(m0.ram, m.ram, root, UpperSpots())
    ensures Clash(m0.ram, root) <==> exists k: Idx :: k < 4 && Get(m.ram, low, k) != UNUSED
    ensures UpperOpen(m.ram, root, mid) == WayOpen(m0.ram, root)
  {
    ExtendsTransitive(m0, m1, m, root);
  }

  /** The four last-level tables. */
  method BuildLower(
      pmm: PhysicalFrameAllocator, m0: Machine, root: nat, ghost all: set<nat>, mid: nat, low: nat, ghost v: Phys.View,
      ghost tr0: Phys.Trail)
    returns (r: Building, ghost tr: Phys.Trail)
    requires Supplied(pmm, m0, root, all) && Built(m0, root, mid, low, []) && Since(pmm, v, tr0)
    modifies pmm.Bitmaps()
    ensures pmm.Ranges() == old(pmm.Ranges()) && pmm.segments == old(pmm.segments)
    ensures r.InUse? ==> exists k: Idx :: k < 4 && Get(m0.ram, low, k) != UNUSED
    ensures pmm.Valid() && Since(pmm, v, tr) && (r.NoFrames? ==> Exhausted(pmm) && |tr.frames| < |tr0.frames| + 4)
    ensures r.Done? ==> Supplied(pmm, r.m, root, all) && TabsBuilt(m0, r.m, root, mid, low, r.spine.tabs)
    ensures r.Done? ==> r.spine.mid == mid && r.spine.low == low && r.spine.open == UpperOpen(m0.ram, root, mid)
    ensures r.Done? ==> tr.frames == tr0.frames + r.spine.tabs
  {
    var m, tabs: seq<nat> := m0, [];
    tr := tr0;
    for i := 0 to 4
      invariant pmm.Ranges() == old(pmm.Ranges()) && pmm.segments == old(pmm.segments)
      invariant |tabs| == i && Supplied(pmm, m, root, all) && TabsBuilt(m0, m, root, mid, low, tabs)
      invariant Since(pmm, v, tr) && tr.frames == tr0.frames + tabs
    {
      if Get(m.ram, low, i) != UNUSED {
        return InUse, tr;
      }
      var added;
      added, tr := AddTab(pmm, m0, m, root, all, mid, low, tabs, v, tr);
      if added.None? {
        return NoFrames, tr;
      }
      OneMore(tr0.frames, tabs, added.value.1);
      m, tabs := added.value.0, tabs + [added.value.1];
    }
    r := Done(m, Spine(mid, low, tabs, UpperOpen(m.ram, root, mid)));
  }

  lemma OneMore(a: seq<nat>, b: seq<nat>, g: nat)
    ensures (a + b) + [g] == a + (b + [g])
  {
  }

  method AddTab(
      pmm: PhysicalFrameAllocator, ghost m0: Machine, m: Machine, root: nat, ghost all: set<nat>, ghost mid: nat,
      low: nat, tabs: seq<nat>, ghost v: Phys.View, ghost tr: Phys.Trail)
    returns (r: Option<(Machine, nat)>, ghost tr': Phys.Trail)
    requires Supplied(pmm, m, root, all) && Since(pmm, v, tr) && TabsBuilt(m0, m, root, mid, low, tabs)
    requires |tabs| < 4 && Get(m.ram, low, |tabs|) == UNUSED
    modifies pmm.Bitmaps()
    ensures pmm.Ranges() == old(pmm.Ranges()) && pmm.segments == old(pmm.segments) && Since(pmm, v, tr')
    ensures r.None? ==> Exhausted(pmm) && tr' == tr
    ensures r.Some? ==>
              Supplied(pmm, r.value.0, root, all) && TabsBuilt(m0, r.value.0, root, mid, low, tabs + [r.value.1])
    ensures r.Some? ==> tr'.frames == tr.frames + [r.value.1]
  {
    ghost var w := pmm.UsedBits();
    tr' := tr;
    r := AllocSubstruct(pmm, m, root, all, low, |tabs|);
    if r.Some? {
      TabAdded(m0, m, r.value.0, root, mid, low, tabs, r.value.1);
      Phys.FollowsNext(pmm.Ranges(), v, tr, w, r.value.1, pmm.UsedBits());
      tr' := Phys.Trail(tr.views + [pmm.UsedBits()], tr.frames + [r.value.1]);
    }
  }

  /** Tables were added to entries that were unused, and nothing else changed. */
  ghost predicate TabsBuilt(m0: Machine, m: Machine, root: nat, mid: nat, low: nat, tabs: seq<nat>) {
    && Built(m, root, mid, low, tabs) && Extends(m0, m, root) && Adds(m0.ram, m.ram, root, LowSpots(|tabs|))
    && (forall k: Idx :: k >= |tabs| ==> Get(m.ram, low, k) == Get(m0.ram, low, k))
    && (forall k: Idx :: k < |tabs| ==> Get(m0.ram, low, k) == UNUSED)
    && UpperOpen(m.ram, root, mid) == UpperOpen(m0.ram, root, mid)
  }

  lemma TabAdded(m0: Machine, m: Machine, m': Machine, root: nat, mid: nat, low: nat, tabs: seq<nat>, g: nat)
    requires TabsBuilt(m0, m, root, mid, low, tabs) && |tabs| < 4 && Links(m, root, low, |tabs|, m', g)
    requires Get(m.ram, low, |tabs|) == UNUSED
    ensures TabsBuilt(m0, m', root, mid, low, tabs + [g])
  {
    GrownAt(m.ram, root, m.owner, low, |tabs|, g, TableFlags(false), L2(256, 0));
    GrownWalks(m, m', root, low, |tabs|, g);
    GrownAdds(m.ram, root, m.owner, low, |tabs|, g, TableFlags(false));
    AddsTransitive(m0.ram, m.ram, m'.ram, root, LowSpots(|tabs|), {L1(256, 0, |tabs|)});
    ExtendsTransitive(m0, m, m', root);
    assert LowSpots(|tabs + [g]|) == LowSpots(|tabs|) + {L1(256, 0, |tabs|)};
    assert forall f :: f in m.owner && f != low ==> m'.ram[f] == m.ram[f];
    assert forall k: Idx ::
      Get(m'.ram, low, k) == if k == |tabs| then Entry(g, TableFlags(false)) else Get(m.ram, low, k);
  }

  lemma GrownWalks(m0: Machine, m: Machine, root: nat, t: nat, i: Idx, g: nat)
    requires CanGrow(m0.ram, root, m0.owner, t, i, g, TableFlags(false))
    requires m.ram == Grown(m0.ram, t, i, g, TableFlags(false))
    requires m.owner == m0.owner[g := Child(m0.owner[t], i)] && !Lower(Child(m0.owner[t], i))
    ensures Extends(m0, m, root)
  {
    GrownLinks(m0.ram, root, m0.owner, t, i, g, TableFlags(false));
    forall p
      ensures Walk(m.ram, root, p) == Walk(m0.ram, root, p)
      ensures PathOk(m0.ram, root, p) ==> PathOk(m.ram, root, p)
    {
      GrownWalk(m0.ram, root, m0.owner, t, i, g, TableFlags(false), p);
    }
  }

  // ---------------------------------------------------------------- the first four requests

  function FreshRow(k: nat, first: nat): Row {
    seq(512, i requires 0 <= i => if i < k then Live(first + i) else Free)
  }

  /** The cache after k requests for the frames from `first` on. */
  function FreshRows(k: nat, first: nat): Rows {
    [FreshRow(k, first), FreshRow(0, 0), FreshRow(0, 0), FreshRow(0, 0)]
  }

  /** A fresh cache grants the slots of row 0 in order, so its one-table view is enough. */
  lemma FreshGrants(k: nat, first: nat, g: nat, i: nat, rows': Rows)
    requires k < 512 && Grant(FreshRows(k, first), first + k, g, i, rows')
    ensures (g, i) == (0, k) && rows' == FreshRows(k + 1, first)
  {
    var rows := FreshRows(k, first);
    assert rows[0][k].Free?;
    assert Has(rows[0], FreeKind);
    assert SetSlot(rows, 0, k, Live(first + k))[0] == FreshRow(k + 1, first);
  }

  lemma {:induction false} FreshCounts(k: nat, first: nat)
    requires k <= 512
    ensures Count(FreshRow(k, first), FreeKind) == 512 - k && Count(FreshRow(k, first), LazyKind) == 0
    decreases k
  {
    if k == 0 {
      AllFreeCount(FreshRow(0, first));
    } else {
      FreshCounts(k - 1, first);
      assert FreshRow(k, first) == FreshRow(k - 1, first)[k - 1 := Live(first + (k - 1))];
      CountUpdate(FreshRow(k - 1, first), k - 1, Live(first + (k - 1)), FreeKind);
      CountUpdate(FreshRow(k - 1, first), k - 1, Live(first + (k - 1)), LazyKind);
    }
  }

  lemma {:induction false} AllFreeCount(row: seq<Slot>)
    requires forall i :: 0 <= i < |row| ==> row[i].Free?
    ensures Count(row, FreeKind) == |row| && Count(row, LazyKind) == 0
  {
    if row != [] {
      AllFreeCount(row[..|row| - 1]);
    }
  }

  function NoAges(): (a: Ages)
    ensures forall g: Idx, i: Idx :: g < 4 ==> a[g][i] == 0
  {
    seq(4, _ => seq(512, _ => 0))
  }

  /** The window's tables after k requests: the first table holds k entries, the others none. */
  ghost predicate Holding(ram: Ram, tabs: Tabs, k: nat) {
    && (forall j: Idx :: Get(ram, tabs[0], j) == if j < k then Entry(tabs[0] + j, WINDOW_FLAGS) else UNUSED)
    && (forall g: Idx, j: Idx :: 0 < g < 4 ==> Get(ram, tabs[g], j) == UNUSED)
  }

  lemma FilledRows(ram: Ram, tabs: Tabs, k: nat)
    requires Holding(ram, tabs, k)
    ensures RowsOf(ram, tabs, NoAges()) == FreshRows(k, tabs[0])
  {
    var rows := RowsOf(ram, tabs, NoAges());
    assert rows[0] == FreshRow(k, tabs[0]);
    forall g: Idx | 0 < g < 4
      ensures rows[g] == FreshRow(0, 0)
    {
    }
  }

  /** The cache before it can reach its tables: it sees the tables of `slice` through the one-to-one mapping. */
  datatype Early = Early(ram: Ram, slice: seq<nat>, freecount: Counts, lazycount: Counts, age: Ages)

  /** A slot, or the panics: the slice is too short for the row, no slot of the row is free after all.  `Reclaims`
      stands for the search through lazy slots, which starts when no row has a free one. */
  datatype Request = Slot(g: Idx, i: Idx) | OutOfBounds | NoneFree | Reclaims

  /** The first entry of a table that is not present, or 512. */
  ghost predicate FirstAbsent(ram: Ram, f: nat, i: nat) {
    && i <= 512 && (i < 512 ==> !Get(ram, f, i).flags.present)
    && forall j: Idx :: j < i ==> Get(ram, f, j).flags.present
  }

  /** A request gets the first absent entry of the first row with a free slot, or the reason why it does not. */
  ghost predicate Answers(s: Early, frame: nat, r: Request, s': Early)
    requires forall f :: f in s.slice ==> f in s.ram
  {
    var g := FirstNonZero(s.freecount);
    match r
    case Reclaims => g == 4 && s' == s
    case OutOfBounds => |s.slice| <= g < 4 && s'.ram == s.ram
    case NoneFree => g < |s.slice| && g < 4 && FirstAbsent(s.ram, s.slice[g], 512) && s'.ram == s.ram
    case Slot(h, i) =>
      && h == g < |s.slice| && g < 4 && FirstAbsent(s.ram, s.slice[g], i)
      && s' == s.(ram := Put(s.ram, s.slice[g], i, Entry(frame, WINDOW_FLAGS)),
                  freecount := s.freecount[g := s.freecount[g] - 1], age := SetAge(s.age, g, i, 0))
  }

  /** `map` as start-up calls it. */
  method EarlyMap(s: Early, frame: nat) returns (r: Request, s': Early)
    requires forall f :: f in s.slice ==> f in s.ram
    ensures Answers(s, frame, r, s')
  {
    s' := s;
    var g := FirstNonZero(s.freecount);
    if g == 4 {
      return Reclaims, s';
    }
    s' := s.(freecount := s.freecount[g := s.freecount[g] - 1]);
    if g >= |s.slice| {
      return OutOfBounds, s';
    }
    var i := 0;
    while i < 512 && Get(s.ram, s.slice[g], i).flags.present
      invariant i <= 512 && forall j: Idx :: j < i ==> Get(s.ram, s.slice[g], j).flags.present
    {
      i := i + 1;
    }
    if i == 512 {
      return NoneFree, s';
    }
    s' := s'.(ram := Put(s.ram, s.slice[g], i, Entry(frame, WINDOW_FLAGS)), age := SetAge(s.age, g, i, 0));
    r := Slot(g, i);
  }

  /** The cache's counters and the tables after k requests. */
  ghost predicate Served(e: Early, tabs: Tabs, k: nat) {
    && e.slice == [tabs[0]] && Holding(e.ram, tabs, k) && k <= 4
    && e.freecount == [512 - k, 512, 512, 512] && e.lazycount == [0, 0, 0, 0] && e.age == NoAges()
  }

  /** The four requests of start-up, each checked to return the slot after the last one; `None` is a panic, and never
      happens. */
  method MapTables(ram0: Ram, root: nat, ghost owner: map<nat, Pos>, ghost s: Spine, first: nat)
    returns (r: Option<Early>)
    requires Tree(ram0, root, owner, {}) && Hangs(owner, {}, s) && Linked(ram0, root, s) && Holding(ram0, s.tabs, 0)
    requires first == s.tabs[0]
    ensures r.Some? && Served(r.value, s.tabs, 4)
    ensures Tree(r.value.ram, root, owner, {}) && Linked(r.value.ram, root, s)
    ensures KeptOutside(ram0, r.value.ram, root, owner) && Adds(ram0, r.value.ram, root, {})
    ensures LinksFrom(ram0, owner, r.value.ram, owner)
  {
    var e := Early(ram0, [first], [512, 512, 512, 512], [0, 0, 0, 0], NoAges());
    for k := 0 to 4
      invariant Serving(ram0, e, root, owner, s, k)
    {
      var request, e' := EarlyMap(e, first + k);
      RequestServed(ram0, e, request, e', root, owner, s, k);
      if request != Slot(0, k) {
        return None;
      }
      e := e';
    }
    r := Some(e);
  }

  /** Outside the window no translation changed and no way became worse, and frames that are no tables hold what they
      held. */
  ghost predicate KeptOutside(ram: Ram, ram': Ram, root: nat, owner: map<nat, Pos>) {
    && (forall p :: !InWindow(p) ==> Walk(ram', root, p) == Walk(ram, root, p))
    && (forall p :: !InWindow(p) && PathOk(ram, root, p) ==> PathOk(ram', root, p))
    && ram'.Keys == ram.Keys && Untouched(ram, ram', owner)
  }

  lemma TabsKeptOutside(ram0: Ram, ram: Ram, ram': Ram, root: nat, owner: map<nat, Pos>, s: Spine)
    requires KeptOutside(ram0, ram, root, owner) && OnlyTabs(ram, ram', s.tabs)
    requires Tree(ram, root, owner, {}) && Hangs(owner, {}, s)
    ensures KeptOutside(ram0, ram', root, owner) && Adds(ram, ram', root, {}) && LinksFrom(ram, owner, ram', owner)
  {
    TabsLinks(ram, ram', root, owner, s);
    forall pos
      ensures At(ram', root, pos) == At(ram, root, pos)
    {
      TabsAt(ram, ram', root, owner, s, pos);
    }
    forall p | !InWindow(p)
      ensures Walk(ram', root, p) == Walk(ram, root, p) && (PathOk(ram, root, p) ==> PathOk(ram', root, p))
    {
      TabsIrrelevant(ram, ram', root, owner, s, p);
    }
    assert forall h: Idx :: h < 4 ==> s.tabs[h] in owner;
  }

  lemma RequestServed(
      ram0: Ram, e: Early, request: Request, e': Early, root: nat, owner: map<nat, Pos>, s: Spine, k: Idx)
    requires Serving(ram0, e, root, owner, s, k) && k < 4 && (forall f :: f in e.slice ==> f in e.ram)
    requires Answers(e, s.tabs[0] + k, request, e')
    ensures request == Slot(0, k) && Serving(ram0, e', root, owner, s, k + 1)
  {
    RequestGetsSlot(e.ram, s.tabs, k, request);
    ServedNext(ram0, e, e', root, owner, s, k);
  }

  /** After k requests the tables are in order, and nothing outside the window has changed. */
  ghost predicate Serving(ram0: Ram, e: Early, root: nat, owner: map<nat, Pos>, s: Spine, k: nat) {
    && Served(e, s.tabs, k) && Tree(e.ram, root, owner, {}) && Hangs(owner, {}, s) && Linked(e.ram, root, s)
    && KeptOutside(ram0, e.ram, root, owner) && Adds(ram0, e.ram, root, {}) && LinksFrom(ram0, owner, e.ram, owner)
  }

  lemma ServedNext(ram0: Ram, e: Early, e': Early, root: nat, owner: map<nat, Pos>, s: Spine, k: Idx)
    requires Serving(ram0, e, root, owner, s, k) && k < 4
    requires e' == e.(ram := Put(e.ram, s.tabs[0], k, Entry(s.tabs[0] + k, WINDOW_FLAGS)),
                      freecount := e.freecount[0 := e.freecount[0] - 1], age := SetAge(e.age, 0, k, 0))
    ensures Serving(ram0, e', root, owner, s, k + 1)
  {
    SlotStore(e.ram, root, owner, {}, s, 0, k, Entry(s.tabs[0] + k, WINDOW_FLAGS));
    StoreFills(e.ram, owner, s, k);
    AgeUnchanged(k);
    TabsKeptOutside(ram0, e.ram, e'.ram, root, owner, s);
    LinksFromTransitive(ram0, owner, e.ram, owner, e'.ram, owner);
  }

  lemma AgeUnchanged(k: Idx)
    ensures SetAge(NoAges(), 0, k, 0) == NoAges()
  {
    var row: seq<nat> := NoAges()[0];
    assert row[k := 0] == row;
  }

  lemma StoreFills(ram: Ram, owner: map<nat, Pos>, s: Spine, k: Idx)
    requires Hangs(owner, {}, s) && Holding(ram, s.tabs, k) && s.tabs[0] in ram
    ensures Holding(Put(ram, s.tabs[0], k, Entry(s.tabs[0] + k, WINDOW_FLAGS)), s.tabs, k + 1)
  {
    var e := Entry(s.tabs[0] + k, WINDOW_FLAGS);
    var ram1 := Put(ram, s.tabs[0], k, e);
    assert forall j: Idx :: Get(ram1, s.tabs[0], j) == if j == k then e else Get(ram, s.tabs[0], j);
    forall g: Idx, j: Idx | 0 < g < 4
      ensures Get(ram1, s.tabs[g], j) == Get(ram, s.tabs[g], j)
    {
      TabsDistinct(owner, {}, s, 0, g);
    }
  }

  /** The request that start-up's round k makes gets slot k of row 0: it stays within the one table of the slice, and is
      the grant the cache specifies. */
  lemma RequestGetsSlot(ram: Ram, tabs: Tabs, k: nat, r: Request)
    requires k < 4 && Holding(ram, tabs, k) && !r.Reclaims? && !r.OutOfBounds?
    requires r.NoneFree? ==> FirstAbsent(ram, tabs[0], 512)
    requires r.Slot? ==> r.g == 0 && FirstAbsent(ram, tabs[0], r.i)
    ensures r == Slot(0, k)
    ensures Grant(RowsOf(ram, tabs, NoAges()), tabs[0] + k, 0, k, FreshRows(k + 1, tabs[0]))
  {
    assert !Get(ram, tabs[0], k).flags.present;
    FilledRows(ram, tabs, k);
    var rows := FreshRows(k, tabs[0]);
    assert rows[0][k].Free? && Has(rows[0], FreeKind);
    var g, i, rows' := GrantUnlessStuck(rows, tabs[0] + k);
    FreshGrants(k, tabs[0], g, i, rows');
  }

  /** The slots 0 to 3 show the tables themselves, so that the cache that start-up leaves writes the tables the hardware
      reads, if and only if the tables are consecutive frames; its counters are true in any case. */
  lemma SelfMappedIff(e: Early, tabs: Tabs)
    requires Served(e, tabs, 4)
    ensures WellKept(e.ram, tabs, e.age) <==> Consecutive(tabs)
    ensures CountsOf(RowsOf(e.ram, tabs, e.age), e.freecount, e.lazycount)
    ensures RowsOf(e.ram, tabs, e.age) == FreshRows(4, tabs[0])
  {
    FilledRows(e.ram, tabs, 4);
    FreshCounts(4, tabs[0]);
    FreshCounts(0, 0);
    assert forall g: Idx :: g < 4 ==> Get(e.ram, tabs[0], g) == Entry(tabs[0] + g, WINDOW_FLAGS);
  }

  /** `tabs` are the frames of the window's tables, and `free` those that are left. */
  datatype Starting = Ready(vc: VCache, tabs: seq<nat>, free: set<nat>) | Panic(why: Building)

  /** The frames first fit hands out after the first u, for the window's four tables; fewer if there are fewer. */
  ghost function TabFrames(es: seq<Phys.Extent>, v: Phys.View, u: nat): seq<nat>
    requires |v| == |es|
  {
    var frames := Phys.HandedOut(es, v, u + 4);
    if |frames| < u then [] else frames[u..]
  }

  /** `init`: builds the tables, maps them into the window, and leaves a cache with four live slots.  It panics if and
      only if an entry is in use or frames run out, and the cache is valid if and only if the four frames that first fit
      hands out for the tables follow one another and the links it finds on the window's way let stores through. */
  method Init(hw: Core, pmm: PhysicalFrameAllocator, m0: Machine) returns (r: Starting)
    requires Bootable(hw, pmm, m0)
    modifies hw, pmm.Bitmaps()
    ensures pmm.segments == old(pmm.segments)
    ensures r.Panic? <==>
              || Clash(m0.ram, hw.root)
              || |TabFrames(old(pmm.Ranges()), old(pmm.UsedBits()), Missing(m0.ram, hw.root))| < 4
    ensures r.Panic? ==> (r.why.InUse? && Clash(m0.ram, hw.root)) || (r.why.NoFrames? && pmm.Free() == {})
    ensures r.Ready? ==> r.tabs == TabFrames(old(pmm.Ranges()), old(pmm.UsedBits()), Missing(m0.ram, hw.root))
    ensures r.Ready? ==> r.free == Phys.LeftAfter(old(pmm.Ranges()), old(pmm.UsedBits()), Missing(m0.ram, hw.root) + 4)
    ensures r.Ready? ==> Stocked(pmm, old(pmm.Ranges()), r.free)
    ensures r.Ready? ==> Cached(hw, r.free, m0, r.vc, r.tabs, All(m0, old(pmm.Free()))) && fresh(r.vc)
    ensures r.Ready? ==> AllFilled(old(hw.tlb), hw.tlb, hw.ram, hw.root)
  {
    ghost var all := All(m0, pmm.Free());
    var built, e, free := Plan(pmm, m0, hw.root, all);
    if !built.Done? {
      return Panic(built);
    }
    ghost var es, tlb0 := old(pmm.Ranges()), hw.tlb;
    var vc := Renew(pmm, es, free, hw, e, built.spine);
    Commit(pmm, hw, e.ram, built.m.owner);
    CacheWorks(hw, vc, e, m0, free, all, tlb0);
    r := Ready(vc, built.spine.tabs, free);
  }

  /** The allocator with these frames left. */
  ghost predicate Stocked(pmm: PhysicalFrameAllocator, es: seq<Phys.Extent>, free: set<nat>)
    reads pmm, pmm.Bitmaps()
  {
    pmm.Valid() && pmm.Ranges() == es && pmm.Free() == free
  }

  /** The tables with the first four requests made, and which frames they are. */
  method Plan(pmm: PhysicalFrameAllocator, m0: Machine, root: nat, ghost all: set<nat>)
    returns (r: Building, e: Early, free: set<nat>)
    requires Supplied(pmm, m0, root, all) && Followable(Get(m0.ram, root, 256))
    requires Link(Get(m0.ram, root, 256)) ==> Followable(Get(m0.ram, Get(m0.ram, root, 256).frame, 0))
    modifies pmm.Bitmaps()
    ensures pmm.segments == old(pmm.segments) && Stocked(pmm, old(pmm.Ranges()), free)
    ensures !r.Done? <==>
              || Clash(m0.ram, root)
              || |TabFrames(old(pmm.Ranges()), old(pmm.UsedBits()), Missing(m0.ram, root))| < 4
    ensures (r.InUse? ==> Clash(m0.ram, root)) && (r.NoFrames? ==> free == {})
    ensures r.Done? ==> r.spine.tabs == TabFrames(old(pmm.Ranges()), old(pmm.UsedBits()), Missing(m0.ram, root))
    ensures r.Done? ==> free == Phys.LeftAfter(old(pmm.Ranges()), old(pmm.UsedBits()), Missing(m0.ram, root) + 4)
    ensures r.Done? ==> Windowed(m0, r.m.owner, e, r.spine, root, free, all)
  {
    ghost var es, v, tr := pmm.Ranges(), pmm.UsedBits(), Phys.Trail([], []);
    pmm.ViewFits();
    r, e, tr, free := Prepare(pmm, m0, root, all);
    TrailDecides(es, v, tr, pmm.UsedBits(), Missing(m0.ram, root));
  }

  /** What start-up finds: the tables form a tree apart from the free frames, no large page is on the window's way, and
      nothing has been read through the window yet. */
  ghost predicate Bootable(hw: Core, pmm: PhysicalFrameAllocator, m0: Machine)
    reads hw, pmm, pmm.Bitmaps()
  {
    && m0 == Machine(hw.ram, hw.owner) && hw.hole == {} && Supplied(pmm, m0, hw.root, All(m0, pmm.Free()))
    && Followable(Get(m0.ram, hw.root, 256))
    && (Link(Get(m0.ram, hw.root, 256)) ==> Followable(Get(m0.ram, Get(m0.ram, hw.root, 256).frame, 0)))
    && forall p :: InWindow(p) ==> p !in hw.tlb
  }

  /** Tables and free frames together. */
  ghost function All(m: Machine, free: set<nat>): set<nat> {
    m.owner.Keys + free
  }

  /** What `init` leaves. */
  ghost predicate Cached(hw: Core, free: set<nat>, m0: Machine, vc: VCache, tabs: seq<nat>, all: set<nat>)
    reads hw, vc, vc.hw
  {
    && vc.hw == hw && |tabs| == 4 && hw.hole == {}
    && Stock(free, Machine(hw.ram, hw.owner), hw.root, all)
    && KeptOutside(m0.ram, hw.ram, hw.root, hw.owner) && Adds(m0.ram, hw.ram, hw.root, WindowSpots())
    && LinksFrom(m0.ram, m0.owner, hw.ram, hw.owner)
    && (vc.Valid() <==> Consecutive(tabs) && WayOpen(m0.ram, hw.root)) && vc.Slots() == FreshRows(4, tabs[0])
  }

  lemma TrailDecides(es: seq<Phys.Extent>, v: Phys.View, tr: Phys.Trail, now: Phys.View, u: nat)
    requires Phys.Follows(es, v, tr, now) && Phys.Fits(es, v) && Phys.Disjoint(es)
    ensures Phys.Full(now) && |tr.frames| < u + 4 ==> |TabFrames(es, v, u)| < 4
    ensures |tr.frames| == u + 4 ==> TabFrames(es, v, u) == tr.frames[u..]
    ensures |tr.frames| == u + 4 ==> Phys.FreeSet(es, now) == Phys.LeftAfter(es, v, u + 4)
  {
    if |tr.frames| == u + 4 {
      Phys.FollowsFree(es, v, tr, now, u + 4);
      assert tr.frames[..u + 4] == tr.frames;
    }
    if |tr.frames| == u + 4 || (Phys.Full(now) && |tr.frames| < u + 4) {
      Phys.FollowsInOrder(es, v, tr, now, 0, u + 4);
    }
  }

  /** The allocator after the trail, with these frames left. */
  ghost predicate Drawn(pmm: PhysicalFrameAllocator, es: seq<Phys.Extent>, v: Phys.View, tr: Phys.Trail, free: set<nat>)
    reads pmm, pmm.Bitmaps()
  {
    pmm.Valid() && pmm.Ranges() == es && pmm.Free() == free && Phys.Follows(es, v, tr, pmm.UsedBits())
  }

  /** The tables, with the first four requests made. */
  method Prepare(pmm: PhysicalFrameAllocator, m0: Machine, root: nat, ghost all: set<nat>)
    returns (r: Building, e: Early, ghost tr: Phys.Trail, free: set<nat>)
    requires Supplied(pmm, m0, root, all) && Followable(Get(m0.ram, root, 256))
    requires Link(Get(m0.ram, root, 256)) ==> Followable(Get(m0.ram, Get(m0.ram, root, 256).frame, 0))
    modifies pmm.Bitmaps()
    ensures pmm.segments == old(pmm.segments) && Drawn(pmm, old(pmm.Ranges()), old(pmm.UsedBits()), tr, free)
    ensures r.InUse? ==> Clash(m0.ram, root)
    ensures r.NoFrames? ==> Exhausted(pmm) && |tr.frames| < Missing(m0.ram, root) + 4
    ensures r.Done? ==> !Clash(m0.ram, root)
    ensures r.Done? ==> |tr.frames| == Missing(m0.ram, root) + 4 && r.spine.tabs == tr.frames[Missing(m0.ram, root)..]
    ensures r.Done? ==> Windowed(m0, r.m.owner, e, r.spine, root, free, all)
  {
    e := Early(m0.ram, [], [0, 0, 0, 0], [0, 0, 0, 0], NoAges());
    r, tr := BuildTables(pmm, m0, root, all);
    free := pmm.Free();
    if r.Done? {
      e := FirstRequests(m0, r.m, r.spine, root, free, all);
    }
  }

  /** The window's tables are in place and hold the first four slots, and nothing else has changed. */
  ghost predicate Windowed(
      m0: Machine, owner: map<nat, Pos>, e: Early, s: Spine, root: nat, free: set<nat>, all: set<nat>)
  {
    && Hangs(owner, {}, s) && Linked(e.ram, root, s) && Served(e, s.tabs, 4)
    && Stock(free, Machine(e.ram, owner), root, all) && KeptOutside(m0.ram, e.ram, root, owner)
    && Adds(m0.ram, e.ram, root, WindowSpots()) && LinksFrom(m0.ram, m0.owner, e.ram, owner)
    && s.open == WayOpen(m0.ram, root)
  }

  method FirstRequests(ghost m0: Machine, m: Machine, s: Spine, root: nat, ghost free: set<nat>, ghost all: set<nat>)
    returns (e: Early)
    requires WindowBuilt(m0, m, root, s) && Stock(free, m, root, all)
    ensures Windowed(m0, m.owner, e, s, root, free, all)
  {
    BuiltWindow(m, root, s);
    var served := MapTables(m.ram, root, m.owner, s, s.tabs[0]);
    e := served.value;
    StillStocked(free, m0, m, e.ram, root, all);
    AddsTransitive(m0.ram, m.ram, e.ram, root, WindowSpots(), {});
    assert WindowSpots() + {} == WindowSpots();
    LinksFromTransitive(m0.ram, m0.owner, m.ram, m.owner, e.ram, m.owner);
  }

  lemma StillStocked(free: set<nat>, m0: Machine, m: Machine, ram: Ram, root: nat, all: set<nat>)
    requires Stock(free, m, root, all) && Extends(m0, m, root)
    requires KeptOutside(m.ram, ram, root, m.owner) && Tree(ram, root, m.owner, {})
    ensures Stock(free, Machine(ram, m.owner), root, all) && KeptOutside(m0.ram, ram, root, m.owner)
  {
  }

  /** `VCache::renew`; the allocator has no part in it. */
  method Renew(ghost pmm: PhysicalFrameAllocator, ghost es: seq<Phys.Extent>, ghost free: set<nat>, hw: Core, e: Early,
               ghost s: Spine)
    returns (vc: VCache)
    ensures fresh(vc) && vc.hw == hw && vc.spine == s
    ensures vc.freecount == e.freecount && vc.lazycount == e.lazycount && vc.age == e.age
    ensures Stocked(pmm, es, free) == old(Stocked(pmm, es, free))
  {
    vc := new VCache(hw, s, e.freecount, e.lazycount, e.age);
  }

  /** The core's memory is the one start-up has worked on; the allocator has no part in that either. */
  method Commit(ghost pmm: PhysicalFrameAllocator, hw: Core, ram: Ram, ghost owner: map<nat, Pos>)
    modifies hw
    ensures hw.ram == ram && hw.owner == owner && hw.hole == {} && AllFilled(old(hw.tlb), hw.tlb, hw.ram, hw.root)
    ensures pmm.Valid() == old(pmm.Valid()) && pmm.Ranges() == old(pmm.Ranges()) && pmm.Free() == old(pmm.Free())
  {
    hw.Replace(ram, owner);
    assert pmm.Bitmaps() == old(pmm.Bitmaps());
  }

  lemma CacheWorks(hw: Core, vc: VCache, e: Early, m0: Machine, free: set<nat>, all: set<nat>, tlb0: Tlb)
    requires vc.hw == hw && hw.ram == e.ram && hw.hole == {} && AllFilled(tlb0, hw.tlb, hw.ram, hw.root)
    requires vc.freecount == e.freecount && vc.lazycount == e.lazycount && vc.age == e.age
    requires Windowed(m0, hw.owner, e, vc.spine, hw.root, free, all) && forall p :: InWindow(p) ==> p !in tlb0
    ensures Cached(hw, free, m0, vc, vc.spine.tabs, all)
  {
    SelfMappedIff(e, vc.spine.tabs);
    forall g: Idx, i: Idx | g < 4
      ensures Agrees(hw.tlb, hw.ram, hw.root, SlotPage(g, i))
    {
      assert Filled(tlb0, hw.tlb, hw.ram, hw.root, SlotPage(g, i));
    }
  }

  lemma BuiltWindow(m: Machine, root: nat, s: Spine)
    requires Tree(m.ram, root, m.owner, {}) && Built(m, root, s.mid, s.low, s.tabs)
    requires s.open == UpperOpen(m.ram, root, s.mid)
    ensures Hangs(m.owner, {}, s) && Linked(m.ram, root, s) && Holding(m.ram, s.tabs, 0)
  {
    assert forall g: Idx :: g < 4 ==> m.ram[s.tabs[g]] == Zeroed();
  }

  /** The view that the allocator's start-up leaves: in each segment the first pages are free. */
  ghost predicate FreshView(es: seq<Phys.Extent>, v: Phys.View, cs: seq<PhysInit.Region>) {
    && |es| == |cs| == |v|
    && (forall i :: 0 <= i < |cs| ==> es[i] == cs[i].Range())
    && Marked(v, seq(|cs|, _ => 0), FreePages(cs))
  }

  function FreePages(cs: seq<PhysInit.Region>): seq<nat> {
    seq(|cs|, i requires 0 <= i < |cs| => Phys.FirstFreePages(cs[i].size / PAGE_SIZE))
  }

  /** The free pages of segment i are those from used[i] up to free[i]. */
  ghost predicate Marked(v: Phys.View, used: seq<nat>, free: seq<nat>) {
    && |used| == |free| == |v|
    && (forall i :: 0 <= i < |v| ==> free[i] <= |v[i]|)
    && (forall i, k :: 0 <= i < |v| && 0 <= k < |v[i]| ==> (!v[i][k] <==> used[i] <= k < free[i]))
  }

  lemma StartUpView(pmm: PhysicalFrameAllocator, cs: seq<PhysInit.Region>)
    requires PhysInit.AllPlaced(pmm.segments, cs)
    ensures FreshView(pmm.Ranges(), pmm.UsedBits(), cs)
  {
    var v := pmm.UsedBits();
    forall i | 0 <= i < |cs|
      ensures forall k :: 0 <= k < |v[i]| ==> (!v[i][k] <==> k < FreePages(cs)[i])
      ensures FreePages(cs)[i] <= |v[i]| && pmm.Ranges()[i] == cs[i].Range()
    {
      assert PhysInit.Placed(pmm.segments[i], cs[i]) && v[i] == pmm.segments[i].Bits();
      Phys.BitmapWordsCoverPages(cs[i].size);
    }
  }

  /** Right after the allocator's start-up, the first segment with a usable page offers all of them in a row. */
  lemma StartUpRuns(es: seq<Phys.Extent>, v: Phys.View, cs: seq<PhysInit.Region>, seg: nat, n: nat)
    requires FreshView(es, v, cs) && seg < |cs| && 0 < n <= FreePages(cs)[seg]
    requires forall i :: 0 <= i < seg ==> FreePages(cs)[i] == 0
    ensures RunOfFree(v, Phys.Spot(seg, 0), n)
  {
  }

  /** So that four tables in a row are certain if that segment has pages for all of them and for the upper ones. */
  lemma StartUpInRow(es: seq<Phys.Extent>, v: Phys.View, cs: seq<PhysInit.Region>, seg: nat, u: nat)
    requires FreshView(es, v, cs) && seg < |cs| && u + 4 <= FreePages(cs)[seg]
    requires forall i :: 0 <= i < seg ==> FreePages(cs)[i] == 0
    ensures |TabFrames(es, v, u)| == 4 && Consecutive(TabFrames(es, v, u))
  {
    StartUpRuns(es, v, cs, seg, u + 4);
    RunHandedOut(es, v, Phys.Spot(seg, 0), u + 4);
  }

  /** First fit takes the next page of the first segment that is not used up. */
  lemma MarkedNext(es: seq<Phys.Extent>, v: Phys.View, used: seq<nat>, free: seq<nat>, seg: nat) returns (w: Phys.View)
    requires Marked(v, used, free) && |es| == |v| && seg < |v| && used[seg] < free[seg]
    requires forall i :: 0 <= i < seg ==> used[i] >= free[i]
    ensures Phys.Hands(es, v, es[seg].base + used[seg], w) && Marked(w, used[seg := used[seg] + 1], free)
  {
    var s := Phys.Spot(seg, used[seg]);
    w := Phys.Write(v, s, true);
    Phys.SpotIsRoom(v, s);
  }

  /** So a segment hands out its pages in order before the next one starts. */
  lemma {:induction false} SegmentHandedOut(
      es: seq<Phys.Extent>, v0: Phys.View, tr: Phys.Trail, v: Phys.View, used: seq<nat>, free: seq<nat>, seg: nat,
      first: nat, n: nat)
    returns (tr': Phys.Trail, w: Phys.View)
    requires Phys.Follows(es, v0, tr, v) && Marked(v, used, free) && seg < |v| && used[seg] + n <= free[seg]
    requires (forall i :: 0 <= i < seg ==> used[i] >= free[i]) && first == es[seg].base + used[seg]
    ensures Phys.Follows(es, v0, tr', w) && Marked(w, used[seg := used[seg] + n], free)
    ensures tr'.frames == tr.frames + Upward(first, n)
    decreases n
  {
    if n == 0 {
      tr', w := tr, v;
      assert used[seg := used[seg]] == used && tr.frames + Upward(first, 0) == tr.frames;
    } else {
      var next := MarkedNext(es, v, used, free, seg);
      Phys.FollowsNext(es, v0, tr, v, first, next);
      var tr1 := Phys.Trail(tr.views + [next], tr.frames + [first]);
      tr', w := SegmentHandedOut(es, v0, tr1, next, used[seg := used[seg] + 1], free, seg, first + 1, n - 1);
      UpwardFirst(tr.frames, first, n);
    }
  }

  /** n frames in a row. */
  function Upward(first: nat, n: nat): seq<nat> {
    seq(n, i => first + i)
  }

  lemma UpwardFirst(frames: seq<nat>, first: nat, n: nat)
    requires n > 0
    ensures frames + [first] + Upward(first + 1, n - 1) == frames + Upward(first, n)
  {
    assert Upward(first, n) == [first] + Upward(first + 1, n - 1);
  }

  /** Of two segments, the second starts where the first is used up. */
  lemma Straddles(es: seq<Phys.Extent>, v: Phys.View, free: seq<nat>, a: nat, b: nat, k: nat)
    requires |es| == |v| == 2 && Marked(v, [0, 0], free) && k <= free[1] && a == es[0].base && b == es[1].base
    ensures Phys.HandedOut(es, v, free[0] + k) == Upward(a, free[0]) + Upward(b, k)
  {
    var tr, w := BothHandedOut(es, v, free, a, b, k);
    assert tr.frames[0..] == tr.frames;
    Phys.FollowsInOrder(es, v, tr, w, 0, free[0] + k);
  }

  lemma BothHandedOut(es: seq<Phys.Extent>, v: Phys.View, free: seq<nat>, a: nat, b: nat, k: nat)
    returns (tr: Phys.Trail, w: Phys.View)
    requires |es| == |v| == 2 && Marked(v, [0, 0], free) && k <= free[1] && a == es[0].base && b == es[1].base
    ensures Phys.Follows(es, v, tr, w) && tr.frames == Upward(a, free[0]) + Upward(b, k)
  {
    var none: seq<nat> := [];
    tr, w := SegmentHandedOut(es, v, Phys.Trail([v], none), v, [0, 0], free, 0, a, free[0]);
    assert [0, 0][0 := 0 + free[0]] == [free[0], 0] && none + Upward(a, free[0]) == Upward(a, free[0]);
    tr, w := SegmentHandedOut(es, v, tr, w, [free[0], 0], free, 1, b, k);
  }

  lemma LastFour(es: seq<Phys.Extent>, v: Phys.View, u: nat, upper: seq<nat>, tabs: seq<nat>)
    requires |v| == |es| && Phys.HandedOut(es, v, u + 4) == upper + tabs && |upper| == u
    ensures TabFrames(es, v, u) == tabs
  {
  }

  /** A memory map with two usable entries; the later one becomes the first segment, and has three pages left. */
  function ScatteredMap(): seq<PhysInit.MMapEnt> {
    [PhysInit.MMapEnt(0x10_0000, 0x10_0001), PhysInit.MMapEnt(0x80_0000, 0x4001)]
  }

  function ScatteredRegions(): seq<PhysInit.Region> {
    [PhysInit.Region(0x80_1000, 0x3000), PhysInit.Region(0x10_0000, 0x10_0000)]
  }

  function ScatteredUsable(): seq<PhysInit.Region> {
    [PhysInit.Region(0x80_0000, 0x4000), PhysInit.Region(0x10_0000, 0x10_0000)]
  }

  lemma ScatteredFits()
    ensures PhysInit.TotalBytes(ScatteredUsable()) == 88
  {
    var rs := ScatteredUsable();
    assert rs[..1] == [rs[0]] && rs[..1][..0] == [];
    assert rs[0].HeaderBytes() == 32 && rs[1].HeaderBytes() == 56;
    assert PhysInit.TotalBytes(rs[..1]) == 32;
  }

  lemma ScatteredCarved()
    ensures PhysInit.DisjointEntries(ScatteredMap()) && PhysInit.Usable(ScatteredMap()) == ScatteredUsable()
    ensures var rs := ScatteredUsable();
            && PhysInit.IsHost(rs, 0) && rs[0].size > PhysInit.CarvedBytes(rs)
            && PhysInit.Carve(rs, 0) == ScatteredRegions()
  {
    var (mmap, rs) := (ScatteredMap(), ScatteredUsable());
    assert mmap[..1] == [mmap[0]] && mmap[..1][..0] == [];
    assert PhysInit.UsableEntry(mmap[0]) == [rs[1]] && PhysInit.UsableEntry(mmap[1]) == [rs[0]];
    assert PhysInit.Usable(mmap[..1]) == [rs[1]];
    ScatteredFits();
  }

  /** There, with both upper tables missing, the window's tables come from two segments: the first from what is left of
      the later entry, the others from the earlier one.  The map is accepted, and the cache is not valid. */
  lemma ScatteredTables(es: seq<Phys.Extent>, v: Phys.View, u: nat)
    requires FreshView(es, v, ScatteredRegions()) && u == 2
    ensures TabFrames(es, v, u) == [0x803, 0x100, 0x101, 0x102] && !Consecutive(TabFrames(es, v, u))
  {
    assert FreePages(ScatteredRegions()) == [3, 192] && seq(2, _ => 0) == [0, 0];
    assert es[0] == Phys.Extent(0x801, 3) && es[1] == Phys.Extent(0x100, 256);
    Straddles(es, v, [3, 192], 0x801, 0x100, u + 1);
    assert Upward(0x801, u + 1) == [0x801, 0x802, 0x803] && Upward(0x100, u + 1) == [0x100, 0x101, 0x102];
    LastFour(es, v, u, [0x801, 0x802], [0x803, 0x100, 0x101, 0x102]);
    assert [0x803, 0x100, 0x101, 0x102][1] != [0x803, 0x100, 0x101, 0x102][0] + 1;
  }

  lemma FreshLiveCount(k: nat, first: nat)
    requires k <= 512
    ensures LiveCount(FreshRows(k, first)) == k
  {
    FreshCounts(k, first);
    FreshCounts(0, 0);
    CountTotal(FreshRow(k, first));
    CountTotal(FreshRow(0, 0));
  }

  /** `mapper::init`: the root table gets the fifth slot, and the mapper is ready for work with five live slots. */
  method InitMapper(hw: Core, vc: VCache, free: set<nat>, ghost first: nat) returns (km: KernelMapper)
    requires vc.hw == hw && vc.Valid() && vc.Slots() == FreshRows(4, first)
    requires hw.hole == {} && free !! hw.owner.Keys && free <= hw.ram.Keys
    modifies hw`ram, hw`tlb, vc`freecount, vc`lazycount, vc`age
    ensures fresh(km) && km.hw == hw && km.vcache == vc && km.free == free
    ensures km.Valid() && km.LiveSlots() == 5 && km.p4 == SlotPage(0, 4)
    ensures Grant(FreshRows(4, first), hw.root, 0, 4, vc.Slots())
    ensures vc.Undisturbed(old(hw.ram), old(hw.tlb))
  {
    var slot := RequestRoot(vc, first);
    km := new KernelMapper(hw, vc, SlotPage(slot.0, slot.1), free);
  }

  /** The request for the root table gets the slot after the four tables. */
  method RequestRoot(vc: VCache, ghost first: nat) returns (slot: (Idx, Idx))
    requires vc.Valid() && vc.Slots() == FreshRows(4, first)
    modifies vc.hw`ram, vc.hw`tlb, vc`freecount, vc`lazycount, vc`age
    ensures vc.hw.owner == old(vc.hw.owner) && vc.hw.hole == old(vc.hw.hole) && vc.hw.ram.Keys == old(vc.hw.ram.Keys)
    ensures vc.Valid() && vc.Undisturbed(old(vc.hw.ram), old(vc.hw.tlb)) && slot == (0, 4)
    ensures vc.Shows(SlotPage(0, 4), vc.hw.root) && LiveCount(vc.Slots()) == 5
    ensures Grant(FreshRows(4, first), vc.hw.root, 0, 4, vc.Slots())
  {
    FreshLiveCount(4, first);
    NotStuck(vc.Slots());
    var r := vc.Map(vc.hw.root);
    RootSlot(first, vc.hw.root, r.value.0, r.value.1, vc.Slots());
    slot := r.value;
  }

  lemma RootSlot(first: nat, root: nat, g: nat, i: nat, rows': Rows)
    requires Grant(FreshRows(4, first), root, g, i, rows')
    ensures (g, i) == (0, 4) && rows'[0][4] == Live(root) && LiveCount(rows') == 5
  {
    var rows := FreshRows(4, first);
    assert rows[0][4].Free?;
    assert Has(rows[0], FreeKind);
    FreshLiveCount(4, first);
    GrantAddsOneLive(rows, root, g, i, rows');
  }
}
