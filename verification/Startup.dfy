/**
 The start of memory management as a whole: the frame allocator, the window cache, the mapper, the move of the
 allocator's headers into kernel space, and the end of the identity mapping.
 */
module Startup {
  import opened Wrappers
  import opened Paging
  import opened Hardware
  import opened Window
  import opened Tables
  import opened Steps
  import opened Ranges
  import opened VCache
  import opened Mapper
  import opened Boot
  import opened Relocation
  import opened Rights

  /** `Broken` is a start that goes on with a cache that does not work: its first slots do not show its tables, or it
      cannot write through them. */
  datatype Result =
    | Started(km: KernelMapper, moved: seq<nat>)
    | NoAllocator(outcome: PhysInit.Outcome)
    | NoCache(why: Building)
    | Broken
    | NoTables

  /** The frames of an area are memory, and neither tables nor free. */
  ghost predicate SetAside(ram: Ram, all: set<nat>, phyframe: nat, size: nat) {
    forall f :: phyframe <= f < phyframe + NumPages(size) ==> f in ram && f !in all
  }

  /** What a start leaves: a mapper with five live slots, the lower half empty and open to user code, the headers at
      their new addresses with the bytes they had, and every other kernel page outside the window as it was.  If the
      firmware's links let stores through, the headers can be written. */
  ghost predicate Running(
      km: KernelMapper, moved: seq<nat>, m0: Machine, all: set<nat>, phyframe: nat, size: nat, headers: seq<Header>)
    reads km, km.hw, km.vcache, km.vcache.hw
  {
    && km.Valid() && km.LiveSlots() == 5 && LowerGone(km.hw.ram, km.hw.root) && UserLinks(km.hw.ram, km.hw.owner)
    && HeadersMoved(m0.ram, km.hw.ram, km.hw.root, all, moved, phyframe, size, headers)
    && KernelKept(m0.ram, km.hw.ram, km.hw.root, NumPages(size))
    && LinksFrom(m0.ram, m0.owner, km.hw.ram, km.hw.owner)
    && (WriteLinks(m0.ram, m0.owner) ==> HeadersWritable(km.hw.ram, km.hw.root, NumPages(size)))
  }

  ghost predicate HeadersWritable(ram: Ram, root: nat, n: nat) {
    forall p :: InRun(p, HEADER_PAGE, n) ==> MayWrite(ram, root, p)
  }

  ghost predicate LowerGone(ram: Ram, root: nat) {
    forall p: Page :: p.a < 256 ==> Walk(ram, root, p) == None
  }

  ghost predicate HeadersMoved(
      ram0: Ram, ram: Ram, root: nat, all: set<nat>, moved: seq<nat>, phyframe: nat, size: nat, headers: seq<Header>)
  {
    && |moved| == |headers|
    && (forall i :: 0 <= i < |headers| ==>
          && moved[i] == headers[i].phys - phyframe * 4096 + 0x8040_0000_0000
          && Behind(ram, root, moved[i], headers[i].phys, headers[i].len))
    && (SetAside(ram0, all, phyframe, size) ==>
          forall i :: 0 <= i < |headers| ==> SameBytes(ram0, ram, headers[i].phys, headers[i].len))
  }

  ghost predicate KernelKept(ram0: Ram, ram: Ram, root: nat, n: nat) {
    forall p: Page :: p.a >= 256 && !InWindow(p) && !InRun(p, HEADER_PAGE, n) ==>
      Walk(ram, root, p) == Walk(ram0, root, p)
  }

  /** `virt::init`. */
  method VirtInit(hw: Core, pmm: PhysicalFrameAllocator, m0: Machine, phyframe: nat, size: nat, headers: seq<Header>)
    returns (r: Result)
    requires Bootable(hw, pmm, m0) && size > 0 && HEADER_PAGE + NumPages(size) <= PAGE_COUNT
    requires forall p :: InRun(p, HEADER_PAGE, NumPages(size)) ==> PathOk(m0.ram, hw.root, p)
    requires forall h :: h in headers ==> InArea(h, phyframe, size)
    modifies hw, pmm.Bitmaps()
    ensures !r.NoAllocator?
    ensures r.NoCache? <==>
              Clash(m0.ram, hw.root) || |Tabs(m0.ram, hw.root, old(pmm.Ranges()), old(pmm.UsedBits()))| < 4
    ensures r.Broken? <==>
              && !r.NoCache?
              && !(&& Consecutive(Tabs(m0.ram, hw.root, old(pmm.Ranges()), old(pmm.UsedBits())))
                   && WayOpen(m0.ram, hw.root))
    ensures r.NoTables? <==>
              && !r.NoCache? && !r.Broken?
              && |LeftFor(m0.ram, hw.root, old(pmm.Ranges()), old(pmm.UsedBits()))| <
                 |Wanted(m0.ram, hw.root, NumPages(size))|
    ensures r.Started? ==> fresh(r.km) && r.km.hw == hw
    ensures r.Started? ==> Running(r.km, r.moved, m0, All(m0, old(pmm.Free())), phyframe, size, headers)
  {
    var cache := Boot.Init(hw, pmm, m0);
    if cache.Panic? {
      return NoCache(cache.why);
    }
    if !(Consecutive(cache.tabs) && WayOpen(m0.ram, hw.root)) {
      return Broken;
    }
    r := MapperInit(hw, cache.free, m0, cache.vc, cache.tabs, All(m0, old(pmm.Free())), phyframe, size, headers);
  }

  // ---------------------------------------------------------------- from the memory map on

  /** The usable regions are memory without tables, the window's way has no large page, nothing was read through the
      window, and the headers have a way in kernel space. */
  ghost predicate Wakes(hw: Core, mmap: seq<PhysInit.MMapEnt>)
    reads hw
  {
    var (rs, n) := (PhysInit.Usable(mmap), NumPages(PhysInit.TotalBytes(PhysInit.Usable(mmap))));
    && PhysInit.DisjointEntries(mmap) && hw.WellFormed() && hw.hole == {} && IsMemory(hw.ram, hw.owner, rs)
    && Followable(Get(hw.ram, hw.root, 256))
    && (Link(Get(hw.ram, hw.root, 256)) ==> Followable(Get(hw.ram, Get(hw.ram, hw.root, 256).frame, 0)))
    && (forall p :: InWindow(p) ==> p !in hw.tlb)
    && HEADER_PAGE + n <= PAGE_COUNT && forall p :: InRun(p, HEADER_PAGE, n) ==> PathOk(hw.ram, hw.root, p)
  }

  ghost predicate IsMemory(ram: Ram, owner: map<nat, Pos>, rs: seq<PhysInit.Region>) {
    forall i, f: nat :: 0 <= i < |rs| && Phys.Inside(rs[i].Range(), f) ==> f in ram && f !in owner
  }

  /** Where start-up puts the headers of the carved regions. */
  function LaidOut(cs: seq<PhysInit.Region>, base: nat): seq<Header> {
    seq(|cs|, i requires 0 <= i < |cs| => Header(base + PhysInit.Cursor(cs, i), cs[i].HeaderBytes()))
  }

  /** The allocator has a place for its headers: no kind is unknown, and the first region that is large enough for them
      is not used up by them. */
  ghost predicate Placeable(mmap: seq<PhysInit.MMapEnt>, k: nat) {
    var rs := PhysInit.Usable(mmap);
    (forall e :: e in mmap ==> e.size % 16 <= 3) && PhysInit.IsHost(rs, k) && rs[k].size > PhysInit.CarvedBytes(rs)
  }

  /** The frames the allocator hands out are memory without tables, and the header area is none of them. */
  lemma {:induction false} AreaSetAside(
      ram: Ram, owner: map<nat, Pos>, rs: seq<PhysInit.Region>, k: nat, es: seq<Phys.Extent>, v: Phys.View)
    requires (forall r :: r in rs ==> r.Aligned()) && PhysInit.DisjointRegions(rs) && IsMemory(ram, owner, rs)
    requires PhysInit.IsHost(rs, k) && rs[k].size > PhysInit.CarvedBytes(rs) && FreshView(es, v, PhysInit.Carve(rs, k))
    ensures forall f :: f in Phys.FreeSet(es, v) ==> f in ram && f !in owner
    ensures SetAside(ram, owner.Keys + Phys.FreeSet(es, v), rs[k].address / PAGE_SIZE, PhysInit.TotalBytes(rs))
  {
    CarvedArea(rs, k);
    forall f: nat | f in Phys.FreeSet(es, v)
      ensures f in ram && f !in owner && !Phys.Inside(AreaOf(rs, k), f)
    {
      Phys.FreeSetMember(es, v, f);
      var i :| 0 <= i < |es| && Phys.Inside(es[i], f);
      assert Phys.Inside(PhysInit.Carve(rs, k)[i].Range(), f);
    }
  }

  /** The frames of the header area. */
  function AreaOf(rs: seq<PhysInit.Region>, k: nat): Phys.Extent
    requires k < |rs|
  {
    Phys.Extent(rs[k].address / PAGE_SIZE, NumPages(PhysInit.TotalBytes(rs)))
  }

  lemma CarvedArea(rs: seq<PhysInit.Region>, k: nat)
    requires (forall r :: r in rs ==> r.Aligned()) && PhysInit.DisjointRegions(rs)
    requires PhysInit.IsHost(rs, k) && rs[k].size > PhysInit.CarvedBytes(rs)
    ensures forall f: nat :: Phys.Inside(AreaOf(rs, k), f) ==> Phys.Inside(rs[k].Range(), f)
    ensures forall i, f: nat :: 0 <= i < |rs| && Phys.Inside(PhysInit.Carve(rs, k)[i].Range(), f) ==>
              Phys.Inside(rs[i].Range(), f) && !Phys.Inside(AreaOf(rs, k), f)
  {
    PhysInit.LayoutSound(rs, k);
    assert rs[k] in rs;
    PhysInit.AlignedUp(PhysInit.TotalBytes(rs));
    PhysInit.CarvedRange(rs[k], PhysInit.CarvedBytes(rs));
    WholePages(PhysInit.TotalBytes(rs));
  }

  lemma WholePages(n: nat)
    ensures NumPages(n) == Phys.AlignUp(n, PAGE_SIZE) / PAGE_SIZE
  {
  }

  lemma LaidOutFits(rs: seq<PhysInit.Region>, k: nat)
    requires (forall r :: r in rs ==> r.Aligned()) && PhysInit.DisjointRegions(rs)
    requires PhysInit.IsHost(rs, k) && rs[k].size > PhysInit.CarvedBytes(rs)
    ensures PhysInit.TotalBytes(rs) > 0
    ensures forall h :: h in LaidOut(PhysInit.Carve(rs, k), rs[k].address) ==>
              InArea(h, rs[k].address / PAGE_SIZE, PhysInit.TotalBytes(rs))
  {
    var (cs, hs) := (PhysInit.Carve(rs, k), LaidOut(PhysInit.Carve(rs, k), rs[k].address));
    forall h | h in hs
      ensures InArea(h, rs[k].address / PAGE_SIZE, PhysInit.TotalBytes(rs))
    {
      var i :| 0 <= i < |hs| && hs[i] == h;
      LaidOutInArea(rs, k, i);
    }
  }

  /** `mem::init`: the allocator from the firmware's memory map, and then `virt::init`.  If it gets through, the headers
      are at their places in kernel space with the bytes the allocator's start-up has given them. */
  method MemInit(hw: Core, m0: Machine, mmap: seq<PhysInit.MMapEnt>, pmm: PhysicalFrameAllocator)
    returns (r: Result, ghost k: nat, ghost es: seq<Phys.Extent>, ghost v: Phys.View)
    requires m0 == Machine(hw.ram, hw.owner) && Wakes(hw, mmap)
    modifies hw, pmm
    ensures r.NoAllocator? <==> forall i: nat :: !Placeable(mmap, i)
    ensures !r.NoAllocator? ==> Placeable(mmap, k) && FreshView(es, v, PhysInit.Carve(PhysInit.Usable(mmap), k))
    ensures !r.NoAllocator? ==> var rs := PhysInit.Usable(mmap);
              PhysInit.FramesFrom(mmap, es, rs[k].address / PAGE_SIZE, PhysInit.TotalBytes(rs))
    ensures !r.NoAllocator? ==>
              (r.NoCache? <==> Clash(m0.ram, hw.root) || |Tabs(m0.ram, hw.root, es, v)| < 4)
    ensures !r.NoAllocator? ==>
              (r.Broken? <==>
                 !r.NoCache? && !(Consecutive(Tabs(m0.ram, hw.root, es, v)) && WayOpen(m0.ram, hw.root)))
    ensures !r.NoAllocator? ==>
              var size := PhysInit.TotalBytes(PhysInit.Usable(mmap));
              (r.NoTables? <==>
                 && !r.NoCache? && !r.Broken?
                 && |LeftFor(m0.ram, hw.root, es, v)| < |Wanted(m0.ram, hw.root, NumPages(size))|)
    ensures r.Started? ==> var rs := PhysInit.Usable(mmap);
              && SetAside(m0.ram, All(m0, Phys.FreeSet(es, v)), rs[k].address / PAGE_SIZE,
                          PhysInit.TotalBytes(rs))
              && Running(r.km, r.moved, m0, All(m0, Phys.FreeSet(es, v)),
                         rs[k].address / PAGE_SIZE, PhysInit.TotalBytes(rs),
                         LaidOut(PhysInit.Carve(rs, k), rs[k].address))
  {
    var outcome, headers;
    outcome, headers, k, es, v := PhysicalInit(hw, m0, mmap, pmm);
    if !outcome.Ready? {
      return NoAllocator(outcome), k, es, v;
    }
    r := VirtInit(hw, pmm, m0, outcome.phyframe, outcome.size, headers);
  }

  /** `phys::init`, and what it means for the rest. */
  method PhysicalInit(hw: Core, ghost m0: Machine, mmap: seq<PhysInit.MMapEnt>, pmm: PhysicalFrameAllocator)
    returns (outcome: PhysInit.Outcome, headers: seq<Header>, ghost k: nat, ghost es: seq<Phys.Extent>,
             ghost v: Phys.View)
    requires m0 == Machine(hw.ram, hw.owner) && Wakes(hw, mmap)
    modifies pmm
    ensures !outcome.Ready? <==> forall i: nat :: !Placeable(mmap, i)
    ensures outcome.Ready? ==> Placeable(mmap, k) && FreshView(es, v, PhysInit.Carve(PhysInit.Usable(mmap), k))
    ensures outcome.Ready? ==> (forall s :: s in pmm.segments ==> fresh(s.bitmap)) && Bootable(hw, pmm, m0)
    ensures outcome.Ready? ==> es == pmm.Ranges() && v == pmm.UsedBits()
    ensures outcome.Ready? ==> PhysInit.FramesFrom(mmap, es, outcome.phyframe, outcome.size)
    ensures outcome.Ready? ==> Prepared(m0, PhysInit.Usable(mmap), k, outcome.phyframe, outcome.size, headers, es, v)
  {
    ghost var rs := PhysInit.Usable(mmap);
    headers := [];
    outcome, k := PhysInit.Init(mmap, pmm);
    es, v := pmm.Ranges(), pmm.UsedBits();
    if !outcome.Ready? {
      NotPlaceable(mmap, outcome.UnknownKind?, k);
      return;
    }
    StartUpView(pmm, PhysInit.Carve(rs, k));
    headers := Lengths(pmm, outcome.headers, PhysInit.Carve(rs, k), rs[k].address);
    PreparedWell(m0, mmap, k, headers, es, v);
    WakesBootable(hw, pmm, m0, mmap, es, v);
    assert Placeable(mmap, k);
  }

  lemma WakesBootable(
      hw: Core, pmm: PhysicalFrameAllocator, m0: Machine, mmap: seq<PhysInit.MMapEnt>, es: seq<Phys.Extent>,
      v: Phys.View)
    requires m0 == Machine(hw.ram, hw.owner) && Wakes(hw, mmap) && pmm.Valid()
    requires es == pmm.Ranges() && v == pmm.UsedBits()
    requires forall f :: f in Phys.FreeSet(es, v) ==> f in m0.ram && f !in m0.owner
    ensures Bootable(hw, pmm, m0)
  {
    assert pmm.Free() == Phys.FreeSet(es, v);
  }

  /** The headers with their lengths. */
  method Lengths(pmm: PhysicalFrameAllocator, addresses: seq<nat>, ghost cs: seq<PhysInit.Region>, ghost base: nat)
    returns (headers: seq<Header>)
    requires PhysInit.AllPlaced(pmm.segments, cs) && addresses == PhysInit.HeaderAddresses(cs, base)
    ensures headers == LaidOut(cs, base)
  {
    headers := [];
    for i := 0 to |pmm.segments|
      invariant headers == LaidOut(cs, base)[..i]
    {
      assert PhysInit.Placed(pmm.segments[i], cs[i]);
      var len := Phys.BitmapSize(pmm.segments[i].size) + PhysInit.SEGMENT_HEADER_SIZE;
      headers := headers + [Header(addresses[i], len)];
    }
  }

  lemma PreparedWell(
      m0: Machine, mmap: seq<PhysInit.MMapEnt>, k: nat, headers: seq<Header>, es: seq<Phys.Extent>, v: Phys.View)
    requires var rs := PhysInit.Usable(mmap);
             && PhysInit.DisjointEntries(mmap) && IsMemory(m0.ram, m0.owner, rs)
             && PhysInit.IsHost(rs, k) && rs[k].size > PhysInit.CarvedBytes(rs)
             && FreshView(es, v, PhysInit.Carve(rs, k)) && headers == LaidOut(PhysInit.Carve(rs, k), rs[k].address)
    ensures forall f :: f in Phys.FreeSet(es, v) ==> f in m0.ram && f !in m0.owner
    ensures var rs := PhysInit.Usable(mmap);
            Prepared(m0, rs, k, rs[k].address / PAGE_SIZE, PhysInit.TotalBytes(rs), headers, es, v)
  {
    var rs := PhysInit.Usable(mmap);
    PhysInit.UsableAligned(mmap);
    PhysInit.UsableApart(mmap);
    AreaSetAside(m0.ram, m0.owner, rs, k, es, v);
    LaidOutFits(rs, k);
  }

  /** The area for the headers, and the headers in it. */
  ghost predicate Prepared(
      m0: Machine, rs: seq<PhysInit.Region>, k: nat, phyframe: nat, size: nat, headers: seq<Header>,
      es: seq<Phys.Extent>, v: Phys.View)
    requires k < |rs| && rs[k].size >= PhysInit.CarvedBytes(rs) && |es| == |v|
  {
    && phyframe == rs[k].address / PAGE_SIZE && size == PhysInit.TotalBytes(rs) > 0
    && headers == LaidOut(PhysInit.Carve(rs, k), rs[k].address)
    && (forall h :: h in headers ==> InArea(h, phyframe, size))
    && SetAside(m0.ram, All(m0, Phys.FreeSet(es, v)), phyframe, size)
  }

  lemma NotPlaceable(mmap: seq<PhysInit.MMapEnt>, unknown: bool, k: nat)
    requires unknown <==> exists e :: e in mmap && e.size % 16 > 3
    requires !unknown ==>
               || (forall r :: r in PhysInit.Usable(mmap) ==> r.size < PhysInit.CarvedBytes(PhysInit.Usable(mmap)))
               || (PhysInit.IsHost(PhysInit.Usable(mmap), k) &&
                   PhysInit.Usable(mmap)[k].size == PhysInit.CarvedBytes(PhysInit.Usable(mmap)))
    ensures forall i: nat :: !Placeable(mmap, i)
  {
    var rs := PhysInit.Usable(mmap);
    forall i: nat
      ensures !Placeable(mmap, i)
    {
      assert i < |rs| ==> rs[i] in rs;
    }
  }

  /** The frames of the window's tables. */
  ghost function Tabs(ram: Ram, root: nat, es: seq<Phys.Extent>, v: Phys.View): seq<nat>
    requires |v| == |es|
  {
    TabFrames(es, v, Missing(ram, root))
  }

  /** The frames that are free once the window has its tables. */
  ghost function LeftFor(ram: Ram, root: nat, es: seq<Phys.Extent>, v: Phys.View): set<nat>
    requires |v| == |es|
  {
    Phys.LeftAfter(es, v, Missing(ram, root) + 4)
  }

  /** Where tables are missing on the way to n header pages, apart from those the window brings. */
  ghost function Wanted(ram: Ram, root: nat, n: nat): set<Pos> {
    Lacking(ram, root, Ways(HEADER_PAGE, n)) - WindowSpots()
  }

  lemma StillWanted(ram0: Ram, ram: Ram, root: nat, n: nat)
    requires Adds(ram0, ram, root, WindowSpots())
    ensures Lacking(ram, root, Ways(HEADER_PAGE, n)) == Wanted(ram0, root, n)
  {
  }

  /** The rest of `virt::init`, once there is a cache that works. */
  method MapperInit(
      hw: Core, free: set<nat>, ghost m0: Machine, vc: VCache, ghost tabs: seq<nat>, ghost all: set<nat>,
      phyframe: nat, size: nat, headers: seq<Header>)
    returns (r: Result)
    requires Cached(hw, free, m0, vc, tabs, all) && Consecutive(tabs) && WayOpen(m0.ram, hw.root)
    requires size > 0 && HEADER_PAGE + NumPages(size) <= PAGE_COUNT
    requires forall p :: InRun(p, HEADER_PAGE, NumPages(size)) ==> PathOk(m0.ram, hw.root, p)
    requires forall h :: h in headers ==> InArea(h, phyframe, size)
    modifies hw, vc`freecount, vc`lazycount, vc`age
    ensures r.NoTables? || r.Started?
    ensures r.NoTables? <==> |free| < |Wanted(m0.ram, hw.root, NumPages(size))|
    ensures r.Started? ==> fresh(r.km) && r.km.hw == hw && r.km.vcache == vc
    ensures r.Started? ==> Running(r.km, r.moved, m0, all, phyframe, size, headers)
  {
    var km := FirstMapper(hw, free, m0, vc, tabs, all, NumPages(size));
    r := MoveHeaders(km, m0, all, phyframe, size, headers);
  }

  /** `mapper::init`. */
  method FirstMapper(
      hw: Core, free: set<nat>, ghost m0: Machine, vc: VCache, ghost tabs: seq<nat>, ghost all: set<nat>,
      ghost n: nat)
    returns (km: KernelMapper)
    requires Cached(hw, free, m0, vc, tabs, all) && Consecutive(tabs) && WayOpen(m0.ram, hw.root)
    requires HEADER_PAGE + n <= PAGE_COUNT
    requires forall p :: InRun(p, HEADER_PAGE, n) ==> PathOk(m0.ram, hw.root, p)
    modifies hw`ram, hw`tlb, vc`freecount, vc`lazycount, vc`age
    ensures fresh(km) && km.hw == hw && km.vcache == vc && km.free == free
    ensures km.Valid() && km.LiveSlots() == 5 && KeptOutside(m0.ram, hw.ram, hw.root, hw.owner)
    ensures Adds(m0.ram, hw.ram, hw.root, WindowSpots()) && LinksFrom(m0.ram, m0.owner, hw.ram, hw.owner)
    ensures hw.owner.Keys + km.free == all && forall p :: InRun(p, HEADER_PAGE, n) ==> PathOk(hw.ram, hw.root, p)
  {
    ghost var ram1 := hw.ram;
    km := InitMapper(hw, vc, free, tabs[0]);
    HeaderPaths(m0, ram1, hw.ram, hw.root, hw.owner, vc.spine, n);
  }

  /** `phys::map_header` and `mapper::remove_identity`. */
  method MoveHeaders(
      km: KernelMapper, ghost m0: Machine, ghost all: set<nat>, phyframe: nat, size: nat, headers: seq<Header>)
    returns (r: Result)
    requires km.Valid() && km.LiveSlots() == 5 && KeptOutside(m0.ram, km.hw.ram, km.hw.root, km.hw.owner)
    requires Adds(m0.ram, km.hw.ram, km.hw.root, WindowSpots()) && LinksFrom(m0.ram, m0.owner, km.hw.ram, km.hw.owner)
    requires km.hw.owner.Keys + km.free == all && size > 0 && HEADER_PAGE + NumPages(size) <= PAGE_COUNT
    requires forall p :: InRun(p, HEADER_PAGE, NumPages(size)) ==> PathOk(km.hw.ram, km.hw.root, p)
    requires forall h :: h in headers ==> InArea(h, phyframe, size)
    modifies km.hw, km`free, km.vcache`freecount, km.vcache`lazycount, km.vcache`age
    ensures r.NoTables? || r.Started?
    ensures r.NoTables? <==> old(|km.free|) < |Wanted(m0.ram, km.hw.root, NumPages(size))|
    ensures r.Started? ==> r.km == km && Running(km, r.moved, m0, all, phyframe, size, headers)
  {
    ghost var m2 := km.Snap();
    StillWanted(m0.ram, m2.ram, km.hw.root, NumPages(size));
    var moved := MapHeader(km, phyframe, size, headers);
    if moved.None? {
      return NoTables;
    }
    ghost var m3 := km.Snap();
    km.RemoveIdentity();
    StartedWell(m0.ram, m2, m3, km.Snap(), km.hw.root, all, phyframe, size, headers, moved.value);
    LinkedWell(m0, m2, m3, km.Snap(), km.hw.root, phyframe, NumPages(size));
    r := Started(km, moved.value);
  }

  /** The header pages can be mapped: start-up has changed nothing on the way to them but the window's tables. */
  lemma HeaderPaths(m0: Machine, ram1: Ram, ram2: Ram, root: nat, owner: map<nat, Pos>, s: Spine, n: nat)
    requires KeptOutside(m0.ram, ram1, root, owner) && Adds(m0.ram, ram1, root, WindowSpots())
    requires LinksFrom(m0.ram, m0.owner, ram1, owner)
    requires OnlyTabs(ram1, ram2, s.tabs)
    requires Tree(ram1, root, owner, {}) && Hangs(owner, {}, s) && HEADER_PAGE + n <= PAGE_COUNT
    requires forall p :: InRun(p, HEADER_PAGE, n) ==> PathOk(m0.ram, root, p)
    ensures Adds(m0.ram, ram2, root, WindowSpots()) && LinksFrom(m0.ram, m0.owner, ram2, owner)
    ensures KeptOutside(m0.ram, ram2, root, owner) && forall p :: InRun(p, HEADER_PAGE, n) ==> PathOk(ram2, root, p)
  {
    TabsKeptOutside(m0.ram, ram1, ram2, root, owner, s);
    LinksFromTransitive(m0.ram, m0.owner, ram1, owner, ram2, owner);
    AddsTransitive(m0.ram, ram1, ram2, root, WindowSpots(), {});
    assert WindowSpots() + {} == WindowSpots();
    forall p | InRun(p, HEADER_PAGE, n)
      ensures PathOk(ram2, root, p)
    {
      WindowNumbers(p);
    }
  }

  /** From the mapper's first state (m2) over the moved headers (m3) to the end. */
  lemma StartedWell(
      ram0: Ram, m2: Mem, m3: Mem, m: Mem, root: nat, all: set<nat>, phyframe: nat, size: nat, headers: seq<Header>,
      moved: seq<nat>)
    requires KeptOutside(ram0, m2.ram, root, m2.owner) && m2.owner.Keys + m2.free == all && root in m2.owner
    requires HEADER_PAGE + NumPages(size) <= PAGE_COUNT && size > 0
    requires Progress(m2, m3, root, HEADER_PAGE, NumPages(size), phyframe, Forced(HEADER_PAGE, WRITABLE))
    requires Accounted(m2, m3) && DataKept(m2, m3) && RootOnly(m3, m, root)
    requires forall p: Page :: p.a >= 256 ==> Walk(m.ram, root, p) == Walk(m3.ram, root, p)
    requires (forall h :: h in headers ==> InArea(h, phyframe, size)) && |moved| == |headers|
    requires forall i :: 0 <= i < |headers| ==>
              InArea(headers[i], phyframe, size) && moved[i] == Moved(headers[i], phyframe)
    requires forall i :: 0 <= i < |headers| ==> Behind(m3.ram, root, moved[i], headers[i].phys, headers[i].len)
    ensures HeadersMoved(ram0, m.ram, root, all, moved, phyframe, size, headers)
    ensures KernelKept(ram0, m.ram, root, NumPages(size))
  {
    forall i | 0 <= i < |headers|
      ensures Behind(m.ram, root, moved[i], headers[i].phys, headers[i].len)
      ensures SetAside(ram0, all, phyframe, size) ==> SameBytes(ram0, m.ram, headers[i].phys, headers[i].len)
    {
      StillBehind(m3.ram, m.ram, root, moved[i], headers[i].phys, headers[i].len);
      if SetAside(ram0, all, phyframe, size) {
        StillSame(ram0, m2, m3, m, root, all, phyframe, size, headers[i]);
      }
    }
    forall p: Page | p.a >= 256 && !InWindow(p) && !InRun(p, HEADER_PAGE, NumPages(size))
      ensures Walk(m.ram, root, p) == Walk(ram0, root, p)
    {
      assert Walk(m3.ram, root, p) == Walk(m2.ram, root, p);
    }
  }

  /** The links, and that the headers can be written. */
  lemma LinkedWell(m0: Machine, m2: Mem, m3: Mem, m: Mem, root: nat, phyframe: nat, n: nat)
    requires LinksFrom(m0.ram, m0.owner, m2.ram, m2.owner) && NewLinks(m2, m3) && NewLinks(m3, m)
    requires Progress(m2, m3, root, HEADER_PAGE, n, phyframe, Forced(HEADER_PAGE, WRITABLE))
    requires forall p: Page :: p.a >= 256 ==> Walk(m.ram, root, p) == Walk(m3.ram, root, p)
    requires Tree(m.ram, root, m.owner, {})
    ensures LinksFrom(m0.ram, m0.owner, m.ram, m.owner)
    ensures WriteLinks(m0.ram, m0.owner) ==> HeadersWritable(m.ram, root, n)
  {
    var first := Mem(m0.ram, m2.tlb, m0.owner, {});
    NewLinksTransitive(first, m2, m3);
    NewLinksTransitive(first, m3, m);
    LinksKept(first, m);
    if WriteLinks(m0.ram, m0.owner) {
      forall p | InRun(p, HEADER_PAGE, n)
        ensures MayWrite(m.ram, root, p)
      {
        WindowNumbers(p);
        assert Walk(m3.ram, root, p) ==
               Some(Entry(phyframe + (Number(p) - HEADER_PAGE), Forced(HEADER_PAGE, WRITABLE)));
        WritesAreLeafWrites(m.ram, root, m.owner, p);
      }
    }
  }

  lemma StillSame(
      ram0: Ram, m2: Mem, m3: Mem, m: Mem, root: nat, all: set<nat>, phyframe: nat, size: nat, h: Header)
    requires KeptOutside(ram0, m2.ram, root, m2.owner) && m2.owner.Keys + m2.free == all && root in m2.owner
    requires Accounted(m2, m3) && DataKept(m2, m3) && RootOnly(m3, m, root)
    requires SetAside(ram0, all, phyframe, size) && InArea(h, phyframe, size)
    ensures SameBytes(ram0, m.ram, h.phys, h.len)
  {
    forall k: nat | k < h.len
      ensures FrameOf(h.phys, k) in ram0 && FrameOf(h.phys, k) in m.ram
      ensures m.ram[FrameOf(h.phys, k)] == ram0[FrameOf(h.phys, k)]
    {
      InAreaFrame(phyframe, size, h, k);
      var f := FrameOf(h.phys, k);
      assert f in ram0 && f !in all;
      assert f !in m2.owner && f !in m3.owner && f != root;
    }
  }

  /** Pointers into kernel space keep what is behind them if kernel pages keep their translations. */
  lemma StillBehind(ram: Ram, ram': Ram, root: nat, ptr: nat, phys: nat, len: nat)
    requires Behind(ram, root, ptr, phys, len) && ptr >= KERNEL_START * PAGE_SIZE
    requires forall p: Page :: p.a >= 256 ==> Walk(ram', root, p) == Walk(ram, root, p)
    ensures Behind(ram', root, ptr, phys, len)
  {
    forall k: nat | k < len
      ensures ResolveAt(ram', root, ptr, k) == Some(phys + k)
    {
      assert ResolveAt(ram, root, ptr, k) == Some(phys + k);
      KernelPage(ptr + k);
    }
  }

  lemma KernelPage(va: nat)
    requires KERNEL_START * PAGE_SIZE <= va < PAGE_COUNT * PAGE_SIZE
    ensures PageAt(va / PAGE_SIZE).a >= 256
  {
    var p := PageAt(va / PAGE_SIZE);
    PageNumber(va / PAGE_SIZE, p);
    WindowNumbers(p);
  }
}
