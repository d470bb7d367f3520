/**
 Moving the allocator's headers into kernel space: the area is mapped, and every pointer shifted by the same
 offset.  Virtual addresses are written without their sign extension, as numbers below 2^48.
 */
module Relocation {
  import opened Wrappers
  import opened Paging
  import opened Steps
  import opened Ranges
  import opened Mapper
  import opened Tables
  import PhysInit

  /** First page of the header area in kernel space. */
  const HEADER_PAGE: nat := 0x8_0400_0000

  const WRITABLE := Flags(false, true, false, false, false, 0)

  /** The physical byte behind a virtual address. */
  function Resolve(ram: Ram, root: nat, va: nat): Option<nat>
    requires va < PAGE_COUNT * PAGE_SIZE
  {
    var e := Walk(ram, root, PageAt(va / PAGE_SIZE));
    if e.Some? then Some(e.value.frame * PAGE_SIZE + va % PAGE_SIZE) else None
  }

  /** Bytes of a run mapped to consecutive frames are consecutive bytes. */
  lemma RunResolves(m0: Mem, m: Mem, root: nat, start: nat, n: nat, phys: nat, flags: Flags, k: nat)
    requires Progress(m0, m, root, start, n, phys, flags) && CanonicalRun(start, n) && k < n * PAGE_SIZE
    requires start + n <= PAGE_COUNT
    ensures Resolve(m.ram, root, start * PAGE_SIZE + k) == Some(phys * PAGE_SIZE + k)
  {
    var i := k / PAGE_SIZE;
    SplitAddress(start, k);
    SplitAddress(phys, k);
    var p := PageAt(start + i);
    RunPage(start, n, i, p);
    assert Walk(m.ram, root, p) == Some(Entry(phys + i, flags));
  }

  lemma SplitAddress(start: nat, k: nat)
    ensures (start * PAGE_SIZE + k) / PAGE_SIZE == start + k / PAGE_SIZE
    ensures (start * PAGE_SIZE + k) % PAGE_SIZE == k % PAGE_SIZE
    ensures (start + k / PAGE_SIZE) * PAGE_SIZE + k % PAGE_SIZE == start * PAGE_SIZE + k
  {
  }

  /** The byte `k` bytes after a pointer. */
  function ResolveAt(ram: Ram, root: nat, ptr: nat, k: nat): Option<nat> {
    if ptr + k < PAGE_COUNT * PAGE_SIZE then Resolve(ram, root, ptr + k) else None
  }

  /** `len` bytes behind a virtual pointer are the `len` bytes at a physical address. */
  ghost predicate Behind(ram: Ram, root: nat, ptr: nat, phys: nat, len: nat) {
    forall k: nat :: k < len ==> ResolveAt(ram, root, ptr, k) == Some(phys + k)
  }

  /** A header with its bitmap: where it starts in physical memory, and its length. */
  datatype Header = Header(phys: nat, len: nat)

  ghost predicate InArea(h: Header, phyframe: nat, size: nat) {
    phyframe * PAGE_SIZE <= h.phys && h.phys + h.len <= phyframe * PAGE_SIZE + size
  }

  lemma AreaBehind(m0: Mem, m: Mem, root: nat, phyframe: nat, size: nat, h: Header)
    requires HEADER_PAGE + NumPages(size) <= PAGE_COUNT && InArea(h, phyframe, size)
    requires Progress(m0, m, root, HEADER_PAGE, NumPages(size), phyframe, Forced(HEADER_PAGE, WRITABLE))
    ensures Behind(m.ram, root, h.phys - phyframe * PAGE_SIZE + HEADER_PAGE * PAGE_SIZE, h.phys, h.len)
  {
    var start := h.phys - phyframe * PAGE_SIZE;
    var ptr := start + HEADER_PAGE * PAGE_SIZE;
    forall k: nat | k < h.len
      ensures ResolveAt(m.ram, root, ptr, k) == Some(h.phys + k)
    {
      RunResolves(m0, m, root, HEADER_PAGE, NumPages(size), phyframe, Forced(HEADER_PAGE, WRITABLE), start + k);
    }
  }

  /** The frame of the byte `k` bytes after a physical address. */
  function FrameOf(phys: nat, k: nat): nat {
    (phys + k) / PAGE_SIZE
  }

  /** The frames of `len` bytes hold what they held. */
  ghost predicate SameBytes(ram0: Ram, ram: Ram, phys: nat, len: nat) {
    forall k: nat :: k < len ==>
      FrameOf(phys, k) in ram0 && FrameOf(phys, k) in ram && ram[FrameOf(phys, k)] == ram0[FrameOf(phys, k)]
  }

  /** The area is memory, and its frames are neither tables nor free. */
  ghost predicate Reserved(m: Mem, phyframe: nat, size: nat) {
    forall f :: phyframe <= f < phyframe + NumPages(size) ==> f in m.ram && f !in m.owner && f !in m.free
  }

  lemma AreaKept(m0: Mem, m: Mem, phyframe: nat, size: nat, h: Header)
    requires Reserved(m0, phyframe, size) && Accounted(m0, m) && DataKept(m0, m) && InArea(h, phyframe, size)
    ensures SameBytes(m0.ram, m.ram, h.phys, h.len)
  {
    forall k: nat | k < h.len
      ensures FrameOf(h.phys, k) in m0.ram && FrameOf(h.phys, k) in m.ram
      ensures m.ram[FrameOf(h.phys, k)] == m0.ram[FrameOf(h.phys, k)]
    {
      InAreaFrame(phyframe, size, h, k);
      var f := FrameOf(h.phys, k);
      assert f in m0.ram && f !in m0.owner && f !in m0.free;
    }
  }

  lemma InAreaFrame(phyframe: nat, size: nat, h: Header, k: nat)
    requires InArea(h, phyframe, size) && k < h.len
    ensures phyframe <= FrameOf(h.phys, k) < phyframe + NumPages(size)
  {
  }

  /** Maps the header area and shifts every pointer.  Each shifted header and its bitmap read the bytes they read
      before: they have the same physical addresses, and the mapper leaves the frames alone.  The only frames that left
      the free set are the tables the mapping needed. */
  method MapHeader(km: KernelMapper, phyframe: nat, size: nat, headers: seq<Header>) returns (moved: Option<seq<nat>>)
    requires km.Valid() && km.LiveSlots() <= 5 && size > 0
    requires HEADER_PAGE + NumPages(size) <= PAGE_COUNT
    requires forall p :: InRun(p, HEADER_PAGE, NumPages(size)) ==> PathOk(km.hw.ram, km.hw.root, p)
    requires forall h :: h in headers ==> InArea(h, phyframe, size)
    modifies km.hw, km`free, km.vcache`freecount, km.vcache`lazycount, km.vcache`age
    ensures moved.None? <==> Short(old(km.Snap()), km.hw.root, Ways(HEADER_PAGE, NumPages(size)))
    ensures moved.Some? ==> AgreesOnRun(km.Snap(), km.hw.root, HEADER_PAGE, NumPages(size))
    ensures moved.Some? ==> km.Valid() && km.LiveSlots() == old(km.LiveSlots())
    ensures moved.Some? ==> Accounted(old(km.Snap()), km.Snap()) && DataKept(old(km.Snap()), km.Snap())
    ensures moved.Some? ==> NewLinks(old(km.Snap()), km.Snap())
    ensures moved.Some? ==> Progress(old(km.Snap()), km.Snap(), km.hw.root, HEADER_PAGE, NumPages(size), phyframe,
                                     Forced(HEADER_PAGE, WRITABLE))
    ensures moved.Some? ==> |moved.value| == |headers| && forall i :: 0 <= i < |headers| ==>
              InArea(headers[i], phyframe, size) && moved.value[i] == Moved(headers[i], phyframe)
    ensures moved.Some? ==> forall i :: 0 <= i < |headers| ==>
              moved.value[i] == headers[i].phys - phyframe * 4096 + 0x8040_0000_0000
    ensures moved.Some? ==> forall i :: 0 <= i < |headers| ==>
              Behind(km.hw.ram, km.hw.root, moved.value[i], headers[i].phys, headers[i].len)
    ensures moved.Some? && Reserved(old(km.Snap()), phyframe, size) ==> forall i :: 0 <= i < |headers| ==>
              SameBytes(old(km.hw.ram), km.hw.ram, headers[i].phys, headers[i].len)
  {
    ghost var m0 := km.Snap();
    var shifted := seq(|headers|, i requires 0 <= i < |headers| && headers[i] in headers =>
                         Moved(headers[i], phyframe));
    AllMoved(headers, phyframe, size, shifted);
    var ok := MapArea(km, phyframe, size);
    moved := if ok then Some(shifted) else None;
    if ok {
      AllBehind(m0, km.Snap(), km.hw.root, phyframe, size, headers, shifted);
      AllKept(m0, km.Snap(), phyframe, size, headers);
    }
  }

  lemma AllKept(m0: Mem, m: Mem, phyframe: nat, size: nat, headers: seq<Header>)
    requires Accounted(m0, m) && DataKept(m0, m) && forall h :: h in headers ==> InArea(h, phyframe, size)
    ensures Reserved(m0, phyframe, size) ==> forall i :: 0 <= i < |headers| ==>
              SameBytes(m0.ram, m.ram, headers[i].phys, headers[i].len)
  {
    if Reserved(m0, phyframe, size) {
      forall i | 0 <= i < |headers|
        ensures SameBytes(m0.ram, m.ram, headers[i].phys, headers[i].len)
      {
        AreaKept(m0, m, phyframe, size, headers[i]);
      }
    }
  }

  lemma AllMoved(headers: seq<Header>, phyframe: nat, size: nat, moved: seq<nat>)
    requires forall h :: h in headers ==> InArea(h, phyframe, size)
    requires |moved| == |headers|
    requires forall i :: 0 <= i < |headers| && InArea(headers[i], phyframe, size) ==>
              moved[i] == Moved(headers[i], phyframe)
    ensures forall i :: 0 <= i < |headers| ==>
              InArea(headers[i], phyframe, size) && moved[i] == Moved(headers[i], phyframe)
  {
  }

  method MapArea(km: KernelMapper, phyframe: nat, size: nat) returns (ok: bool)
    requires km.Valid() && km.LiveSlots() <= 5 && size > 0
    requires HEADER_PAGE + NumPages(size) <= PAGE_COUNT
    requires forall p :: InRun(p, HEADER_PAGE, NumPages(size)) ==> PathOk(km.hw.ram, km.hw.root, p)
    modifies km.hw, km`free, km.vcache`freecount, km.vcache`lazycount, km.vcache`age
    ensures !ok <==> Short(old(km.Snap()), km.hw.root, Ways(HEADER_PAGE, NumPages(size)))
    ensures ok ==> AgreesOnRun(km.Snap(), km.hw.root, HEADER_PAGE, NumPages(size))
    ensures ok ==> km.Valid() && km.LiveSlots() == old(km.LiveSlots())
    ensures ok ==> Progress(old(km.Snap()), km.Snap(), km.hw.root, HEADER_PAGE, NumPages(size), phyframe,
                            Forced(HEADER_PAGE, WRITABLE))
    ensures ok ==> Accounted(old(km.Snap()), km.Snap()) && DataKept(old(km.Snap()), km.Snap())
    ensures ok ==> NewLinks(old(km.Snap()), km.Snap())
  {
    var page := PageAt(HEADER_PAGE);
    PageNumber(HEADER_PAGE, page);
    WindowNumbers(page);
    var r := km.Map(page, phyframe, size, WRITABLE);
    ok := r.Ok?;
  }

  function Moved(h: Header, phyframe: nat): nat
    requires phyframe * PAGE_SIZE <= h.phys
  {
    h.phys - phyframe * PAGE_SIZE + HEADER_PAGE * PAGE_SIZE
  }

  lemma AllBehind(m0: Mem, m: Mem, root: nat, phyframe: nat, size: nat, headers: seq<Header>, moved: seq<nat>)
    requires HEADER_PAGE + NumPages(size) <= PAGE_COUNT
    requires Progress(m0, m, root, HEADER_PAGE, NumPages(size), phyframe, Forced(HEADER_PAGE, WRITABLE))
    requires |moved| == |headers|
    requires forall i :: 0 <= i < |headers| ==>
              InArea(headers[i], phyframe, size) && moved[i] == Moved(headers[i], phyframe)
    ensures forall i :: 0 <= i < |headers| ==> Behind(m.ram, root, moved[i], headers[i].phys, headers[i].len)
  {
    forall i | 0 <= i < |headers|
      ensures Behind(m.ram, root, moved[i], headers[i].phys, headers[i].len)
    {
      AreaBehind(m0, m, root, phyframe, size, headers[i]);
    }
  }

  /** The headers that start-up lays out lie in the area it asks to have mapped. */
  lemma LaidOutInArea(rs: seq<PhysInit.Region>, k: nat, i: nat)
    requires forall r :: r in rs ==> r.Aligned()
    requires PhysInit.DisjointRegions(rs) && PhysInit.IsHost(rs, k) && rs[k].size > PhysInit.CarvedBytes(rs) && i < |rs|
    ensures var cs := PhysInit.Carve(rs, k);
            InArea(Header(rs[k].address + PhysInit.Cursor(cs, i), cs[i].HeaderBytes()),
                   rs[k].address / PAGE_SIZE, PhysInit.TotalBytes(rs))
  {
    assert rs[k] in rs;
    PhysInit.LayoutSound(rs, k);
  }
}
