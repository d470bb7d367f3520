/**
 Start-up of the frame allocator: choosing the usable regions of the firmware's memory map, carving room for
 the allocator's own headers out of the first region that is large enough, and laying the headers out there.
 */
module PhysInit {
  import opened Wrappers
  import opened Phys

  const FREE_KIND: nat := 1
  const SEGMENT_HEADER_SIZE: nat := 24

  /** A firmware entry; the low four bits of `size` are its kind. */
  datatype MMapEnt = MMapEnt(ptr: nat, size: nat) {
    function Kind(): nat { size % 16 }

    function RawSize(): nat { size / 16 * 16 }

    function PhyAdr(): nat { AlignUp(ptr, PAGE_SIZE) }

    function Size(): nat { RawSize() / PAGE_SIZE * PAGE_SIZE }

    predicate IsUsable() { Kind() == FREE_KIND && RawSize() >= PAGE_SIZE }
  }

  datatype Region = Region(address: nat, size: nat) {
    predicate Aligned() { address % PAGE_SIZE == 0 && size % PAGE_SIZE == 0 && size > 0 }

    function Range(): Extent { Extent(address / PAGE_SIZE, size / PAGE_SIZE) }

    /** Bytes of the region's header and bitmap. */
    function HeaderBytes(): nat { BitmapSize(size) + SEGMENT_HEADER_SIZE }
  }

  /** The usable regions, last firmware entry first. */
  function Usable(mmap: seq<MMapEnt>): seq<Region> {
    if mmap == [] then [] else
      UsableEntry(mmap[|mmap| - 1]) + Usable(mmap[..|mmap| - 1])
  }

  /** Rounding the address up and the size down keeps a region inside its firmware entry exactly when the bytes
      skipped at the front are no more than the bytes dropped at the back. */
  lemma RoundingStaysInside(e: MMapEnt)
    ensures e.PhyAdr() + e.Size() <= e.ptr + e.RawSize() <==> e.PhyAdr() - e.ptr <= e.RawSize() % PAGE_SIZE
  {
  }

  /** The two bytes ranges have no byte in common. */
  predicate EntriesApart(e: MMapEnt, f: MMapEnt) {
    e.ptr + e.RawSize() <= f.ptr || f.ptr + f.RawSize() <= e.ptr
  }

  /** A free entry whose region reaches into the next entry, which is in use: the condition is not always met. */
  lemma RoundingLeavesEntry() returns (e: MMapEnt, f: MMapEnt)
    ensures e.IsUsable() && f.Kind() == 0 && EntriesApart(e, f)
    ensures e.PhyAdr() + e.Size() > e.ptr + e.RawSize() && f.ptr < e.PhyAdr() + e.Size() <= f.ptr + f.RawSize()
  {
    e, f := MMapEnt(0x10, 0x1001), MMapEnt(0x1010, 0x1000);
  }

  /** Usable entries have no byte in common. */
  ghost predicate DisjointEntries(mmap: seq<MMapEnt>) {
    forall i, j :: 0 <= i < j < |mmap| && mmap[i].IsUsable() && mmap[j].IsUsable() ==> EntriesApart(mmap[i], mmap[j])
  }

  /** Rounding never makes two regions overlap: an end moves up to the next page at most, and so does a start. */
  lemma RoundedApart(e: MMapEnt, f: MMapEnt)
    requires EntriesApart(e, f)
    ensures Apart(Region(e.PhyAdr(), e.Size()).Range(), Region(f.PhyAdr(), f.Size()).Range())
  {
    if e.ptr + e.RawSize() <= f.ptr {
      RoundedBefore(e, f);
    } else {
      RoundedBefore(f, e);
    }
  }

  lemma RoundedBefore(e: MMapEnt, f: MMapEnt)
    requires e.ptr + e.RawSize() <= f.ptr
    ensures e.PhyAdr() / PAGE_SIZE + e.Size() / PAGE_SIZE <= f.PhyAdr() / PAGE_SIZE
  {
    RoundedStart(e.ptr);
    RoundedStart(f.ptr);
    assert e.Size() / PAGE_SIZE == e.RawSize() / PAGE_SIZE;
    assert e.RawSize() / PAGE_SIZE * PAGE_SIZE <= e.RawSize();
  }

  lemma RoundedStart(n: nat)
    ensures n <= AlignUp(n, PAGE_SIZE) / PAGE_SIZE * PAGE_SIZE < n + PAGE_SIZE
  {
  }

  /** The regions of disjoint usable entries are disjoint. */
  lemma {:induction false} UsableApart(mmap: seq<MMapEnt>)
    requires DisjointEntries(mmap)
    ensures DisjointRegions(Usable(mmap))
  {
    if mmap != [] {
      var k := |mmap| - 1;
      UsableApart(mmap[..k]);
      if mmap[k].IsUsable() {
        forall j | 0 <= j < |Usable(mmap[..k])|
          ensures Apart(Region(mmap[k].PhyAdr(), mmap[k].Size()).Range(), Usable(mmap[..k])[j].Range())
        {
          var i := UsableFrom(mmap[..k], j);
          RoundedApart(mmap[k], mmap[i]);
        }
      }
    }
  }

  /** Every region comes from a usable entry. */
  lemma {:induction false} UsableFrom(mmap: seq<MMapEnt>, j: nat) returns (i: nat)
    requires j < |Usable(mmap)|
    ensures i < |mmap| && mmap[i].IsUsable() && Usable(mmap)[j] == Region(mmap[i].PhyAdr(), mmap[i].Size())
    decreases |mmap|
  {
    var k := |mmap| - 1;
    var own := |UsableEntry(mmap[k])|;
    if j < own {
      i := k;
    } else {
      i := UsableFrom(mmap[..k], j - own);
    }
  }

  function TotalBytes(rs: seq<Region>): nat {
    if rs == [] then 0 else TotalBytes(rs[..|rs| - 1]) + rs[|rs| - 1].HeaderBytes()
  }

  /** Offset of header i from the start of the carved area. */
  function Cursor(rs: seq<Region>, i: nat): nat
    requires i <= |rs|
  {
    TotalBytes(rs[..i])
  }

  function CarvedBytes(rs: seq<Region>): nat {
    AlignUp(TotalBytes(rs), PAGE_SIZE)
  }

  /** k is the region the headers are carved from: the first that is large enough. */
  ghost predicate IsHost(rs: seq<Region>, k: nat) {
    && k < |rs|
    && rs[k].size >= CarvedBytes(rs)
    && forall i :: 0 <= i < k ==> rs[i].size < CarvedBytes(rs)
  }

  function Carve(rs: seq<Region>, k: nat): seq<Region>
    requires k < |rs| && rs[k].size >= CarvedBytes(rs)
  {
    rs[k := Region(rs[k].address + CarvedBytes(rs), rs[k].size - CarvedBytes(rs))]
  }

  ghost predicate DisjointRegions(rs: seq<Region>) {
    forall i, j :: 0 <= i < j < |rs| ==> Apart(rs[i].Range(), rs[j].Range())
  }

  // ---------------------------------------------------------------- the layout

  lemma BitmapSizeMonotone(a: nat, b: nat)
    requires a <= b
    ensures BitmapSize(a) <= BitmapSize(b)
  {
  }

  lemma {:induction false} SmallerRegionsNeedLess(cs: seq<Region>, rs: seq<Region>, i: nat)
    requires |cs| == |rs| && i <= |rs| && forall j :: 0 <= j < |rs| ==> cs[j].size <= rs[j].size
    ensures Cursor(cs, i) <= Cursor(rs, i)
  {
    if i > 0 {
      SmallerRegionsNeedLess(cs, rs, i - 1);
      assert cs[..i][..i - 1] == cs[..i - 1] && rs[..i][..i - 1] == rs[..i - 1];
      BitmapSizeMonotone(cs[i - 1].size, rs[i - 1].size);
    }
  }

  lemma {:induction false} CursorAdvances(rs: seq<Region>, i: nat, j: nat)
    requires i < j <= |rs|
    ensures Cursor(rs, i) + rs[i].HeaderBytes() <= Cursor(rs, j)
    ensures Cursor(rs, i) % 8 == 0
  {
    assert rs[..j][..j - 1] == rs[..j - 1];
    if i < j - 1 {
      CursorAdvances(rs, i, j - 1);
    } else {
      CursorIsWordAligned(rs, i);
    }
  }

  lemma {:induction false} CursorIsWordAligned(rs: seq<Region>, i: nat)
    requires i <= |rs|
    ensures Cursor(rs, i) % 8 == 0
  {
    if i > 0 {
      CursorIsWordAligned(rs, i - 1);
      assert rs[..i][..i - 1] == rs[..i - 1];
      BitmapWordsCoverPages(rs[i - 1].size);
    }
  }

  /** The headers, measured before carving and placed after it, do not overlap, fit in the carved area, and the
      carved area is disjoint from every frame the allocator may hand out. */
  lemma LayoutSound(rs: seq<Region>, k: nat)
    requires forall r :: r in rs ==> r.Aligned()
    requires DisjointRegions(rs) && IsHost(rs, k) && rs[k].size > CarvedBytes(rs)
    ensures var cs := Carve(rs, k);
            && (forall r :: r in cs ==> r.Aligned())
            && DisjointRegions(cs)
            && (forall i, j :: 0 <= i < j < |cs| ==> Cursor(cs, i) + cs[i].HeaderBytes() <= Cursor(cs, j))
            && (forall i :: 0 <= i < |cs| ==> Cursor(cs, i) + cs[i].HeaderBytes() <= TotalBytes(rs) <= CarvedBytes(rs))
            && (forall i :: 0 <= i < |cs| ==> Cursor(cs, i) % 8 == 0)
            && (forall i :: 0 <= i < |cs| ==>
                  Apart(cs[i].Range(), Extent(rs[k].address / PAGE_SIZE, CarvedBytes(rs) / PAGE_SIZE)))
  {
    var cs := Carve(rs, k);
    assert rs[..|rs|] == rs;
    SmallerRegionsNeedLess(cs, rs, |rs|);
    forall i, j | 0 <= i < j <= |cs|
      ensures Cursor(cs, i) + cs[i].HeaderBytes() <= Cursor(cs, j) && Cursor(cs, i) % 8 == 0
    {
      CursorAdvances(cs, i, j);
    }
    CarvedRegionsApart(rs, k);
  }

  lemma {:induction false} CarvedRegionsApart(rs: seq<Region>, k: nat)
    requires forall r :: r in rs ==> r.Aligned()
    requires DisjointRegions(rs) && k < |rs| && rs[k].size > CarvedBytes(rs)
    ensures DisjointRegions(Carve(rs, k))
    ensures forall r :: r in Carve(rs, k) ==> r.Aligned()
    ensures forall i :: 0 <= i < |rs| ==>
              Apart(Carve(rs, k)[i].Range(), Extent(rs[k].address / PAGE_SIZE, CarvedBytes(rs) / PAGE_SIZE))
  {
    var cs := Carve(rs, k);
    CarvedAligned(rs, k);
    HostApart(rs, k);
    forall i | 0 <= i < |rs| && i != k
      ensures Apart(cs[i].Range(), cs[k].Range())
      ensures Apart(cs[i].Range(), Extent(rs[k].address / PAGE_SIZE, CarvedBytes(rs) / PAGE_SIZE)) && cs[i] == rs[i]
    {
      OtherApart(rs, k, i);
    }
  }

  lemma {:induction false} HostApart(rs: seq<Region>, k: nat)
    requires k < |rs| && rs[k].Aligned() && rs[k].size > CarvedBytes(rs)
    ensures Apart(Carve(rs, k)[k].Range(), Extent(rs[k].address / PAGE_SIZE, CarvedBytes(rs) / PAGE_SIZE))
  {
    AlignedUp(TotalBytes(rs));
    CarvedRange(rs[k], CarvedBytes(rs));
  }

  lemma {:induction false} OtherApart(rs: seq<Region>, k: nat, i: nat)
    requires k < |rs| && rs[k].Aligned() && rs[k].size > CarvedBytes(rs)
    requires DisjointRegions(rs) && i < |rs| && i != k
    ensures Carve(rs, k)[i] == rs[i] && Apart(rs[i].Range(), Carve(rs, k)[k].Range())
    ensures Apart(rs[i].Range(), Extent(rs[k].address / PAGE_SIZE, CarvedBytes(rs) / PAGE_SIZE))
  {
    AlignedUp(TotalBytes(rs));
    CarvedRange(rs[k], CarvedBytes(rs));
    assert if i < k then Apart(rs[i].Range(), rs[k].Range()) else Apart(rs[k].Range(), rs[i].Range());
    PartsApart(rs[i].Range(), rs[k].Range(), CarvedBytes(rs) / PAGE_SIZE);
  }

  lemma AlignedUp(n: nat)
    ensures AlignUp(n, PAGE_SIZE) % PAGE_SIZE == 0
  {
  }

  lemma PartsApart(e: Extent, whole: Extent, cut: nat)
    requires Apart(e, whole) && cut <= whole.pages
    ensures Apart(e, Extent(whole.base, cut)) && Apart(e, Extent(whole.base + cut, whole.pages - cut))
  {
  }

  /** Carving splits a region's frames at a page. */
  lemma CarvedRange(r: Region, need: nat)
    requires r.Aligned() && need % PAGE_SIZE == 0 && need < r.size
    ensures var (c, cut) := (Region(r.address + need, r.size - need), need / PAGE_SIZE);
            && c.Aligned() && cut <= r.Range().pages
            && c.Range() == Extent(r.Range().base + cut, r.Range().pages - cut)
  {
    var (a, n, m) := (r.address / PAGE_SIZE, r.size / PAGE_SIZE, need / PAGE_SIZE);
    assert r.address == a * PAGE_SIZE && r.size == n * PAGE_SIZE && need == m * PAGE_SIZE;
    assert (a * PAGE_SIZE + m * PAGE_SIZE) / PAGE_SIZE == a + m;
    assert (n * PAGE_SIZE - m * PAGE_SIZE) / PAGE_SIZE == n - m;
  }

  // ---------------------------------------------------------------- which frames

  /** The entry offers the frame: it is free memory, with a page at least once its kind is masked off, and the frame
      starts in the whole pages' worth of bytes from its address on. */
  predicate Offers(e: MMapEnt, f: nat) {
    e.size % 16 == 1 && e.size - 1 >= 4096 && e.ptr <= f * 4096 < e.ptr + (e.size - 1) / 4096 * 4096
  }

  ghost predicate Offered(mmap: seq<MMapEnt>, f: nat) {
    exists e :: e in mmap && Offers(e, f)
  }

  /** So an offered frame starts inside a free entry; only its end may lie beyond. */
  lemma OfferedStartsInside(mmap: seq<MMapEnt>, f: nat) returns (e: MMapEnt)
    requires Offered(mmap, f)
    ensures e in mmap && e.size % 16 == 1 && e.ptr <= f * 4096 < e.ptr + (e.size - 1)
  {
    e :| e in mmap && Offers(e, f);
  }

  lemma EntryOffers(e: MMapEnt, f: nat)
    ensures e.IsUsable() && Inside(Region(e.PhyAdr(), e.Size()).Range(), f) <==> Offers(e, f)
  {
    var n := e.RawSize() / PAGE_SIZE;
    RoundedStart(e.ptr);
    assert e.Kind() == 1 ==> e.RawSize() == e.size - 1;
    assert e.Size() / PAGE_SIZE == n;
  }

  /** The usable regions hold exactly the frames that entries offer. */
  lemma {:induction false} UsableOffers(mmap: seq<MMapEnt>, f: nat)
    ensures Managed(RangesOf(Usable(mmap)), f) <==> Offered(mmap, f)
  {
    if mmap != [] {
      var (k, rest) := (|mmap| - 1, mmap[..|mmap| - 1]);
      UsableOffers(rest, f);
      EntryOffers(mmap[k], f);
      assert mmap == rest + [mmap[k]];
      OneMoreRange(UsableEntry(mmap[k]), Usable(rest), f);
      EntryRange(mmap[k], f);
    }
  }

  lemma EntryRange(e: MMapEnt, f: nat)
    ensures Managed(RangesOf(UsableEntry(e)), f) <==> e.IsUsable() && Inside(Region(e.PhyAdr(), e.Size()).Range(), f)
  {
    var es := RangesOf(UsableEntry(e));
    assert e.IsUsable() ==> |es| == 1 && es[0] == Region(e.PhyAdr(), e.Size()).Range();
  }

  function RangesOf(rs: seq<Region>): seq<Extent> {
    seq(|rs|, i requires 0 <= i < |rs| => rs[i].Range())
  }

  lemma OneMoreRange(a: seq<Region>, b: seq<Region>, f: nat)
    ensures Managed(RangesOf(a + b), f) <==> Managed(RangesOf(a), f) || Managed(RangesOf(b), f)
  {
    var (x, y, z) := (RangesOf(a), RangesOf(b), RangesOf(a + b));
    assert z == x + y;
    if Managed(x, f) {
      var i :| 0 <= i < |x| && Inside(x[i], f);
      assert z[i] == x[i];
    }
    if Managed(y, f) {
      var i :| 0 <= i < |y| && Inside(y[i], f);
      assert z[|x| + i] == y[i];
    }
  }

  /** The frame is one of those that hold the headers. */
  predicate InHeaderArea(phyframe: nat, size: nat, f: nat) {
    phyframe <= f && (f - phyframe) * 4096 < size
  }

  /** The allocator manages the frames that entries offer, apart from those that hold its headers. */
  ghost predicate FramesFrom(mmap: seq<MMapEnt>, es: seq<Extent>, phyframe: nat, size: nat) {
    forall f: nat :: Managed(es, f) || InHeaderArea(phyframe, size, f) <==> Offered(mmap, f)
  }

  /** Carving divides the frames of the regions between the segments and the headers. */
  lemma {:induction false} CarveDivides(rs: seq<Region>, k: nat, f: nat)
    requires (forall r :: r in rs ==> r.Aligned()) && k < |rs| && rs[k].size > CarvedBytes(rs)
    ensures Managed(RangesOf(rs), f) <==>
            || Managed(RangesOf(Carve(rs, k)), f)
            || InHeaderArea(rs[k].address / PAGE_SIZE, TotalBytes(rs), f)
  {
    var (cs, need) := (Carve(rs, k), CarvedBytes(rs));
    assert rs[k] in rs;
    AlignedUp(TotalBytes(rs));
    CarvedRange(rs[k], need);
    AreaFrames(rs[k].address / PAGE_SIZE, TotalBytes(rs), f);
    var (es, ds) := (RangesOf(rs), RangesOf(cs));
    assert forall i :: 0 <= i < |rs| && i != k ==> ds[i] == es[i];
    assert Inside(es[k], f) <==> Inside(ds[k], f) || Inside(Extent(es[k].base, need / PAGE_SIZE), f);
    if Managed(es, f) {
      var i :| 0 <= i < |es| && Inside(es[i], f);
      assert i != k ==> Inside(ds[i], f);
    }
    if Managed(ds, f) {
      var i :| 0 <= i < |ds| && Inside(ds[i], f);
      assert i != k ==> Inside(es[i], f);
    }
  }

  lemma AreaFrames(phyframe: nat, size: nat, f: nat)
    ensures InHeaderArea(phyframe, size, f) <==> Inside(Extent(phyframe, AlignUp(size, PAGE_SIZE) / PAGE_SIZE), f)
  {
  }

  /** Which frames the allocator manages: those that an entry offers, and that do not hold its headers. */
  lemma ManagedFrames(mmap: seq<MMapEnt>, k: nat, f: nat)
    requires var rs := Usable(mmap); k < |rs| && rs[k].size > CarvedBytes(rs)
    ensures var rs := Usable(mmap);
            var (managed, area) :=
              (Managed(RangesOf(Carve(rs, k)), f), InHeaderArea(rs[k].address / PAGE_SIZE, TotalBytes(rs), f));
            && (managed || area <==> Offered(mmap, f))
            && (DisjointEntries(mmap) ==> !(managed && area))
  {
    var rs := Usable(mmap);
    UsableAligned(mmap);
    UsableOffers(mmap, f);
    CarveDivides(rs, k, f);
    if DisjointEntries(mmap) {
      UsableApart(mmap);
      CarvedRegionsApart(rs, k);
      AreaFrames(rs[k].address / PAGE_SIZE, TotalBytes(rs), f);
    }
  }

  // ---------------------------------------------------------------- the initialiser

  /** The panics: an entry has a kind that does not exist, no region is large enough, or the host is used up whole and
      has an empty bitmap. */
  datatype Outcome = Ready(phyframe: nat, size: nat, headers: seq<nat>) | UnknownKind | NoPlace | EmptyHost

  /** A segment written for a region, with every page free except the padding. */
  ghost predicate Placed(segment: SegmentHeader, r: Region)
    reads segment.bitmap
  {
    segment.address == r.address && segment.size == r.size && segment.Valid() && segment.Initial()
  }

  ghost predicate AllPlaced(segments: seq<SegmentHeader>, cs: seq<Region>)
    reads set s | s in segments :: s.bitmap
  {
    && |segments| == |cs|
    && (forall i :: 0 <= i < |cs| ==> Placed(segments[i], cs[i]))
    && (forall i, j :: 0 <= i < j < |cs| ==> segments[i].bitmap != segments[j].bitmap)
  }

  /** What one step of the backward walk adds. */
  function UsableEntry(e: MMapEnt): seq<Region> {
    if e.IsUsable() then [Region(e.PhyAdr(), e.Size())] else []
  }

  lemma {:induction false} UsableAligned(mmap: seq<MMapEnt>)
    ensures forall r :: r in Usable(mmap) ==> r.Aligned()
  {
    if mmap != [] {
      UsableAligned(mmap[..|mmap| - 1]);
      EntryAligned(mmap[|mmap| - 1]);
    }
  }

  lemma EntryAligned(e: MMapEnt)
    ensures e.IsUsable() ==> Region(e.PhyAdr(), e.Size()).Aligned()
  {
  }

  lemma TotalBytesAppend(rs: seq<Region>, r: Region)
    ensures TotalBytes(rs + [r]) == TotalBytes(rs) + r.HeaderBytes()
  {
    assert (rs + [r])[..|rs|] == rs;
  }

  lemma UsableStep(mmap: seq<MMapEnt>, i: nat)
    requires i < |mmap|
    ensures Usable(mmap[..i + 1]) == UsableEntry(mmap[i]) + Usable(mmap[..i])
  {
    assert mmap[..i + 1][..i] == mmap[..i];
  }

  lemma Reassociate(a: seq<Region>, b: seq<Region>, c: seq<Region>)
    ensures a + (b + c) == (a + b) + c && (b == [] ==> a + b == a)
  {
  }

  method CollectUsable(mmap: seq<MMapEnt>) returns (known: bool, rs: seq<Region>, total: nat)
    ensures known <==> forall e :: e in mmap ==> e.Kind() <= 3
    ensures known ==> rs == Usable(mmap) && total == TotalBytes(rs)
  {
    rs, total := [], 0;
    var i := |mmap|;
    assert mmap[..i] == mmap;
    while i > 0
      invariant 0 <= i <= |mmap| && forall j :: i <= j < |mmap| ==> mmap[j].Kind() <= 3
      invariant rs + Usable(mmap[..i]) == Usable(mmap) && total == TotalBytes(rs)
    {
      i := i - 1;
      if mmap[i].Kind() > 3 {
        return false, rs, total;
      }
      UsableStep(mmap, i);
      Reassociate(rs, UsableEntry(mmap[i]), Usable(mmap[..i]));
      if mmap[i].IsUsable() {
        var r := Region(mmap[i].PhyAdr(), mmap[i].Size());
        TotalBytesAppend(rs, r);
        rs, total := rs + [r], total + r.HeaderBytes();
      }
    }
    known := true;
  }

  method FindHost(rs: seq<Region>, need: nat) returns (k: nat)
    requires need == CarvedBytes(rs)
    ensures k <= |rs|
    ensures k == |rs| <==> forall i :: 0 <= i < |rs| ==> rs[i].size < need
    ensures k < |rs| ==> IsHost(rs, k)
  {
    k := 0;
    while k < |rs| && rs[k].size < need
      invariant k <= |rs|
      invariant forall i :: 0 <= i < k ==> rs[i].size < need
    {
      k := k + 1;
    }
  }

  /** Writes the headers one after the other, and marks each bitmap's padding. */
  method PlaceHeaders(cs: seq<Region>, base: nat) returns (segments: seq<SegmentHeader>, headers: seq<nat>)
    requires forall r :: r in cs ==> r.Aligned()
    ensures AllPlaced(segments, cs) && forall s :: s in segments ==> fresh(s.bitmap)
    ensures headers == HeaderAddresses(cs, base)
  {
    segments, headers := [], [];
    var cursor := 0;
    for n := 0 to |cs|
      invariant |headers| == n && cursor == Cursor(cs, n)
      invariant forall i :: 0 <= i < n ==> headers[i] == base + Cursor(cs, i)
      invariant AllPlaced(segments, cs[..n]) && forall s :: s in segments ==> fresh(s.bitmap)
    {
      assert cs[n] in cs;
      var segment := new SegmentHeader(cs[n].address, cs[n].size);
      assert cs[..n + 1] == cs[..n] + [cs[n]];
      TotalBytesAppend(cs[..n], cs[n]);
      segments, headers := segments + [segment], headers + [base + cursor];
      cursor := cursor + cs[n].HeaderBytes();
    }
    assert cs[..|cs|] == cs;
  }

  function HeaderAddresses(cs: seq<Region>, base: nat): seq<nat> {
    seq(|cs|, i requires 0 <= i < |cs| => base + Cursor(cs, i))
  }

  method Init(mmap: seq<MMapEnt>, pmm: PhysicalFrameAllocator) returns (outcome: Outcome, ghost k: nat)
    modifies pmm
    ensures outcome.UnknownKind? <==> exists e :: e in mmap && e.size % 16 > 3
    ensures outcome.NoPlace? <==>
              !outcome.UnknownKind? && forall r :: r in Usable(mmap) ==> r.size < CarvedBytes(Usable(mmap))
    ensures outcome.Ready? || outcome.EmptyHost? ==> IsHost(Usable(mmap), k)
    ensures outcome.Ready? || outcome.EmptyHost? ==>
              (outcome.EmptyHost? <==> Usable(mmap)[k].size == CarvedBytes(Usable(mmap)))
    ensures outcome.Ready? ==> var rs := Usable(mmap);
              && outcome == Ready(rs[k].address / PAGE_SIZE, TotalBytes(rs),
                                  HeaderAddresses(Carve(rs, k), rs[k].address))
              && AllPlaced(pmm.segments, Carve(rs, k))
    ensures outcome.Ready? ==> forall s :: s in pmm.segments ==> fresh(s.bitmap)
    ensures outcome.Ready? && DisjointEntries(mmap) ==> pmm.Valid()
    ensures outcome.Ready? ==> FramesFrom(mmap, pmm.Ranges(), outcome.phyframe, outcome.size)
    ensures outcome.Ready? && DisjointEntries(mmap) ==> forall f: nat ::
              !(Managed(pmm.Ranges(), f) && InHeaderArea(outcome.phyframe, outcome.size, f))
  {
    var known, rs, total := CollectUsable(mmap);
    k := 0;
    if !known {
      return UnknownKind, k;
    }
    var need := AlignUp(total, PAGE_SIZE);
    var host := FindHost(rs, need);
    k := host;
    if host == |rs| {
      return NoPlace, k;
    }
    assert rs[host] in rs;
    if rs[host].size == need {
      return EmptyHost, k;
    }
    if DisjointEntries(mmap) {
      UsableApart(mmap);
    }
    UsableAligned(mmap);
    outcome := InitAt(rs, total, host, pmm);
    PlacedRanges(pmm, Carve(rs, host));
    forall f: nat
      ensures Managed(pmm.Ranges(), f) || InHeaderArea(outcome.phyframe, outcome.size, f) <==> Offered(mmap, f)
      ensures DisjointEntries(mmap) ==>
                !(Managed(pmm.Ranges(), f) && InHeaderArea(outcome.phyframe, outcome.size, f))
    {
      ManagedFrames(mmap, host, f);
    }
  }

  lemma PlacedRanges(pmm: PhysicalFrameAllocator, cs: seq<Region>)
    requires AllPlaced(pmm.segments, cs)
    ensures pmm.Ranges() == RangesOf(cs)
  {
    assert forall i :: 0 <= i < |cs| ==> Placed(pmm.segments[i], cs[i]) && pmm.Ranges()[i] == cs[i].Range();
  }

  /** A frame that no free entry offers is never free, whatever is allocated and freed. */
  lemma NeverFree(mmap: seq<MMapEnt>, es: seq<Extent>, v: View, phyframe: nat, size: nat, f: nat)
    requires |v| == |es| && FramesFrom(mmap, es, phyframe, size) && !Offered(mmap, f)
    ensures f !in FreeSet(es, v)
  {
    FreeSetMember(es, v, f);
  }

  method InitAt(rs: seq<Region>, total: nat, host: nat, pmm: PhysicalFrameAllocator) returns (outcome: Outcome)
    requires forall r :: r in rs ==> r.Aligned()
    requires total == TotalBytes(rs) && host < |rs| && rs[host].size > CarvedBytes(rs)
    modifies pmm
    ensures outcome == Ready(rs[host].address / PAGE_SIZE, total, HeaderAddresses(Carve(rs, host), rs[host].address))
    ensures AllPlaced(pmm.segments, Carve(rs, host)) && forall s :: s in pmm.segments ==> fresh(s.bitmap)
    ensures DisjointRegions(rs) ==> pmm.Valid()
  {
    var cs := Carve(rs, host);
    CarvedAligned(rs, host);
    var segments, headers := PlaceHeaders(cs, rs[host].address);
    pmm.segments := segments;
    if DisjointRegions(rs) {
      CarvedRegionsApart(rs, host);
      PlacedIsValid(pmm, cs);
    }
    outcome := Ready(rs[host].address / PAGE_SIZE, total, headers);
  }

  lemma PlacedIsValid(pmm: PhysicalFrameAllocator, cs: seq<Region>)
    requires AllPlaced(pmm.segments, cs) && DisjointRegions(cs)
    ensures pmm.Valid()
  {
    assert forall i :: 0 <= i < |cs| ==> Placed(pmm.segments[i], cs[i]) && pmm.Ranges()[i] == cs[i].Range();
  }

  lemma CarvedAligned(rs: seq<Region>, k: nat)
    requires forall r :: r in rs ==> r.Aligned()
    requires k < |rs| && rs[k].size > CarvedBytes(rs)
    ensures forall r :: r in Carve(rs, k) ==> r.Aligned()
  {
    assert rs[k] in rs;
    AlignedUp(TotalBytes(rs));
    CarvedRange(rs[k], CarvedBytes(rs));
  }
}
