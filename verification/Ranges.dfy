/**
 Mapping a run of consecutive pages, one page at a time: translations, and the two ways of flushing.
 */
module Ranges {
  import opened Wrappers
  import opened Paging
  import opened Hardware
  import opened Window
  import opened Tables
  import opened Steps

  /** The first page of kernel space. */
  const KERNEL_START: nat := 0x8_0000_0000

  lemma WindowNumbers(p: Page)
    ensures InWindow(p) <==> KERNEL_START <= Number(p) < KERNEL_START + 2048
    ensures p.a < 256 <==> Number(p) < KERNEL_START
  {
  }

  /** p is one of the n pages from page number `start`. */
  predicate InRun(p: Page, start: nat, n: nat) {
    start <= Number(p) < start + n
  }

  /** The run lies in one half of the address space, outside the window. */
  predicate CanonicalRun(start: nat, n: nat) {
    start + n <= KERNEL_START || KERNEL_START + 2048 <= start <= start + n <= PAGE_COUNT
  }

  /** The partial map after n pages of the run are mapped. */
  function Overlaid(before: Option<Entry>, p: Page, start: nat, n: nat, phys: nat, flags: Flags): Option<Entry> {
    if InRun(p, start, n) then Some(Entry(phys + (Number(p) - start), flags)) else before
  }

  ghost predicate Progress(m0: Mem, m: Mem, root: nat, start: nat, n: nat, phys: nat, flags: Flags) {
    && (forall p :: !InWindow(p) ==> Walk(m.ram, root, p) == Overlaid(Walk(m0.ram, root, p), p, start, n, phys, flags))
    && (forall p :: !InWindow(p) && PathOk(m0.ram, root, p) ==> PathOk(m.ram, root, p))
  }

  lemma ProgressStep(m0: Mem, m: Mem, m': Mem, root: nat, start: nat, n: nat, phys: nat, flags: Flags, q: Page)
    requires Progress(m0, m, root, start, n, phys, flags) && Number(q) == start + n
    requires MapsOne(m, m', root, q, Entry(phys + n, flags))
    ensures Progress(m0, m', root, start, n + 1, phys, flags)
  {
    forall p | !InWindow(p)
      ensures Walk(m'.ram, root, p) == Overlaid(Walk(m0.ram, root, p), p, start, n + 1, phys, flags)
    {
      OverlaidNext(Walk(m0.ram, root, p), p, start, n, phys, flags, q);
      assert Walk(m.ram, root, p) == Overlaid(Walk(m0.ram, root, p), p, start, n, phys, flags);
    }
  }

  lemma OverlaidNext(before: Option<Entry>, p: Page, start: nat, n: nat, phys: nat, flags: Flags, q: Page)
    requires Number(q) == start + n
    ensures Overlaid(before, p, start, n + 1, phys, flags) ==
            if p == q then Some(Entry(phys + n, flags)) else Overlaid(before, p, start, n, phys, flags)
  {
    SameNumber(p, q);
  }

  lemma SameNumber(p: Page, q: Page)
    ensures Number(p) == Number(q) <==> p == q
  {
    PageNumber(Number(p), p);
    PageNumber(Number(p), q);
  }

  /** Flushing page by page: the buffer agrees with the tables on the pages done. */
  ghost predicate AgreesOnRun(m: Mem, root: nat, start: nat, n: nat) {
    forall p :: InRun(p, start, n) ==> Agrees(m.tlb, m.ram, root, p)
  }

  lemma AgreesStep(m0: Mem, m: Mem, m': Mem, root: nat, start: nat, n: nat, phys: nat, flags: Flags, q: Page)
    requires CanonicalRun(start, n + 1) && Number(q) == start + n
    requires Progress(m0, m, root, start, n, phys, flags) && AgreesOnRun(m, root, start, n)
    requires MapsOne(m, m', root, q, Entry(phys + n, flags)) && BufferAfterOne(m, m', root, q)
    requires Agrees(m'.tlb, m'.ram, root, q)
    ensures AgreesOnRun(m', root, start, n + 1)
  {
    forall p | InRun(p, start, n + 1)
      ensures Agrees(m'.tlb, m'.ram, root, p)
    {
      WindowNumbers(p);
      SameNumber(p, q);
      if p != q {
        assert InRun(p, start, n) && Agrees(m.tlb, m.ram, root, p);
        assert Walk(m.ram, root, p).Some?;
        assert Filled(m.tlb, m'.tlb, m'.ram, root, p);
      }
    }
  }

  /** The buffer or the tables hold a global translation for the page. */
  ghost predicate HasGlobal(m: Mem, root: nat, p: Page) {
    (p in m.tlb && m.tlb[p].flags.global) || IsGlobal(Walk(m.ram, root, p))
  }

  /** Neither the tables nor the buffer hold a global translation for the run, and free frames are tame, so that none
      can arise from a table linked before it is cleared. */
  ghost predicate NoGlobal(m: Mem, root: nat, start: nat, n: nat) {
    AllTame(m.ram, m.free) && forall p :: InRun(p, start, n) ==> !HasGlobal(m, root, p)
  }

  /** Outside the window, a page has a global translation only if it had one, or if it is one of the n pages mapped and
      they are global. */
  ghost predicate GlobalsFrom(m0: Mem, m: Mem, root: nat, start: nat, n: nat, flags: Flags) {
    forall p :: !InWindow(p) && HasGlobal(m, root, p) ==> HasGlobal(m0, root, p) || (InRun(p, start, n) && flags.global)
  }

  lemma GlobalsStep(m0: Mem, m: Mem, m': Mem, root: nat, start: nat, n: nat, phys: nat, flags: Flags, q: Page)
    requires GlobalsFrom(m0, m, root, start, n, flags) && Number(q) == start + n
    requires MapsOne(m, m', root, q, Entry(phys + n, flags)) && NoNewGlobal(m.ram, m.tlb, m'.ram, m'.tlb, root)
    ensures GlobalsFrom(m0, m', root, start, n + 1, flags)
  {
    forall p | !InWindow(p) && HasGlobal(m', root, p)
      ensures HasGlobal(m0, root, p) || (InRun(p, start, n + 1) && flags.global)
    {
      assert Walk(m'.ram, root, p) == if p == q then Some(Entry(phys + n, flags)) else Walk(m.ram, root, p);
      assert HasGlobal(m, root, p) || (p == q && flags.global);
    }
  }

  /** About mapped pages outside the run the buffer holds nothing new. */
  ghost predicate Bystanders(m0: Mem, m: Mem, root: nat, start: nat, n: nat) {
    forall p :: !InWindow(p) && !InRun(p, start, n) && Walk(m0.ram, root, p).Some? ==>
      Filled(m0.tlb, m.tlb, m.ram, root, p)
  }

  lemma BystandersStep(m0: Mem, m: Mem, m': Mem, root: nat, start: nat, n: nat, phys: nat, flags: Flags, q: Page)
    requires Progress(m0, m, root, start, n, phys, flags) && Bystanders(m0, m, root, start, n) && Number(q) == start + n
    requires MapsOne(m, m', root, q, Entry(phys + n, flags)) && BufferAfterOne(m, m', root, q)
    ensures Bystanders(m0, m', root, start, n + 1)
  {
    forall p | !InWindow(p) && !InRun(p, start, n + 1) && Walk(m0.ram, root, p).Some?
      ensures Filled(m0.tlb, m'.tlb, m'.ram, root, p)
    {
      assert p != q && Walk(m.ram, root, p) == Walk(m0.ram, root, p) == Walk(m'.ram, root, p);
      assert Filled(m0.tlb, m.tlb, m.ram, root, p) && Filled(m.tlb, m'.tlb, m'.ram, root, p);
    }
  }

  /** Everything one round of the loop promises. */
  ghost predicate PageMapped(m: Mem, m': Mem, root: nat, q: Page, e: Entry, flush: bool) {
    && MapsOne(m, m', root, q, e) && BufferAfterOne(m, m', root, q)
    && (flush ==> Agrees(m'.tlb, m'.ram, root, q))
    && NewLinks(m, m')
    && KeepsTame(m, m', root)
    && Accounted(m, m') && DataKept(m, m') && Gains(m, m', root, WayOf(q))
  }

  /** A way down and the leaf at its end. */
  lemma PageDone(m: Mem, m1: Mem, m': Mem, root: nat, q: Page, e: Entry, t1: nat, flush: bool)
    requires Deepens(m, m1, root, WayOf(q)) && Tree(m1.ram, root, m1.owner, {}) && !InWindow(q)
    requires At(m1.ram, root, L1(q.a, q.b, q.c)) == Some(t1) && t1 in m1.ram && e.flags.present
    requires m'.ram == Put(m1.ram, t1, q.d, e) && AllFilled(m1.tlb, m'.tlb, m'.ram, root)
    requires m'.free == m1.free && m'.owner == m1.owner && m1.free !! m1.owner.Keys
    requires flush ==> Agrees(m'.tlb, m'.ram, root, q)
    requires NewLinks(m1, m')
    ensures PageMapped(m, m', root, q, e, flush)
  {
    LeafMapsOne(m, m1, m', root, q, e, t1);
    LeafGains(m1, m', root, q, e, t1);
    GainsTransitive(m, m1, m', root, WayOf(q), {});
    assert WayOf(q) + {} == WayOf(q);
    NewLinksTransitive(m, m1, m');
  }

  /** The positions of the tables on the way to n pages. */
  ghost function Ways(start: nat, n: nat): set<Pos> {
    if n == 0 then {} else
      Ways(start, n - 1) + if start + n <= PAGE_COUNT then WayOf(PageAt(start + n - 1)) else {}
  }

  lemma {:induction false} WaysGrow(start: nat, i: nat, n: nat)
    requires i <= n
    ensures Ways(start, i) <= Ways(start, n)
  {
    if i < n {
      WaysGrow(start, i, n - 1);
    }
  }

  /** Everything that holds after i pages. */
  ghost predicate RunMapped(m0: Mem, m: Mem, root: nat, start: nat, i: nat, phys: nat, flags: Flags, flush: bool) {
    && Progress(m0, m, root, start, i, phys, flags)
    && Bystanders(m0, m, root, start, i)
    && (flush ==> AgreesOnRun(m, root, start, i))
    && (AllTame(m0.ram, m0.free) ==> AllTame(m.ram, m.free) && GlobalsFrom(m0, m, root, start, i, flags))
    && NewLinks(m0, m)
    && Accounted(m0, m) && DataKept(m0, m) && Gains(m0, m, root, Ways(start, i))
  }

  lemma RunStart(m: Mem, root: nat, start: nat, phys: nat, flags: Flags, flush: bool)
    ensures RunMapped(m, m, root, start, 0, phys, flags, flush)
  {
    NoGain(m, m, root);
  }

  lemma RunStep(m0: Mem, m: Mem, m': Mem, root: nat, start: nat, i: nat, phys: nat, flags: Flags, q: Page, flush: bool)
    requires CanonicalRun(start, i + 1) && Number(q) == start + i && start + i < PAGE_COUNT && q == PageAt(start + i)
    requires RunMapped(m0, m, root, start, i, phys, flags, flush)
    requires PageMapped(m, m', root, q, Entry(phys + i, flags), flush)
    ensures RunMapped(m0, m', root, start, i + 1, phys, flags, flush)
  {
    AccountedTransitive(m0, m, m');
    NewLinksTransitive(m0, m, m');
    GainsTransitive(m0, m, m', root, Ways(start, i), WayOf(q));
    ProgressStep(m0, m, m', root, start, i, phys, flags, q);
    BystandersStep(m0, m, m', root, start, i, phys, flags, q);
    if flush {
      AgreesStep(m0, m, m', root, start, i, phys, flags, q);
    }
    if AllTame(m0.ram, m0.free) {
      GlobalsStep(m0, m, m', root, start, i, phys, flags, q);
    }
  }

  /** Too few frames for one page of the run are too few for the run. */
  lemma RunShort(m0: Mem, m: Mem, root: nat, start: nat, i: nat, n: nat, q: Page)
    requires Gains(m0, m, root, Ways(start, i)) && Short(m, root, WayOf(q))
    requires i < n && start + i < PAGE_COUNT && q == PageAt(start + i)
    ensures Short(m0, root, Ways(start, n))
  {
    ShortAfter(m0, m, root, Ways(start, i), WayOf(q));
    WaysGrow(start, i + 1, n);
    ShortMore(m0, root, Ways(start, i + 1), Ways(start, n));
  }

  lemma RunPage(start: nat, n: nat, i: nat, q: Page)
    requires CanonicalRun(start, n) && i < n && start + i < PAGE_COUNT && q == PageAt(start + i)
    ensures Number(q) == start + i && InRun(q, start, n) && !InWindow(q)
  {
    PageNumber(start + i, q);
    WindowNumbers(q);
  }

  /** Borrowing slots is gentle, and leaves the links alone. */
  lemma BorrowGentle(m: Mem, m': Mem, root: nat, s: Spine)
    requires WellPlaced(m, root, s) && OnlyTabs(m.ram, m'.ram, s.tabs) && m'.owner == m.owner && m'.free == m.free
    requires ElsewhereKept(m.ram, m.tlb, m'.ram, m'.tlb, root, m.owner, {})
    ensures Deepens(m, m', root, {})
  {
    forall p | !InWindow(p)
      ensures PathOk(m.ram, root, p) ==> PathOk(m'.ram, root, p)
      ensures Walk(m'.ram, root, p) == Walk(m.ram, root, p) && Filled(m.tlb, m'.tlb, m'.ram, root, p)
    {
      assert Elsewhere(m.owner, {}, p);
      TabsIrrelevant(m.ram, m'.ram, root, m.owner, s, p);
    }
    forall pos
      ensures At(m'.ram, root, pos) == At(m.ram, root, pos)
    {
      TabsAt(m.ram, m'.ram, root, m.owner, s, pos);
    }
    NoGain(m, m', root);
    BorrowKeepsFrames(m, m', root, s);
    TabsLinks(m.ram, m'.ram, root, m.owner, s);
  }

  lemma BorrowKeepsFrames(m: Mem, m': Mem, root: nat, s: Spine)
    requires WellPlaced(m, root, s) && OnlyTabs(m.ram, m'.ram, s.tabs) && m'.owner == m.owner && m'.free == m.free
    ensures AllTame(m.ram, m.free) ==> AllTame(m'.ram, m'.free)
  {
    assert forall h: Idx :: h < 4 ==> s.tabs[h] in m.owner && m.owner[s.tabs[h]].L1?;
    assert forall g :: g in m.free ==> g !in s.tabs;
  }

  /** A run mapped after a gentle start is a run mapped. */
  lemma RunAfterGentle(m: Mem, m1: Mem, m': Mem, root: nat, start: nat, n: nat, phys: nat, flags: Flags, flush: bool)
    requires Deepens(m, m1, root, {})
    requires RunMapped(m1, m', root, start, n, phys, flags, flush)
    ensures RunMapped(m, m', root, start, n, phys, flags, flush)
  {
    AccountedTransitive(m, m1, m');
    NewLinksTransitive(m, m1, m');
    GainsTransitive(m, m1, m', root, {}, Ways(start, n));
    assert {} + Ways(start, n) == Ways(start, n);
    forall p | !InWindow(p)
      ensures Walk(m'.ram, root, p) == Overlaid(Walk(m.ram, root, p), p, start, n, phys, flags)
      ensures PathOk(m.ram, root, p) ==> PathOk(m'.ram, root, p)
    {
      assert Walk(m1.ram, root, p) == Walk(m.ram, root, p);
      assert PathOk(m.ram, root, p) ==> PathOk(m1.ram, root, p);
    }
    BystandersAfterGentle(m, m1, m', root, start, n);
    if AllTame(m.ram, m.free) {
      GlobalsAfterGentle(m, m1, m', root, start, n, flags);
    }
  }

  lemma BystandersAfterGentle(m: Mem, m1: Mem, m': Mem, root: nat, start: nat, n: nat)
    requires Gentle(m, m1, root) && Bystanders(m1, m', root, start, n)
    requires forall p :: !InWindow(p) && !InRun(p, start, n) ==> Walk(m'.ram, root, p) == Walk(m.ram, root, p)
    ensures Bystanders(m, m', root, start, n)
  {
    forall p | !InWindow(p) && !InRun(p, start, n) && Walk(m.ram, root, p).Some?
      ensures Filled(m.tlb, m'.tlb, m'.ram, root, p)
    {
      assert Walk(m1.ram, root, p) == Walk(m.ram, root, p);
      assert Filled(m.tlb, m1.tlb, m1.ram, root, p) && Filled(m1.tlb, m'.tlb, m'.ram, root, p);
    }
  }

  lemma GlobalsAfterGentle(m: Mem, m1: Mem, m': Mem, root: nat, start: nat, n: nat, flags: Flags)
    requires Gentle(m, m1, root) && AllTame(m.ram, m.free) && GlobalsFrom(m1, m', root, start, n, flags)
    ensures GlobalsFrom(m, m', root, start, n, flags)
  {
    forall p | !InWindow(p) && HasGlobal(m1, root, p)
      ensures HasGlobal(m, root, p)
    {
      assert Walk(m1.ram, root, p) == Walk(m.ram, root, p);
    }
  }

  /** The whole run is mapped: the run translates to the frames and nothing else changes; the buffer holds nothing new
      about other mapped pages and agrees with the tables on the run, page by page or, if the run had no global
      translation, after one reload; global translations come from before or from the run itself; frames that are no
      tables keep their contents. */
  ghost predicate Mapped(m0: Mem, m: Mem, root: nat, start: nat, n: nat, phys: nat, flags: Flags, flush: bool) {
    && RunMapped(m0, m, root, start, n, phys, flags, flush)
    && (NoGlobal(m0, root, start, n) && !flags.global ==> AgreesOnRun(m, root, start, n))
  }

  /** Dropping everything that is not global makes the buffer agree on a run without global translations. */
  lemma FlushedRun(m0: Mem, m: Mem, m': Mem, root: nat, start: nat, n: nat, phys: nat, flags: Flags)
    requires RunMapped(m0, m, root, start, n, phys, flags, false) && CanonicalRun(start, n)
    requires m'.ram == m.ram && m'.owner == m.owner && m'.free == m.free
    requires Reloaded(m.tlb, m'.tlb, m'.ram, root)
    ensures Mapped(m0, m', root, start, n, phys, flags, false)
  {
    forall p | !InWindow(p)
      ensures HasGlobal(m', root, p) ==> HasGlobal(m, root, p)
      ensures Filled(m0.tlb, m.tlb, m.ram, root, p) ==> Filled(m0.tlb, m'.tlb, m'.ram, root, p)
    {
    }
    if NoGlobal(m0, root, start, n) && !flags.global {
      forall p | InRun(p, start, n)
        ensures Agrees(m'.tlb, m'.ram, root, p)
      {
        WindowNumbers(p);
        assert !HasGlobal(m, root, p);
      }
    }
  }

  // ---------------------------------------------------------------- from call to call

  /** No page of the lower half has a global translation, in the tables or in the buffer. */
  ghost predicate LowerLocal(m: Mem, root: nat) {
    NoGlobal(m, root, 0, KERNEL_START)
  }

  /** The buffer tells the truth about every mapped page outside the window. */
  ghost predicate Coherent(m: Mem, root: nat) {
    forall p :: !InWindow(p) && Walk(m.ram, root, p).Some? ==> Agrees(m.tlb, m.ram, root, p)
  }

  /** A call that asks for no global page in the lower half keeps the lower half local. */
  lemma MappedKeepsLocal(m0: Mem, m: Mem, root: nat, start: nat, n: nat, phys: nat, flags: Flags, flush: bool)
    requires Mapped(m0, m, root, start, n, phys, flags, flush) && CanonicalRun(start, n)
    requires LowerLocal(m0, root) && (start < KERNEL_START ==> !flags.global)
    ensures LowerLocal(m, root)
  {
    forall p | InRun(p, 0, KERNEL_START)
      ensures !HasGlobal(m, root, p)
    {
      WindowNumbers(p);
      assert !HasGlobal(m0, root, p);
    }
  }

  /** Such a call, flushed either way, leaves the buffer true about every mapped page. */
  lemma MappedKeepsCoherent(m0: Mem, m: Mem, root: nat, start: nat, n: nat, phys: nat, flags: Flags, flush: bool)
    requires Mapped(m0, m, root, start, n, phys, flags, flush) && CanonicalRun(start, n)
    requires LowerLocal(m0, root) && (start < KERNEL_START ==> !flags.global) && (start >= KERNEL_START ==> flush)
    requires Coherent(m0, root)
    ensures AgreesOnRun(m, root, start, n) && Coherent(m, root)
  {
    if start < KERNEL_START {
      assert forall p :: InRun(p, start, n) ==> InRun(p, 0, KERNEL_START);
      assert NoGlobal(m0, root, start, n);
    }
    forall p | !InWindow(p) && Walk(m.ram, root, p).Some?
      ensures Agrees(m.tlb, m.ram, root, p)
    {
      if !InRun(p, start, n) {
        assert Walk(m.ram, root, p) == Walk(m0.ram, root, p);
        assert Agrees(m0.tlb, m0.ram, root, p) && Filled(m0.tlb, m.tlb, m.ram, root, p);
      }
    }
  }

  // ---------------------------------------------------------------- taking the lower half away

  /** While the lower half is taken away, entry by entry, nothing becomes global, and the kernel's half stays. */
  ghost predicate Clearing(m0: Mem, m: Mem, root: nat) {
    && (forall p :: !InWindow(p) && HasGlobal(m, root, p) ==> HasGlobal(m0, root, p))
    && (forall p: Page :: p.a >= 256 ==> Walk(m.ram, root, p) == Walk(m0.ram, root, p))
    && (forall p: Page :: !InWindow(p) && p.a >= 256 ==> Filled(m0.tlb, m.tlb, m.ram, root, p))
    && (AllTame(m0.ram, m0.free) ==> AllTame(m.ram, m.free))
    && RootOnly(m0, m, root)
  }

  /** No frame but the root table has changed, and of its entries some are cleared. */
  ghost predicate RootOnly(m0: Mem, m: Mem, root: nat) {
    && m.ram.Keys == m0.ram.Keys && (forall f :: f in m0.ram && f != root ==> m.ram[f] == m0.ram[f])
    && forall i: Idx :: Get(m.ram, root, i) in {Get(m0.ram, root, i), UNUSED}
  }

  lemma RootOnlyLinks(m0: Mem, m: Mem, root: nat)
    requires RootOnly(m0, m, root) && forall f :: f in m.owner ==> f in m0.owner && m.owner[f] == m0.owner[f]
    ensures NewLinks(m0, m)
  {
    assert forall f, i: Idx :: f != root ==> Get(m.ram, f, i) == Get(m0.ram, f, i);
  }

  lemma ClearingStep(m0: Mem, m: Mem, m': Mem, root: nat, i: Idx)
    requires Clearing(m0, m, root) && root in m.ram && root !in m.free && i < 256 && m'.free == m.free
    requires m'.ram == Put(m.ram, root, i, UNUSED) && AllFilled(m.tlb, m'.tlb, m'.ram, root)
    requires forall p: Page :: p.a != i ==> Walk(m'.ram, root, p) == Walk(m.ram, root, p)
    ensures Clearing(m0, m', root)
  {
    forall p | !InWindow(p)
      ensures HasGlobal(m', root, p) ==> HasGlobal(m, root, p)
      ensures p.a >= 256 && Filled(m0.tlb, m.tlb, m.ram, root, p) ==> Filled(m0.tlb, m'.tlb, m'.ram, root, p)
    {
      assert Walk(m'.ram, root, p) == if p.a == i then None else Walk(m.ram, root, p);
      assert Filled(m.tlb, m'.tlb, m'.ram, root, p);
    }
  }

  /** What taking the lower half away leaves: a lower page keeps a translation in the buffer only if it was global; if
      none was, the buffer holds none at all and the lower half is local from then on. */
  ghost predicate Purged(m0: Mem, m: Mem, root: nat) {
    && (forall p: Page :: p.a < 256 && p in m.tlb ==> m.tlb[p].flags.global && HasGlobal(m0, root, p))
    && (LowerLocal(m0, root) ==> LowerLocal(m, root) && forall p: Page :: p.a < 256 ==> p !in m.tlb)
    && (Coherent(m0, root) ==> Coherent(m, root))
    && RootOnly(m0, m, root)
  }

  lemma PurgedLower(m0: Mem, m: Mem, m': Mem, root: nat)
    requires Clearing(m0, m, root) && m'.ram == m.ram && m'.free == m.free && Reloaded(m.tlb, m'.tlb, m'.ram, root)
    requires forall p: Page :: p.a < 256 ==> Walk(m'.ram, root, p) == None
    ensures Purged(m0, m', root)
  {
    forall p: Page | p.a < 256 && p in m'.tlb
      ensures m'.tlb[p].flags.global && HasGlobal(m0, root, p)
    {
      assert HasGlobal(m, root, p);
    }
    if LowerLocal(m0, root) {
      forall p | InRun(p, 0, KERNEL_START)
        ensures !HasGlobal(m', root, p) && p !in m'.tlb
      {
        WindowNumbers(p);
        assert !HasGlobal(m0, root, p);
      }
      forall p: Page | p.a < 256
        ensures p !in m'.tlb
      {
        WindowNumbers(p);
        assert InRun(p, 0, KERNEL_START);
      }
    }
    if Coherent(m0, root) {
      forall p | !InWindow(p) && Walk(m'.ram, root, p).Some?
        ensures Agrees(m'.tlb, m'.ram, root, p)
      {
        assert Agrees(m0.tlb, m0.ram, root, p) && Filled(m0.tlb, m.tlb, m.ram, root, p);
      }
    }
  }
}
