/**
 Frames and who owns them, the plain page map that runs of the mapper refine, and the bytes behind the pages.
 The bytes of a frame that serves as a page table are not tracked here.
 */
module Memory {
  import opened Wrappers
  import opened Paging
  import opened Steps
  import opened Ranges
  import Mapper

  type Bytes = s: seq<Byte> | |s| == 4096 witness seq(4096, _ => 0)

  function Blank(): Bytes {
    seq(4096, _ => 0)
  }

  /** Virtual page numbers to the frame and flags of their leaf. */
  type PageMap = map<nat, Entry>

  type PageNo = p: nat | p < PAGE_COUNT

  /** The tables on the way to a page. */
  function Way(p: Page): (way: seq<Pos>)
    ensures |way| == 3 && WayOf(p) == {way[0], way[1], way[2]}
  {
    [L3(p.a), L2(p.a, p.b), L1(p.a, p.b, p.c)]
  }

  /** What one `vmap` does: the page is mapped, the tables that were missing on its way are linked, and each took one
      frame. */
  ghost predicate Vmapped(
      free: set<nat>, tables: seq<nat>, linked: set<Pos>, pages: PageMap,
      free': set<nat>, tables': seq<nat>, linked': set<Pos>, pages': PageMap, page: PageNo, frame: nat, flags: Flags)
  {
    && pages' == pages[page := Entry(frame, Mapper.Forced(page, flags))]
    && linked' == linked + WayOf(PageAt(page))
    && tables <= tables' && free' <= free
    && multiset(free') + multiset(tables') == multiset(free) + multiset(tables)
    && |tables'| - |tables| == |linked'| - |linked| == |free| - |free'|
  }

  /** The positions w that are not linked yet. */
  function Unlinked(w: set<Pos>, linked: set<Pos>): set<Pos> {
    w - linked
  }

  lemma LinkedCount(linked: set<Pos>, w: set<Pos>)
    ensures |linked + w| == |linked| + |Unlinked(w, linked)|
  {
    assert linked + w == linked + Unlinked(w, linked);
  }

  lemma LinkedMore(linked: set<Pos>, a: set<Pos>, b: set<Pos>)
    requires a <= b
    ensures |Unlinked(a, linked)| <= |Unlinked(b, linked)|
  {
    assert Unlinked(b, linked) == Unlinked(a, linked) + (Unlinked(b, linked) - Unlinked(a, linked));
  }

  predicate Distinct(s: seq<nat>) {
    forall i, j :: 0 <= i < j < |s| ==> s[i] != s[j]
  }

  function Elements(s: seq<nat>): set<nat> {
    set i | 0 <= i < |s| :: s[i]
  }

  lemma ElementsAppend(s: seq<nat>, x: nat)
    ensures Elements(s + [x]) == Elements(s) + {x}
  {
    assert (s + [x])[|s|] == x;
    forall y | y in Elements(s) + {x}
      ensures y in Elements(s + [x])
    {
      if y in Elements(s) {
        var i :| 0 <= i < |s| && s[i] == y;
        assert (s + [x])[i] == y;
      }
    }
  }

  lemma {:induction false} ElementsMultiset(s: seq<nat>)
    requires Distinct(s)
    ensures multiset(s) == multiset(Elements(s))
  {
    if s != [] {
      var k := |s| - 1;
      ElementsMultiset(s[..k]);
      ElementsAppend(s[..k], s[k]);
      assert s == s[..k] + [s[k]] && s[k] !in Elements(s[..k]);
    }
  }

  // ---------------------------------------------------------------- bytes

  ghost predicate Owned(frames: seq<nat>, cells: map<nat, Bytes>) {
    forall i :: 0 <= i < |frames| ==> frames[i] in cells
  }

  /** The byte at one position of the memory that frames form one after the other. */
  function ByteAt(cells: map<nat, Bytes>, frames: seq<nat>, q: nat): Byte
    requires q < |frames| * PAGE_SIZE && frames[q / PAGE_SIZE] in cells
  {
    cells[frames[q / PAGE_SIZE]][q % PAGE_SIZE]
  }

  /** Consecutive pages show the frames and may be written. */
  ghost predicate Views(pages: PageMap, page: nat, frames: seq<nat>) {
    forall p :: page <= p < page + |frames| ==>
      p in pages && pages[p].frame == frames[p - page] && pages[p].flags.writable
  }

  /** Data was stored from one position on, and nothing else changed. */
  ghost predicate Stored(cells: map<nat, Bytes>, cells': map<nat, Bytes>, frames: seq<nat>, at: nat, data: seq<Byte>) {
    && cells'.Keys == cells.Keys && Owned(frames, cells)
    && (forall f :: f in cells && f !in frames ==> cells'[f] == cells[f])
    && (forall q :: 0 <= q < |frames| * PAGE_SIZE ==>
          ByteAt(cells', frames, q) == if at <= q < at + |data| then data[q - at] else ByteAt(cells, frames, q))
  }

  lemma StoredNext(cells: map<nat, Bytes>, mid: map<nat, Bytes>, frames: seq<nat>, at: nat, data: seq<Byte>, b: Byte)
    requires Stored(cells, mid, frames, at, data) && Distinct(frames) && at + |data| < |frames| * PAGE_SIZE
    ensures var q := at + |data|;
            var f := frames[q / PAGE_SIZE];
            f in mid && Stored(cells, mid[f := mid[f][q % PAGE_SIZE := b]], frames, at, data + [b])
  {
    var q := at + |data|;
    var f := frames[q / PAGE_SIZE];
    var cells' := mid[f := mid[f][q % PAGE_SIZE := b]];
    forall r | 0 <= r < |frames| * PAGE_SIZE
      ensures ByteAt(cells', frames, r) == if r == q then b else ByteAt(mid, frames, r)
    {
      SamePosition(q, r);
    }
  }

  lemma SamePosition(q: nat, r: nat)
    ensures q / PAGE_SIZE == r / PAGE_SIZE && q % PAGE_SIZE == r % PAGE_SIZE <==> q == r
  {
  }

  class Memory {
    /** Every frame the allocator manages. */
    ghost const universe: set<nat>
    var free: set<nat>
    var tables: seq<nat>
    var linked: set<Pos>
    var kernel: seq<nat>
    var pages: PageMap
    var cells: map<nat, Bytes>

    /** Who holds what, with repetition. */
    ghost function Ledger(): multiset<nat>
      reads this
    {
      multiset(free) + multiset(tables) + multiset(kernel)
    }

    ghost predicate Backed()
      reads this`cells
    {
      universe <= cells.Keys
    }

    /** At first every managed frame is free; the pages and tables are those start-up has left. */
    constructor (cells: map<nat, Bytes>, pages: PageMap, linked: set<Pos>)
      ensures universe == cells.Keys == free && Ledger() == multiset(universe) && Backed()
      ensures this.cells == cells && this.pages == pages && this.linked == linked && tables == [] && kernel == []
    {
      universe := cells.Keys;
      free := cells.Keys;
      tables := [];
      this.linked := linked;
      kernel := [];
      this.pages := pages;
      this.cells := cells;
    }

    /** mem::palloc: any free frame, which is then no longer free. */
    method Palloc() returns (frame: Option<nat>)
      modifies this`free
      ensures frame.None? <==> old(free) == {}
      ensures frame.None? ==> free == old(free)
      ensures frame.Some? ==> frame.value in old(free) && free == old(free) - {frame.value}
    {
      if free == {} {
        return None;
      }
      var f :| f in free;
      free := free - {f};
      frame := Some(f);
    }

    method Pfree(frame: nat)
      modifies this`free
      ensures free == old(free) + {frame}
    {
      free := free + {frame};
    }

    method PfreeAll(frames: seq<nat>)
      modifies this`free
      ensures free == old(free) + Elements(frames)
    {
      for i := 0 to |frames|
        invariant free == old(free) + Elements(frames[..i])
      {
        Pfree(frames[i]);
        assert frames[..i + 1] == frames[..i] + [frames[i]];
        ElementsAppend(frames[..i], frames[i]);
      }
      assert frames[..|frames|] == frames;
    }

    /** Makes sure there is a table at one position. */
    method EnsureTable(pos: Pos) returns (ok: bool)
      modifies this`free, this`tables, this`linked
      ensures ok ==> linked == old(linked) + {pos}
      ensures !ok ==> free == {} && linked == old(linked) && pos !in linked
      ensures old(tables) <= tables && free <= old(free) && Ledger() == old(Ledger())
      ensures |tables| - old(|tables|) == |linked| - old(|linked|) == old(|free|) - |free|
    {
      if pos in linked {
        assert linked + {pos} == linked;
        return true;
      }
      var frame := Palloc();
      if frame.None? {
        return false;
      }
      tables := tables + [frame.value];
      linked := linked + {pos};
      assert multiset(old(free)) == multiset(free) + multiset{frame.value};
      ok := true;
    }

    /** mem::vmap of one page: links the tables that are missing, then maps the page.  Fails if and only if fewer frames
        are free than tables are missing. */
    method Vmap(page: PageNo, frame: nat, flags: Flags) returns (ok: bool)
      modifies this`free, this`tables, this`linked, this`pages
      ensures ok <==> |Unlinked(WayOf(PageAt(page)), old(linked))| <= |old(free)|
      ensures ok ==> Vmapped(old(free), old(tables), old(linked), old(pages), free, tables, linked, pages,
                             page, frame, flags)
      ensures !ok ==> pages == old(pages) && free == {}
      ensures old(tables) <= tables && free <= old(free) && Ledger() == old(Ledger())
      ensures |free| + |tables| == old(|free| + |tables|)
    {
      ok := EnsureWay(PageAt(page));
      if ok {
        pages := pages[page := Entry(frame, Mapper.Forced(page, flags))];
        LedgerTables(old(free), old(tables), free, tables, kernel);
      }
    }

    /** The tables on the way to a page. */
    method EnsureWay(p: Page) returns (ok: bool)
      modifies this`free, this`tables, this`linked
      ensures ok <==> |Unlinked(WayOf(p), old(linked))| <= |old(free)|
      ensures ok ==> linked == old(linked) + WayOf(p)
      ensures !ok ==> free == {}
      ensures old(tables) <= tables && free <= old(free) && Ledger() == old(Ledger())
      ensures |tables| - old(|tables|) == |linked| - old(|linked|) == old(|free|) - |free|
    {
      var way := Way(p);
      for i := 0 to 3
        invariant linked == old(linked) + FirstOf(way, i)
        invariant old(tables) <= tables && free <= old(free) && Ledger() == old(Ledger())
        invariant |tables| - old(|tables|) == |linked| - old(|linked|) == old(|free|) - |free|
      {
        FirstOfNext(way, i);
        ok := EnsureTable(way[i]);
        if !ok {
          TooFew(old(linked), linked, FirstOf(way, i + 1), WayOf(p), way[i], |old(free)|);
          return;
        }
      }
      LinkedCount(old(linked), WayOf(p));
      assert FirstOf(way, 3) == WayOf(p);
      ok := true;
    }

    /** mem::vmap_many.  Fails if and only if fewer frames are free than tables are missing on the way to any page. */
    method VmapMany(page: PageNo, frames: seq<nat>, flags: Flags) returns (ok: bool)
      requires page + |frames| <= PAGE_COUNT
      modifies this`free, this`tables, this`linked, this`pages
      ensures ok <==> |Unlinked(Ways(page, |frames|), old(linked))| <= |old(free)|
      ensures ok ==> linked == old(linked) + Ways(page, |frames|)
      ensures ok ==> FramesShown(pages, page, frames, |frames|, flags)
      ensures SameElsewhere(old(pages), pages, page, |frames|, flags)
      ensures !ok ==> free == {}
      ensures old(tables) <= tables && free <= old(free) && Ledger() == old(Ledger())
      ensures |free| + |tables| == old(|free| + |tables|)
      ensures ok ==> |free| + |linked| == old(|free| + |linked|)
    {
      for i := 0 to |frames|
        invariant FramesShown(pages, page, frames, i, flags) && SameElsewhere(old(pages), pages, page, |frames|, flags)
        invariant old(tables) <= tables && free <= old(free) && Ledger() == old(Ledger())
        invariant |free| + |tables| == old(|free| + |tables|)
        invariant Linking(old(linked), |old(free)|, linked, |free|, Ways(page, i))
      {
        ok := VmapNth(page, frames, i, flags, old(pages), old(linked), |old(free)|);
        if !ok {
          return;
        }
      }
      LinkedCount(old(linked), Ways(page, |frames|));
      ok := true;
    }

    /** The round of `vmap_many` that maps page i. */
    method VmapNth(
        page: PageNo, frames: seq<nat>, i: nat, flags: Flags, ghost pages0: PageMap, ghost linked0: set<Pos>,
        ghost had: nat)
      returns (ok: bool)
      requires i < |frames| && page + |frames| <= PAGE_COUNT
      requires FramesShown(pages, page, frames, i, flags) && SameElsewhere(pages0, pages, page, |frames|, flags)
      requires Linking(linked0, had, linked, |free|, Ways(page, i))
      modifies this`free, this`tables, this`linked, this`pages
      ensures ok ==> FramesShown(pages, page, frames, i + 1, flags)
      ensures ok ==> Linking(linked0, had, linked, |free|, Ways(page, i + 1))
      ensures !ok ==> free == {} && |Unlinked(Ways(page, |frames|), linked0)| > had
      ensures SameElsewhere(pages0, pages, page, |frames|, flags)
      ensures old(tables) <= tables && free <= old(free) && Ledger() == old(Ledger())
      ensures |free| + |tables| == old(|free| + |tables|)
    {
      ok := Vmap(page + i, frames[i], flags);
      if ok {
        NthMapped(pages0, linked0, had, old(free), old(tables), old(linked), old(pages), free, tables, linked, pages,
                  page, frames, i, flags);
      } else {
        NthFails(linked0, old(linked), page, i, |frames|, had, |old(free)|);
      }
    }

    /** mem::valloc: new frames behind n pages, which the kernel keeps. */
    method Valloc(page: PageNo, n: nat, flags: Flags) returns (ok: bool)
      requires page + n <= PAGE_COUNT
      modifies this`free, this`tables, this`linked, this`pages, this`kernel
      ensures !ok ==> free == {}
      ensures ok ==> Ledger() == old(Ledger())
      ensures ok ==> old(kernel) <= kernel && |kernel| == |old(kernel)| + n && old(tables) <= tables
      ensures ok ==> forall p :: page <= p < page + n ==>
                p in pages && pages[p] == Entry(kernel[|old(kernel)| + (p - page)], Mapper.Forced(p, flags))
    {
      for i := 0 to n
        invariant Ledger() == old(Ledger()) && old(kernel) <= kernel && |kernel| == |old(kernel)| + i
        invariant old(tables) <= tables
        invariant forall p :: page <= p < page + i ==>
                    p in pages && pages[p] == Entry(kernel[|old(kernel)| + (p - page)], Mapper.Forced(p, flags))
      {
        ok := VallocOne(page + i, flags);
        if !ok {
          return;
        }
      }
      ok := true;
    }

    method VallocOne(page: PageNo, flags: Flags) returns (ok: bool)
      modifies this`free, this`tables, this`linked, this`pages, this`kernel
      ensures !ok ==> free == {}
      ensures ok ==> Ledger() == old(Ledger()) && old(tables) <= tables
      ensures ok ==> |kernel| == |old(kernel)| + 1 && old(kernel) <= kernel
      ensures ok ==> pages == old(pages)[page := Entry(kernel[|old(kernel)|], Mapper.Forced(page, flags))]
    {
      var frame := Palloc();
      if frame.None? {
        return false;
      }
      KernelTakes(old(free), frame.value, tables, kernel);
      kernel := kernel + [frame.value];
      assert Ledger() == old(Ledger());
      ok := Vmap(page, frame.value, flags);
    }

    method Store(address: nat, b: Byte)
      requires address / PAGE_SIZE in pages && pages[address / PAGE_SIZE].flags.writable
      requires pages[address / PAGE_SIZE].frame in cells
      modifies this`cells
      ensures var f := pages[address / PAGE_SIZE].frame;
              cells == old(cells)[f := old(cells)[f][address % PAGE_SIZE := b]]
    {
      var f := pages[address / PAGE_SIZE].frame;
      cells := cells[f := cells[f][address % PAGE_SIZE := b]];
    }

    /** The next byte of the data. */
    method StoreNext(page: nat, ghost frames: seq<nat>, at: nat, data: seq<Byte>, k: nat, ghost before: map<nat, Bytes>)
      requires Views(pages, page, frames) && Distinct(frames) && k < |data| && at + |data| <= |frames| * PAGE_SIZE
      requires Stored(before, cells, frames, at, data[..k])
      modifies this`cells
      ensures Stored(before, cells, frames, at, data[..k + 1])
    {
      StoredNext(before, cells, frames, at, data[..k], data[k]);
      assert data[..k + 1] == data[..k] + [data[k]];
      InRunOfPages(page, at + k);
      Store(page * PAGE_SIZE + at + k, data[k]);
    }

    /** Stores data through consecutive pages, byte by byte; all of it lands in the frames behind them. */
    method StoreAll(page: nat, ghost frames: seq<nat>, at: nat, data: seq<Byte>)
      requires Views(pages, page, frames) && Owned(frames, cells) && Distinct(frames)
      requires at + |data| <= |frames| * PAGE_SIZE
      modifies this`cells
      ensures Stored(old(cells), cells, frames, at, data)
    {
      for k := 0 to |data|
        invariant Stored(old(cells), cells, frames, at, data[..k])
      {
        StoreNext(page, frames, at, data, k, old(cells));
      }
      assert data[..|data|] == data;
    }
  }

  /** The first i positions of a way. */
  function FirstOf(way: seq<Pos>, i: nat): set<Pos>
    requires i <= |way|
  {
    set j | 0 <= j < i :: way[j]
  }

  lemma FirstOfNext(way: seq<Pos>, i: nat)
    requires i < |way|
    ensures FirstOf(way, i + 1) == FirstOf(way, i) + {way[i]}
    ensures |way| == 3 ==> FirstOf(way, i + 1) <= {way[0], way[1], way[2]}
  {
  }

  /** Without a free frame for the next position there were too few for the whole way. */
  lemma TooFew(linked0: set<Pos>, linked: set<Pos>, done: set<Pos>, way: set<Pos>, pos: Pos, had: nat)
    requires pos !in linked && linked + {pos} == linked0 + done && done <= way && |linked| - |linked0| == had
    ensures |Unlinked(way, linked0)| > had
  {
    LinkedCount(linked0, done);
    LinkedMore(linked0, done, way);
  }

  /** The positions `done` have been linked, and each that was not linked before took a frame. */
  ghost predicate Linking(linked0: set<Pos>, had: nat, linked: set<Pos>, left: nat, done: set<Pos>) {
    linked == linked0 + done && left + |linked| == had + |linked0|
  }

  lemma LinkingNext(
      linked0: set<Pos>, had: nat, linked: set<Pos>, left: nat, done: set<Pos>, w: set<Pos>, linked': set<Pos>,
      left': nat)
    requires Linking(linked0, had, linked, left, done) && linked' == linked + w
    requires left' + |linked'| == left + |linked|
    ensures Linking(linked0, had, linked', left', done + w)
  {
  }

  /** Too few frames for one more way are too few for all of them. */
  lemma TooFewFor(linked0: set<Pos>, linked: set<Pos>, done: set<Pos>, w: set<Pos>, all: set<Pos>, had: nat, left: nat)
    requires Linking(linked0, had, linked, left, done) && done + w <= all
    requires |Unlinked(w, linked)| > left
    ensures |Unlinked(all, linked0)| > had
  {
    LinkedCount(linked, w);
    assert linked + w == linked0 + (done + w);
    LinkedCount(linked0, done + w);
    LinkedMore(linked0, done + w, all);
  }

  /** The first n pages show the frames. */
  ghost predicate FramesShown(pages: PageMap, page: nat, frames: seq<nat>, n: nat, flags: Flags)
    requires n <= |frames|
  {
    forall p :: page <= p < page + n ==> p in pages && pages[p] == Entry(frames[p - page], Mapper.Forced(p, flags))
  }

  /** Pages that are none of the n are as they were, and of these some may have been mapped with the flags. */
  ghost predicate SameElsewhere(pages0: PageMap, pages: PageMap, page: nat, n: nat, flags: Flags) {
    forall p ::
      || ((p in pages <==> p in pages0) && (p in pages ==> pages[p] == pages0[p]))
      || (page <= p < page + n && p in pages && pages[p].flags == Mapper.Forced(p, flags))
  }

  lemma ShownNext(
      pages0: PageMap, pages: PageMap, pages': PageMap, page: nat, frames: seq<nat>, i: nat, flags: Flags)
    requires i < |frames| && FramesShown(pages, page, frames, i, flags)
    requires SameElsewhere(pages0, pages, page, |frames|, flags)
    requires pages' == pages[page + i := Entry(frames[i], Mapper.Forced(page + i, flags))]
    ensures FramesShown(pages', page, frames, i + 1, flags) && SameElsewhere(pages0, pages', page, |frames|, flags)
  {
  }

  lemma NthMapped(
      pages0: PageMap, linked0: set<Pos>, had: nat, free: set<nat>, tables: seq<nat>, linked: set<Pos>, pages: PageMap,
      free': set<nat>, tables': seq<nat>, linked': set<Pos>, pages': PageMap, page: nat, frames: seq<nat>, i: nat,
      flags: Flags)
    requires i < |frames| && page + |frames| <= PAGE_COUNT
    requires FramesShown(pages, page, frames, i, flags) && SameElsewhere(pages0, pages, page, |frames|, flags)
    requires Linking(linked0, had, linked, |free|, Ways(page, i))
    requires Vmapped(free, tables, linked, pages, free', tables', linked', pages', page + i, frames[i], flags)
    ensures FramesShown(pages', page, frames, i + 1, flags) && SameElsewhere(pages0, pages', page, |frames|, flags)
    ensures Linking(linked0, had, linked', |free'|, Ways(page, i + 1))
  {
    var w := WayOf(PageAt(page + i));
    WaysNext(page, i, |frames|, w);
    ShownNext(pages0, pages, pages', page, frames, i, flags);
    LinkingNext(linked0, had, linked, |free|, Ways(page, i), w, linked', |free'|);
  }

  lemma NthFails(linked0: set<Pos>, linked: set<Pos>, page: nat, i: nat, n: nat, had: nat, left: nat)
    requires i < n && page + n <= PAGE_COUNT && Linking(linked0, had, linked, left, Ways(page, i))
    requires |Unlinked(WayOf(PageAt(page + i)), linked)| > left
    ensures |Unlinked(Ways(page, n), linked0)| > had
  {
    var w := WayOf(PageAt(page + i));
    WaysNext(page, i, n, w);
    TooFewFor(linked0, linked, Ways(page, i), w, Ways(page, n), had, left);
  }

  lemma WaysNext(page: nat, i: nat, n: nat, w: set<Pos>)
    requires i < n && page + i < PAGE_COUNT && w == WayOf(PageAt(page + i))
    ensures Ways(page, i + 1) == Ways(page, i) + w <= Ways(page, n)
  {
    WaysGrow(page, i + 1, n);
  }

  /** With the kernel's frames unchanged, free frames have only turned into tables. */
  lemma LedgerTables(free: set<nat>, tables: seq<nat>, free': set<nat>, tables': seq<nat>, kernel: seq<nat>)
    requires multiset(free') + multiset(tables') + multiset(kernel) ==
             multiset(free) + multiset(tables) + multiset(kernel)
    ensures multiset(free') + multiset(tables') == multiset(free) + multiset(tables)
  {
    var (a, b) := (multiset(free) + multiset(tables), multiset(free') + multiset(tables'));
    forall x
      ensures a[x] == b[x]
    {
      assert (a + multiset(kernel))[x] == (b + multiset(kernel))[x];
    }
  }

  lemma KernelTakes(free: set<nat>, f: nat, tables: seq<nat>, kernel: seq<nat>)
    requires f in free
    ensures multiset(free - {f}) + multiset(tables) + multiset(kernel + [f]) ==
            multiset(free) + multiset(tables) + multiset(kernel)
  {
    assert multiset(free) == multiset(free - {f}) + multiset{f};
  }

  lemma InRunOfPages(page: nat, q: nat)
    ensures (page * PAGE_SIZE + q) / PAGE_SIZE == page + q / PAGE_SIZE
    ensures (page * PAGE_SIZE + q) % PAGE_SIZE == q % PAGE_SIZE
  {
  }
}
