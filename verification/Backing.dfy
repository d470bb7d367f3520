/**
 The plain memory that programs are loaded into stands for page tables in physical memory: page map, linked tables, free
 frames and the bytes of the other frames.  A one-page call of the mapper is a `vmap` of the plain memory.
 */
module Backing {
  import opened Paging
  import opened Window
  import opened Tables
  import opened Steps
  import opened Ranges
  import opened Mapper
  import opened Memory
  import opened Loader

  /** The plain memory stands for m; `read` says which bytes the words of a frame are. */
  ghost predicate StandsFor(
      m: Mem, root: nat, pages: PageMap, linked: set<Pos>, free: set<nat>, cells: map<nat, Bytes>, read: Table -> Bytes)
  {
    && (forall p :: !InWindow(p) ==> Lookup(pages, Number(p)) == Walk(m.ram, root, p))
    && (forall pos :: pos in linked <==> At(m.ram, root, pos).Some? && !pos.Root?)
    && free == m.free
    && (forall f :: f in cells && f !in m.owner ==> f in m.ram && cells[f] == read(m.ram[f]))
  }

  /** A call for one page does to the tables what `vmap` does to the plain memory, and changes no byte outside them. */
  lemma MapIsVmap(
      m: Mem, m': Mem, root: nat, page: PageNo, frame: nat, flags: Flags, flush: bool, pages: PageMap, linked: set<Pos>,
      tables: seq<nat>, cells: map<nat, Bytes>, read: Table -> Bytes)
    returns (tables': seq<nat>)
    requires StandsFor(m, root, pages, linked, m.free, cells, read) && CanonicalRun(page, 1)
    requires Mapped(m, m', root, page, 1, frame, Forced(page, flags), flush)
    ensures var (linked', pages') := (linked + WayOf(PageAt(page)), pages[page := Entry(frame, Forced(page, flags))]);
            && StandsFor(m', root, pages', linked', m'.free, cells, read)
            && Vmapped(m.free, tables, linked, pages, m'.free, tables', linked', pages', page, frame, flags)
    ensures m'.owner.Keys == m.owner.Keys + (m.free - m'.free)
  {
    var (w, pages') := (WayOf(PageAt(page)), pages[page := Entry(frame, Forced(page, flags))]);
    OneWay(page);
    PagesFollow(m, m', root, page, frame, Forced(page, flags), pages);
    LinksFollow(m, m', root, w, linked);
    BytesFollow(m, m', cells, read);
    tables' := BooksFollow(m, m', root, w, linked, tables);
  }

  /** The frames that are no longer free are the tables that were missing. */
  lemma BooksFollow(m: Mem, m': Mem, root: nat, w: set<Pos>, linked: set<Pos>, tables: seq<nat>)
    returns (tables': seq<nat>)
    requires forall pos :: pos in linked <==> At(m.ram, root, pos).Some? && !pos.Root?
    requires Gains(m, m', root, w) && Root !in w && m'.free <= m.free
    ensures tables <= tables' && multiset(m'.free) + multiset(tables') == multiset(m.free) + multiset(tables)
    ensures |tables'| - |tables| == |linked + w| - |linked| == |m.free| - |m'.free|
  {
    var taken := m.free - m'.free;
    var list := Listed(taken);
    tables' := tables + list;
    assert m.free == m'.free + taken;
    assert multiset(m.free) == multiset(m'.free) + multiset(taken);
    LinkedCount(linked, w);
    LackingIsUnlinked(m, root, w, linked);
  }

  /** And it fails exactly when `vmap` does. */
  lemma ShortIsFull(
      m: Mem, root: nat, page: PageNo, pages: PageMap, linked: set<Pos>, cells: map<nat, Bytes>, read: Table -> Bytes)
    requires StandsFor(m, root, pages, linked, m.free, cells, read)
    ensures Short(m, root, Ways(page, 1)) <==> |Unlinked(WayOf(PageAt(page)), linked)| > |m.free|
  {
    OneWay(page);
    LackingIsUnlinked(m, root, WayOf(PageAt(page)), linked);
  }

  lemma OneWay(page: PageNo)
    ensures Ways(page, 1) == WayOf(PageAt(page))
  {
    assert Ways(page, 0) == {};
  }

  lemma LackingIsUnlinked(m: Mem, root: nat, w: set<Pos>, linked: set<Pos>)
    requires forall pos :: pos in linked <==> At(m.ram, root, pos).Some? && !pos.Root?
    requires Root !in w
    ensures Lacking(m.ram, root, w) == Unlinked(w, linked)
  {
  }

  lemma PagesFollow(m: Mem, m': Mem, root: nat, page: PageNo, frame: nat, flags: Flags, pages: PageMap)
    requires forall p :: !InWindow(p) ==> Lookup(pages, Number(p)) == Walk(m.ram, root, p)
    requires Progress(m, m', root, page, 1, frame, flags)
    ensures forall p :: !InWindow(p) ==> Lookup(pages[page := Entry(frame, flags)], Number(p)) == Walk(m'.ram, root, p)
  {
    forall p | !InWindow(p)
      ensures Lookup(pages[page := Entry(frame, flags)], Number(p)) == Walk(m'.ram, root, p)
    {
      assert Walk(m'.ram, root, p) == Overlaid(Walk(m.ram, root, p), p, page, 1, frame, flags);
    }
  }

  lemma LinksFollow(m: Mem, m': Mem, root: nat, w: set<Pos>, linked: set<Pos>)
    requires forall pos :: pos in linked <==> At(m.ram, root, pos).Some? && !pos.Root?
    requires Gains(m, m', root, w) && Root !in w
    ensures forall pos :: pos in linked + w <==> At(m'.ram, root, pos).Some? && !pos.Root?
  {
  }

  lemma BytesFollow(m: Mem, m': Mem, cells: map<nat, Bytes>, read: Table -> Bytes)
    requires Accounted(m, m') && DataKept(m, m')
    requires forall f :: f in cells && f !in m.owner ==> f in m.ram && cells[f] == read(m.ram[f])
    ensures forall f :: f in cells && f !in m'.owner ==> f in m'.ram && cells[f] == read(m'.ram[f])
  {
  }

  /** The elements of a set in some order. */
  lemma {:induction false} Listed(s: set<nat>) returns (list: seq<nat>)
    ensures multiset(list) == multiset(s) && |list| == |s|
    decreases s
  {
    if s == {} {
      list := [];
    } else {
      var x :| x in s;
      var rest := Listed(s - {x});
      list := rest + [x];
      assert s == (s - {x}) + {x};
      assert multiset(s) == multiset(s - {x}) + multiset{x};
    }
  }
}
