/**
 Four-level page tables in physical memory (Intel SDM volume 3A, section 4.5): the hardware walk, the tree the
 tables form, and how far the effect of one store reaches.
 */
module Paging {
  import opened Wrappers

  type Idx = i: nat | i < 512

  /** The flag bits the kernel reads or writes; `other` holds the remaining bits. */
  datatype Flags = Flags(present: bool, writable: bool, user: bool, global: bool, huge: bool, other: nat)

  datatype Entry = Entry(frame: nat, flags: Flags)

  const NO_FLAGS := Flags(false, false, false, false, false, 0)
  const UNUSED := Entry(0, NO_FLAGS)

  type Table = t: seq<Entry> | |t| == 512 witness seq(512, _ => UNUSED)

  function Zeroed(): (t: Table)
    ensures forall i: Idx :: t[i] == UNUSED
  {
    seq(512, _ => UNUSED)
  }

  /** Physical memory, frame by frame, read as page tables. */
  type Ram = map<nat, Table>

  function Get(ram: Ram, f: nat, i: Idx): Entry {
    if f in ram then ram[f][i] else UNUSED
  }

  function Put(ram: Ram, f: nat, i: Idx, e: Entry): Ram
    requires f in ram
  {
    ram[f := ram[f][i := e]]
  }

  /** The entry leads to a table of the next level. */
  predicate Link(e: Entry) {
    e.flags.present && !e.flags.huge
  }

  // ---------------------------------------------------------------- pages

  /** A 4 KiB page by its four table indices, from the root down. */
  datatype Page = Page(a: Idx, b: Idx, c: Idx, d: Idx)

  function Number(p: Page): nat {
    ((p.a * 512 + p.b) * 512 + p.c) * 512 + p.d
  }

  const PAGE_COUNT: nat := 0x10_0000_0000

  function PageAt(n: nat): Page
    requires n < PAGE_COUNT
  {
    Page(n / 0x800_0000, n / 0x4_0000 % 512, n / 512 % 512, n % 512)
  }

  lemma PageNumber(n: nat, p: Page)
    requires n < PAGE_COUNT
    ensures Number(p) < PAGE_COUNT
    ensures PageAt(n) == p <==> n == Number(p)
  {
    var q := PageAt(n);
    assert n / 512 == (q.a * 512 + q.b) * 512 + q.c && n / 0x4_0000 == q.a * 512 + q.b;
    if n == Number(p) {
      assert n / 512 == (p.a * 512 + p.b) * 512 + p.c;
      assert n / 0x4_0000 == p.a * 512 + p.b;
    }
  }

  // ---------------------------------------------------------------- the walk

  function Walk1(ram: Ram, f: nat, p: Page): Option<Entry> {
    var e := Get(ram, f, p.d);
    if e.flags.present then Some(e) else None
  }

  function Walk2(ram: Ram, f: nat, p: Page): Option<Entry> {
    var e := Get(ram, f, p.c);
    if !e.flags.present then None
    else if e.flags.huge then Some(Entry(e.frame + p.d, e.flags))
    else Walk1(ram, e.frame, p)
  }

  function Walk3(ram: Ram, f: nat, p: Page): Option<Entry> {
    var e := Get(ram, f, p.b);
    if !e.flags.present then None
    else if e.flags.huge then Some(Entry(e.frame + 512 * p.c + p.d, e.flags))
    else Walk2(ram, e.frame, p)
  }

  /** The frame and leaf flags the hardware finds for a page, if it is mapped. */
  function Walk(ram: Ram, root: nat, p: Page): Option<Entry> {
    var e := Get(ram, root, p.a);
    if Link(e) then Walk3(ram, e.frame, p) else None
  }

  // ---------------------------------------------------------------- rights

  /** What a mapped page may be used for. */
  datatype Access = Access(writable: bool, user: bool)

  function Leaf(e: Entry): Access {
    Access(e.flags.writable, e.flags.user)
  }

  function Both(a: Access, b: Access): Access {
    Access(a.writable && b.writable, a.user && b.user)
  }

  /** The rights the hardware grants (Intel SDM volume 3A, section 4.6): those that every entry on the path grants. */
  function Effective(ram: Ram, root: nat, p: Page): Option<Access> {
    var e4 := Get(ram, root, p.a);
    if !Link(e4) then None else
      var e3 := Get(ram, e4.frame, p.b);
      if !e3.flags.present then None
      else if e3.flags.huge then Some(Both(Leaf(e4), Leaf(e3)))
      else
        var e2 := Get(ram, e3.frame, p.c);
        if !e2.flags.present then None
        else if e2.flags.huge then Some(Both(Both(Leaf(e4), Leaf(e3)), Leaf(e2)))
        else
          var e1 := Get(ram, e2.frame, p.d);
          if !e1.flags.present then None
          else Some(Both(Both(Leaf(e4), Leaf(e3)), Both(Leaf(e2), Leaf(e1))))
  }

  /** The kernel may store through the page; it runs with write protection on, so the rights bind it too. */
  predicate MayWrite(ram: Ram, root: nat, p: Page) {
    Effective(ram, root, p).Some? && Effective(ram, root, p).value.writable
  }

  // ---------------------------------------------------------------- the tree

  /** Where a table hangs: the indices that lead to it from the root. */
  datatype Pos = Root | L3(a: Idx) | L2(a: Idx, b: Idx) | L1(a: Idx, b: Idx, c: Idx)

  function Child(pos: Pos, i: Idx): Pos
    requires !pos.L1?
  {
    match pos
    case Root => L3(i)
    case L3(a) => L2(a, i)
    case L2(a, b) => L1(a, b, i)
  }

  /** The walk for p passes through position pos, if there is a table there. */
  predicate Covers(pos: Pos, p: Page) {
    match pos
    case Root => true
    case L3(a) => p.a == a
    case L2(a, b) => p.a == a && p.b == b
    case L1(a, b, c) => p.a == a && p.b == b && p.c == c
  }

  /** The entry the walk for p reads at position pos. */
  function IndexAt(pos: Pos, p: Page): Idx {
    match pos
    case Root => p.a
    case L3(_) => p.b
    case L2(_, _) => p.c
    case L1(_, _, _) => p.d
  }

  predicate Reads(pos: Pos, i: Idx, p: Page) {
    Covers(pos, p) && IndexAt(pos, p) == i
  }

  /** `owner` gives every table frame its one position, and links agree with it.  The contents of the frames in
      `hole` (tables linked but not yet cleared) are not constrained. */
  ghost predicate Tree(ram: Ram, root: nat, owner: map<nat, Pos>, hole: set<nat>) {
    && root in owner && root !in hole && (forall f :: f in owner ==> (owner[f] == Root <==> f == root))
    && owner.Keys <= ram.Keys && hole <= owner.Keys
    && (forall f, i: Idx :: f in owner && f !in hole && !owner[f].L1? && Link(ram[f][i]) ==>
          ram[f][i].frame in owner && owner[ram[f][i].frame] == Child(owner[f], i))
  }

  ghost predicate Clear(owner: map<nat, Pos>, hole: set<nat>, p: Page) {
    forall h :: h in hole && h in owner ==> !Covers(owner[h], p)
  }

  /** A store into a table is seen only by the pages whose walk reads that very entry. */
  lemma WriteLocal(ram: Ram, root: nat, owner: map<nat, Pos>, hole: set<nat>, f: nat, i: Idx, e: Entry, p: Page)
    requires Tree(ram, root, owner, hole) && f in owner && Clear(owner, hole, p)
    requires !Reads(owner[f], i, p)
    ensures Walk(Put(ram, f, i, e), root, p) == Walk(ram, root, p)
  {
  }

  /** A store into a frame that is not a table is seen by no page. */
  lemma OffTreeWrite(ram: Ram, root: nat, owner: map<nat, Pos>, hole: set<nat>, f: nat, t: Table, p: Page)
    requires Tree(ram, root, owner, hole) && Clear(owner, hole, p)
    requires f !in owner || f in hole
    ensures Walk(ram[f := t], root, p) == Walk(ram, root, p)
  {
  }
}
