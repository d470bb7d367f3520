/**
 What a step down the tables keeps, for every page outside the window: translations, rights, and what the
 translation buffer may hold.  The relation composes, so a whole descent keeps it.
 */
module Steps {
  import opened Wrappers
  import opened Paging
  import opened Hardware
  import opened Window
  import opened Tables

  /** Memory, buffer, table positions and free frames at one moment. */
  datatype Mem = Mem(ram: Ram, tlb: Tlb, owner: map<nat, Pos>, free: set<nat>)

  /** Every link in the lower half lets user code through and lets it write. */
  ghost predicate UserLinks(ram: Ram, owner: map<nat, Pos>) {
    forall f, i: Idx :: f in owner && !owner[f].L1? && Link(Get(ram, f, i)) && Lower(Child(owner[f], i)) ==>
      Get(ram, f, i).flags.writable && Get(ram, f, i).flags.user
  }

  /** Every link lets stores through. */
  ghost predicate WriteLinks(ram: Ram, owner: map<nat, Pos>) {
    forall f, i: Idx :: f in owner && !owner[f].L1? && Link(Get(ram, f, i)) ==> Get(ram, f, i).flags.writable
  }

  /** No link in kernel space lets user code through. */
  ghost predicate ShutLinks(ram: Ram, owner: map<nat, Pos>) {
    forall f, i: Idx :: f in owner && !owner[f].L1? && Link(Get(ram, f, i)) && !Lower(Child(owner[f], i)) ==>
      !Get(ram, f, i).flags.user
  }

  ghost predicate NewLinks(m: Mem, m': Mem) {
    LinksFrom(m.ram, m.owner, m'.ram, m'.owner)
  }

  /** The links the kernel makes keep all three. */
  lemma LinksKept(m: Mem, m': Mem)
    requires NewLinks(m, m')
    ensures UserLinks(m.ram, m.owner) ==> UserLinks(m'.ram, m'.owner)
    ensures WriteLinks(m.ram, m.owner) ==> WriteLinks(m'.ram, m'.owner)
    ensures ShutLinks(m.ram, m.owner) ==> ShutLinks(m'.ram, m'.owner)
  {
  }

  lemma NewLinksTransitive(m: Mem, m': Mem, m'': Mem)
    requires NewLinks(m, m') && NewLinks(m', m'')
    ensures NewLinks(m, m'')
  {
    LinksFromTransitive(m.ram, m.owner, m'.ram, m'.owner, m''.ram, m''.owner);
  }

  /** Every free frame is tame: linked as a table before it is cleared, it leads to no global translation. */
  ghost predicate AllTame(ram: Ram, free: set<nat>) {
    forall f :: f in free && f in ram ==> Tame(ram[f], f)
  }

  ghost predicate WellPlaced(m: Mem, root: nat, s: Spine) {
    Tree(m.ram, root, m.owner, {}) && Hangs(m.owner, {}, s) && m.free !! m.owner.Keys && m.free <= m.ram.Keys
  }

  ghost predicate SameTranslations(m: Mem, m': Mem, root: nat) {
    && (forall p :: !InWindow(p) ==> Walk(m'.ram, root, p) == Walk(m.ram, root, p))
    && (forall p :: !InWindow(p) && PathOk(m.ram, root, p) ==> PathOk(m'.ram, root, p))
    && (forall pos :: At(m.ram, root, pos).Some? ==> At(m'.ram, root, pos) == At(m.ram, root, pos))
  }

  /** Nothing new in the buffer about a mapped page. */
  ghost predicate QuietBuffer(m: Mem, m': Mem, root: nat) {
    forall p :: !InWindow(p) && Walk(m.ram, root, p).Some? ==> Filled(m.tlb, m'.tlb, m'.ram, root, p)
  }

  /** Tame frames stay tame, and bring no new global translation into the buffer. */
  ghost predicate KeepsTame(m: Mem, m': Mem, root: nat) {
    AllTame(m.ram, m.free) ==> AllTame(m'.ram, m'.free) && NoNewGlobal(m.ram, m.tlb, m'.ram, m'.tlb, root)
  }

  /** The frames taken from the free set are exactly the new tables. */
  ghost predicate Accounted(m: Mem, m': Mem) {
    m'.free <= m.free && m'.owner.Keys == m.owner.Keys + (m.free - m'.free)
  }

  /** Frames that are no tables afterwards hold what they held. */
  ghost predicate DataKept(m: Mem, m': Mem) {
    Untouched(m.ram, m'.ram, m'.owner)
  }

  lemma AccountedTransitive(m: Mem, m': Mem, m'': Mem)
    requires Accounted(m, m') && Accounted(m', m'')
    ensures Accounted(m, m'')
    ensures DataKept(m, m') && DataKept(m', m'') ==> DataKept(m, m'')
  {
    assert m.free - m''.free == (m.free - m'.free) + (m'.free - m''.free);
  }

  ghost predicate Gentle(m: Mem, m': Mem, root: nat) {
    && SameTranslations(m, m', root)
    && QuietBuffer(m, m', root)
    && Accounted(m, m') && DataKept(m, m') && m'.ram.Keys == m.ram.Keys
    && KeepsTame(m, m', root)
  }

  lemma GentleTransitive(m: Mem, m': Mem, m'': Mem, root: nat)
    requires Gentle(m, m', root) && Gentle(m', m'', root)
    ensures Gentle(m, m'', root)
  {
    AccountedTransitive(m, m', m'');
    forall p | !InWindow(p)
      ensures Walk(m''.ram, root, p) == Walk(m.ram, root, p)
      ensures PathOk(m.ram, root, p) ==> PathOk(m''.ram, root, p)
      ensures Walk(m.ram, root, p).Some? ==> Filled(m.tlb, m''.tlb, m''.ram, root, p)
    {
      assert Walk(m'.ram, root, p) == Walk(m.ram, root, p);
      assert PathOk(m.ram, root, p) ==> PathOk(m'.ram, root, p);
      if Walk(m.ram, root, p).Some? {
        assert Filled(m.tlb, m'.tlb, m'.ram, root, p) && Filled(m'.tlb, m''.tlb, m''.ram, root, p);
      }
    }
    assert AllTame(m.ram, m.free) ==> NoNewGlobal(m.ram, m.tlb, m''.ram, m''.tlb, root);
  }

  // ---------------------------------------------------------------- counting tables

  /** The positions of the tables on the way to a page. */
  function WayOf(q: Page): set<Pos> {
    {L3(q.a), L2(q.a, q.b), L1(q.a, q.b, q.c)}
  }

  /** The positions where there is no table yet. */
  ghost function Lacking(ram: Ram, root: nat, w: set<Pos>): set<Pos> {
    set pos | pos in w && At(ram, root, pos).None?
  }

  /** Tables appeared at the positions w that lacked one, and nowhere else, and each took one frame. */
  ghost predicate Gains(m: Mem, m': Mem, root: nat, w: set<Pos>) {
    && (forall pos :: At(m'.ram, root, pos).Some? <==> At(m.ram, root, pos).Some? || pos in w)
    && |m.free| == |m'.free| + |Lacking(m.ram, root, w)|
  }

  /** There are fewer free frames than tables lacking. */
  ghost predicate Short(m: Mem, root: nat, w: set<Pos>) {
    |m.free| < |Lacking(m.ram, root, w)|
  }

  lemma LackingSum(m: Mem, m': Mem, root: nat, w: set<Pos>, w': set<Pos>)
    requires Gains(m, m', root, w)
    ensures |Lacking(m.ram, root, w + w')| == |Lacking(m.ram, root, w)| + |Lacking(m'.ram, root, w')|
  {
    var (a, b) := (Lacking(m.ram, root, w), Lacking(m'.ram, root, w'));
    assert Lacking(m.ram, root, w + w') == a + b && a !! b;
  }

  lemma GainsTransitive(m: Mem, m': Mem, m'': Mem, root: nat, w: set<Pos>, w': set<Pos>)
    requires Gains(m, m', root, w) && Gains(m', m'', root, w')
    ensures Gains(m, m'', root, w + w')
  {
    LackingSum(m, m', root, w, w');
  }

  lemma ShortAfter(m: Mem, m': Mem, root: nat, w: set<Pos>, w': set<Pos>)
    requires Gains(m, m', root, w) && Short(m', root, w')
    ensures Short(m, root, w + w')
  {
    LackingSum(m, m', root, w, w');
  }

  lemma ShortSame(m: Mem, m': Mem, root: nat, w: set<Pos>)
    requires Gains(m, m', root, {}) && Short(m', root, w)
    ensures Short(m, root, w)
  {
    ShortAfter(m, m', root, {}, w);
    assert {} + w == w;
  }

  lemma ShortMore(m: Mem, root: nat, w: set<Pos>, w': set<Pos>)
    requires Short(m, root, w) && w <= w'
    ensures Short(m, root, w')
  {
    var (a, b) := (Lacking(m.ram, root, w), Lacking(m.ram, root, w'));
    assert b == a + (b - a);
  }

  lemma DescendedGains(m: Mem, m': Mem, root: nat, s: Spine, t: nat, i: Idx, f: nat, user: bool)
    requires WellPlaced(m, root, s) && CanDescend(m.ram, root, m.owner, t, i)
    requires Descended(m.ram, m.owner, m'.ram, m'.owner, root, s, t, i, f, user)
    requires m'.free == m.free - {f} && (Get(m.ram, t, i) == UNUSED ==> f in m.free)
    ensures Gains(m, m', root, {Child(m.owner[t], i)})
  {
    var child := Child(m.owner[t], i);
    forall pos
      ensures At(m'.ram, root, pos).Some? <==> At(m.ram, root, pos).Some? || pos == child
      ensures At(m.ram, root, child).None? <==> Get(m.ram, t, i) == UNUSED
    {
      DescendedAt(m.ram, m.owner, m'.ram, m'.owner, root, s, t, i, f, user, pos);
    }
    if Get(m.ram, t, i) == UNUSED {
      assert Lacking(m.ram, root, {child}) == {child};
    } else {
      assert f in m.owner && m'.free == m.free;
      assert Lacking(m.ram, root, {child}) == {};
    }
  }

  /** With the same tables nothing is gained. */
  lemma NoGain(m: Mem, m': Mem, root: nat)
    requires m'.free == m.free && forall pos :: At(m'.ram, root, pos).Some? <==> At(m.ram, root, pos).Some?
    ensures Gains(m, m', root, {})
  {
    assert Lacking(m.ram, root, {}) == {};
  }

  /** A step down is gentle. */
  lemma DescendedGentle(m: Mem, m': Mem, root: nat, s: Spine, t: nat, i: Idx, f: nat, user: bool)
    requires WellPlaced(m, root, s) && CanDescend(m.ram, root, m.owner, t, i)
    requires Descended(m.ram, m.owner, m'.ram, m'.owner, root, s, t, i, f, user)
    requires OthersFilled(m.ram, m.owner, t, i, m.tlb, m'.tlb, m'.ram, root)
    requires AllTame(m.ram, m.free) ==> NoNewGlobal(m.ram, m.tlb, m'.ram, m'.tlb, root)
    requires m'.free == m.free - {f} && (Get(m.ram, t, i) == UNUSED ==> f in m.free)
    requires Tree(m'.ram, root, m'.owner, {})
    ensures WellPlaced(m', root, s) && Gentle(m, m', root)
  {
    DescendedKeys(m, m', root, s, t, i, f, user);
    forall p | !InWindow(p)
      ensures Walk(m'.ram, root, p) == Walk(m.ram, root, p)
      ensures PathOk(m.ram, root, p) ==> PathOk(m'.ram, root, p)
      ensures Walk(m.ram, root, p).Some? ==> !Exposed(m.ram, m.owner, t, i, p)
    {
      DescendedWalk(m.ram, m.owner, m'.ram, m'.owner, root, s, t, i, f, user, p);
    }
    forall pos | At(m.ram, root, pos).Some?
      ensures At(m'.ram, root, pos) == At(m.ram, root, pos)
    {
      DescendedAt(m.ram, m.owner, m'.ram, m'.owner, root, s, t, i, f, user, pos);
    }
  }

  lemma DescendedKeys(m: Mem, m': Mem, root: nat, s: Spine, t: nat, i: Idx, f: nat, user: bool)
    requires WellPlaced(m, root, s) && CanDescend(m.ram, root, m.owner, t, i)
    requires Descended(m.ram, m.owner, m'.ram, m'.owner, root, s, t, i, f, user)
    requires m'.free == m.free - {f} && (Get(m.ram, t, i) == UNUSED ==> f in m.free)
    ensures m'.ram.Keys == m.ram.Keys && m'.free !! m'.owner.Keys && Hangs(m'.owner, {}, s) && Accounted(m, m')
    ensures DataKept(m, m')
    ensures forall g :: g in m'.free && g in m.ram ==> m'.ram[g] == m.ram[g]
  {
    assert forall h: Idx :: h < 4 ==> s.tabs[h] in m.owner;
    assert forall g :: g in m.free ==> g !in s.tabs && g != t;
  }

  /** A step down brings no link but the one it may have to make. */
  lemma DescendedLinks(m: Mem, m': Mem, root: nat, s: Spine, t: nat, i: Idx, f: nat, user: bool)
    requires CanDescend(m.ram, root, m.owner, t, i) && Hangs(m.owner, {}, s)
    requires Descended(m.ram, m.owner, m'.ram, m'.owner, root, s, t, i, f, user)
    requires user == Lower(Child(m.owner[t], i))
    ensures NewLinks(m, m')
  {
    if Get(m.ram, t, i) == UNUSED {
      var grown := Grown(m.ram, t, i, f, TableFlags(user));
      GrownTree(m.ram, root, m.owner, t, i, f, TableFlags(user));
      GrownLinks(m.ram, root, m.owner, t, i, f, TableFlags(user));
      HangsGrown(m.owner, s, f, Child(m.owner[t], i));
      TabsLinks(grown, m'.ram, root, m'.owner, s);
      LinksFromTransitive(m.ram, m.owner, grown, m'.owner, m'.ram, m'.owner);
    } else {
      TabsLinks(m.ram, m'.ram, root, m.owner, s);
    }
  }

  /** Everything a way down promises: it is gentle, creates exactly the tables lacking at w, and links them as the
      kernel does. */
  ghost predicate Deepens(m: Mem, m': Mem, root: nat, w: set<Pos>) {
    Gentle(m, m', root) && Gains(m, m', root, w) && NewLinks(m, m')
  }

  lemma DeepensTransitive(m: Mem, m': Mem, m'': Mem, root: nat, w: set<Pos>, w': set<Pos>)
    requires Deepens(m, m', root, w) && Deepens(m', m'', root, w')
    ensures Deepens(m, m'', root, w + w')
  {
    GentleTransitive(m, m', m'', root);
    GainsTransitive(m, m', m'', root, w, w');
    NewLinksTransitive(m, m', m'');
  }

  /** The two upper tables on the way to a page. */
  function UpperWay(q: Page): set<Pos> {
    {L3(q.a)} + {L2(q.a, q.b)}
  }

  lemma WholeWay(q: Page)
    ensures UpperWay(q) + {L1(q.a, q.b, q.c)} == WayOf(q)
  {
  }

  /** The table below entry i of table t is f: followed, or new and taken from the free frames. */
  ghost predicate StepsDown(m: Mem, m': Mem, root: nat, s: Spine, t: nat, i: Idx, f: nat, user: bool)
    requires CanDescend(m.ram, root, m.owner, t, i)
  {
    && Descended(m.ram, m.owner, m'.ram, m'.owner, root, s, t, i, f, user)
    && OthersFilled(m.ram, m.owner, t, i, m.tlb, m'.tlb, m'.ram, root)
    && (AllTame(m.ram, m.free) ==> NoNewGlobal(m.ram, m.tlb, m'.ram, m'.tlb, root))
    && m'.free == m.free - {f} && (Get(m.ram, t, i) == UNUSED ==> f in m.free)
  }

  /** One step down the tables. */
  lemma DescendedDeepens(m: Mem, m': Mem, root: nat, s: Spine, t: nat, i: Idx, f: nat, user: bool)
    requires WellPlaced(m, root, s) && CanDescend(m.ram, root, m.owner, t, i)
    requires StepsDown(m, m', root, s, t, i, f, user)
    requires Tree(m'.ram, root, m'.owner, {}) && user == Lower(Child(m.owner[t], i))
    ensures WellPlaced(m', root, s) && Deepens(m, m', root, {Child(m.owner[t], i)})
    ensures At(m'.ram, root, Child(m.owner[t], i)) == Some(f)
  {
    DescendedGentle(m, m', root, s, t, i, f, user);
    DescendedGains(m, m', root, s, t, i, f, user);
    DescendedAt(m.ram, m.owner, m'.ram, m'.owner, root, s, t, i, f, user, Root);
    DescendedLinks(m, m', root, s, t, i, f, user);
  }

  /** Exactly one page outside the window translates differently: q, which now translates to e. */
  ghost predicate MapsOne(m: Mem, m': Mem, root: nat, q: Page, e: Entry) {
    && (forall p :: !InWindow(p) ==> Walk(m'.ram, root, p) == if p == q then Some(e) else Walk(m.ram, root, p))
    && (forall p :: !InWindow(p) && PathOk(m.ram, root, p) ==> PathOk(m'.ram, root, p))
  }

  /** What the buffer may hold after one page is mapped: about another mapped page, nothing new. */
  ghost predicate BufferAfterOne(m: Mem, m': Mem, root: nat, q: Page) {
    forall p :: !InWindow(p) && p != q && Walk(m.ram, root, p).Some? ==> Filled(m.tlb, m'.tlb, m'.ram, root, p)
  }

  /** Storing the leaf after the descent. */
  lemma LeafMapsOne(m: Mem, m1: Mem, m': Mem, root: nat, q: Page, e: Entry, t1: nat)
    requires Gentle(m, m1, root) && Tree(m1.ram, root, m1.owner, {}) && !InWindow(q)
    requires At(m1.ram, root, L1(q.a, q.b, q.c)) == Some(t1) && t1 in m1.ram && e.flags.present
    requires m'.ram == Put(m1.ram, t1, q.d, e) && AllFilled(m1.tlb, m'.tlb, m'.ram, root)
    requires m'.free == m1.free && m'.owner == m1.owner && m1.free !! m1.owner.Keys
    ensures MapsOne(m, m', root, q, e) && BufferAfterOne(m, m', root, q)
    ensures Accounted(m, m') && DataKept(m, m') && KeepsTame(m, m', root)
  {
    AtOwner(m1.ram, root, m1.owner, L1(q.a, q.b, q.c));
    forall p | !InWindow(p)
      ensures Walk(m'.ram, root, p) == if p == q then Some(e) else Walk(m.ram, root, p)
      ensures PathOk(m.ram, root, p) ==> PathOk(m'.ram, root, p)
      ensures p != q && Walk(m.ram, root, p).Some? ==> Filled(m.tlb, m'.tlb, m'.ram, root, p)
      ensures Filled(m1.tlb, m'.tlb, m'.ram, root, p) && Walk(m1.ram, root, p) == Walk(m.ram, root, p)
    {
      LeafStore(m1.ram, root, m1.owner, t1, q, e, p);
      assert Walk(m1.ram, root, p) == Walk(m.ram, root, p);
      assert Filled(m1.tlb, m'.tlb, m'.ram, root, p);
      if Walk(m.ram, root, p).Some? {
        assert Filled(m.tlb, m1.tlb, m1.ram, root, p);
      }
    }
  }

  lemma LeafGains(m: Mem, m': Mem, root: nat, q: Page, e: Entry, t1: nat)
    requires Tree(m.ram, root, m.owner, {}) && At(m.ram, root, L1(q.a, q.b, q.c)) == Some(t1) && t1 in m.ram
    requires m'.ram == Put(m.ram, t1, q.d, e) && m'.free == m.free
    ensures Gains(m, m', root, {})
  {
    AtOwner(m.ram, root, m.owner, L1(q.a, q.b, q.c));
    assert forall f, j: Idx :: f in m.owner && !m.owner[f].L1? ==> Get(m'.ram, f, j) == Get(m.ram, f, j);
    NoGain(m, m', root);
  }

  /** A leaf outside the window is seen by no slot. */
  lemma LeafWindow(ram: Ram, root: nat, owner: map<nat, Pos>, s: Spine, t: nat, q: Page, e: Entry, h: Idx, j: Idx)
    requires Tree(ram, root, owner, {}) && Hangs(owner, {}, s) && h < 4 && !InWindow(q)
    requires At(ram, root, L1(q.a, q.b, q.c)) == Some(t) && t in ram
    ensures Get(Put(ram, t, q.d, e), s.tabs[h], j) == Get(ram, s.tabs[h], j)
    ensures Walk(Put(ram, t, q.d, e), root, SlotPage(h, j)) == Walk(ram, root, SlotPage(h, j))
  {
    AtOwner(ram, root, owner, L1(q.a, q.b, q.c));
    WriteLocal(ram, root, owner, {}, t, q.d, e, SlotPage(h, j));
  }

  lemma LeafSpine(ram: Ram, root: nat, owner: map<nat, Pos>, s: Spine, t: nat, q: Page, e: Entry)
    requires Tree(ram, root, owner, {}) && Hangs(owner, {}, s) && Linked(ram, root, s)
    requires At(ram, root, L1(q.a, q.b, q.c)) == Some(t) && t in ram
    ensures Linked(Put(ram, t, q.d, e), root, s) && Tree(Put(ram, t, q.d, e), root, owner, {})
    ensures LinksFrom(ram, owner, Put(ram, t, q.d, e), owner)
  {
    AtOwner(ram, root, owner, L1(q.a, q.b, q.c));
    var ram1 := Put(ram, t, q.d, e);
    assert forall f, j: Idx :: f in owner && !owner[f].L1? ==> Get(ram1, f, j) == Get(ram, f, j);
  }

  // ---------------------------------------------------------------- taking the lower half away

  ghost predicate LowerCleared(ram: Ram, root: nat, n: nat) {
    forall i: Idx :: i < n ==> Get(ram, root, i) == UNUSED
  }

  /** Clearing one entry of the root below the kernel's half. */
  lemma RootStore(ram: Ram, root: nat, owner: map<nat, Pos>, s: Spine, i: Idx)
    requires Tree(ram, root, owner, {}) && Hangs(owner, {}, s) && Linked(ram, root, s) && i < 256
    ensures var ram1 := Put(ram, root, i, UNUSED);
            && Tree(ram1, root, owner, {}) && Linked(ram1, root, s)
            && (LowerCleared(ram, root, i) ==> LowerCleared(ram1, root, i + 1))
            && (forall p: Page :: p.a != i ==> Walk(ram1, root, p) == Walk(ram, root, p))
            && (forall h: Idx, j: Idx :: h < 4 ==> Get(ram1, s.tabs[h], j) == Get(ram, s.tabs[h], j))
  {
    var ram1 := Put(ram, root, i, UNUSED);
    forall p: Page | p.a != i
      ensures Walk(ram1, root, p) == Walk(ram, root, p)
    {
      WriteLocal(ram, root, owner, {}, root, i, UNUSED, p);
    }
    assert forall f, j: Idx :: f != root ==> Get(ram1, f, j) == Get(ram, f, j);
    assert forall j: Idx :: Get(ram1, root, j) == if j == i then UNUSED else Get(ram, root, j);
    assert owner[s.mid] != Root && owner[s.low] != Root;
    assert forall h: Idx :: h < 4 ==> owner[s.tabs[h]] != Root;
  }

  /** The tables that still hang in the tree. */
  ghost function UpperTables(owner: map<nat, Pos>): map<nat, Pos> {
    map f | f in owner && !Lower(owner[f]) :: owner[f]
  }

  /** With the lower half of the root cleared, its old tables are no tables any more, no page there is mapped, and
      every link left there (there is none) is open to user code. */
  lemma LowerHalfGone(ram: Ram, root: nat, owner: map<nat, Pos>, s: Spine)
    requires Tree(ram, root, owner, {}) && Hangs(owner, {}, s) && LowerCleared(ram, root, 256)
    ensures Tree(ram, root, UpperTables(owner), {}) && Hangs(UpperTables(owner), {}, s)
    ensures UserLinks(ram, UpperTables(owner))
    ensures forall p: Page :: p.a < 256 ==> Walk(ram, root, p) == None && PathOk(ram, root, p)
  {
    var upper := UpperTables(owner);
    forall f, i: Idx | f in upper && !upper[f].L1? && Link(ram[f][i])
      ensures ram[f][i].frame in upper && upper[ram[f][i].frame] == Child(upper[f], i) && !Lower(Child(upper[f], i))
    {
      RootIsOnly(ram, root, owner, f, i);
    }
  }

  lemma RootIsOnly(ram: Ram, root: nat, owner: map<nat, Pos>, f: nat, i: Idx)
    requires Tree(ram, root, owner, {}) && f in owner && !owner[f].L1? && !Lower(owner[f]) && Link(ram[f][i])
    requires LowerCleared(ram, root, 256)
    ensures !Lower(Child(owner[f], i))
  {
    assert f == root && i < 256 ==> Get(ram, root, i) == UNUSED;
  }
}
