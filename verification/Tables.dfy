/**
 Growing the tree of page tables: linking a fresh table, storing a leaf, and what each does to the translation
 of every page.
 */
module Tables {
  import opened Wrappers
  import opened Paging
  import opened Hardware
  import opened Window

  /** The table the links lead to at a position. */
  function At(ram: Ram, root: nat, pos: Pos): Option<nat> {
    match pos
    case Root => Some(root)
    case L3(a) => Next(ram, Some(root), a)
    case L2(a, b) => Next(ram, Next(ram, Some(root), a), b)
    case L1(a, b, c) => Next(ram, Next(ram, Next(ram, Some(root), a), b), c)
  }

  function Next(ram: Ram, t: Option<nat>, i: Idx): Option<nat> {
    if t.Some? && Link(Get(ram, t.value, i)) then Some(Get(ram, t.value, i).frame) else None
  }

  /** The entry can be followed or filled in; anything else makes the mapper panic. */
  predicate Followable(e: Entry) {
    e == UNUSED || Link(e)
  }

  /** Position of the table of p one level below the root, two below, three below. */
  predicate PathOk(ram: Ram, root: nat, p: Page) {
    && Followable(Get(ram, root, p.a))
    && (At(ram, root, L3(p.a)).Some? ==> Followable(Get(ram, At(ram, root, L3(p.a)).value, p.b)))
    && (At(ram, root, L2(p.a, p.b)).Some? ==> Followable(Get(ram, At(ram, root, L2(p.a, p.b)).value, p.c)))
  }

  lemma AtOwner(ram: Ram, root: nat, owner: map<nat, Pos>, pos: Pos)
    requires Tree(ram, root, owner, {}) && At(ram, root, pos).Some?
    ensures At(ram, root, pos).value in owner && owner[At(ram, root, pos).value] == pos
  {
  }

  /** Memory after a cleared table g is linked at entry i of table t. */
  function Grown(ram: Ram, t: nat, i: Idx, g: nat, flags: Flags): Ram
    requires t in ram
  {
    Put(ram, t, i, Entry(g, flags))[g := Zeroed()]
  }

  ghost predicate CanGrow(ram: Ram, root: nat, owner: map<nat, Pos>, t: nat, i: Idx, g: nat, flags: Flags) {
    && Tree(ram, root, owner, {}) && t in owner && !owner[t].L1? && At(ram, root, owner[t]) == Some(t)
    && Get(ram, t, i) == UNUSED && g !in owner && g in ram && Link(Entry(g, flags))
  }

  lemma GrownTree(ram: Ram, root: nat, owner: map<nat, Pos>, t: nat, i: Idx, g: nat, flags: Flags)
    requires CanGrow(ram, root, owner, t, i, g, flags)
    ensures Tree(Grown(ram, t, i, g, flags), root, owner[g := Child(owner[t], i)], {})
  {
  }

  /** Linking a cleared table changes no translation. */
  lemma GrownWalk(ram: Ram, root: nat, owner: map<nat, Pos>, t: nat, i: Idx, g: nat, flags: Flags, p: Page)
    requires CanGrow(ram, root, owner, t, i, g, flags)
    ensures Walk(Grown(ram, t, i, g, flags), root, p) == Walk(ram, root, p)
    ensures Reads(owner[t], i, p) ==> Walk(ram, root, p) == None
    ensures PathOk(ram, root, p) ==> PathOk(Grown(ram, t, i, g, flags), root, p)
  {
    if PathOk(ram, root, p) {
      GrownPath(ram, root, owner, t, i, g, flags, p);
    }
  }

  lemma GrownPath(ram: Ram, root: nat, owner: map<nat, Pos>, t: nat, i: Idx, g: nat, flags: Flags, p: Page)
    requires CanGrow(ram, root, owner, t, i, g, flags) && PathOk(ram, root, p)
    ensures PathOk(Grown(ram, t, i, g, flags), root, p)
  {
  }

  /** The new table is where it should be, and the others are where they were. */
  lemma GrownAt(ram: Ram, root: nat, owner: map<nat, Pos>, t: nat, i: Idx, g: nat, flags: Flags, pos: Pos)
    requires CanGrow(ram, root, owner, t, i, g, flags)
    ensures At(Grown(ram, t, i, g, flags), root, Child(owner[t], i)) == Some(g)
    ensures At(ram, root, pos).Some? ==> At(Grown(ram, t, i, g, flags), root, pos) == At(ram, root, pos)
  {
  }

  /** No other table appears: the new one is empty. */
  lemma GrownOnly(ram: Ram, root: nat, owner: map<nat, Pos>, t: nat, i: Idx, g: nat, flags: Flags, pos: Pos)
    requires CanGrow(ram, root, owner, t, i, g, flags) && pos != Child(owner[t], i)
    ensures At(Grown(ram, t, i, g, flags), root, pos).Some? ==> At(ram, root, pos).Some?
  {
  }

  /** Stores into the window's own tables are seen by no page outside the window. */
  lemma TabsIrrelevant(ram: Ram, ram': Ram, root: nat, owner: map<nat, Pos>, s: Spine, p: Page)
    requires Tree(ram, root, owner, {}) && Hangs(owner, {}, s) && OnlyTabs(ram, ram', s.tabs)
    requires !InWindow(p)
    ensures Walk(ram', root, p) == Walk(ram, root, p)
    ensures PathOk(ram, root, p) ==> PathOk(ram', root, p)
  {
    TabsAreLeaves(ram, ram', root, owner, s);
  }

  lemma TabsAreLeaves(ram: Ram, ram': Ram, root: nat, owner: map<nat, Pos>, s: Spine)
    requires Tree(ram, root, owner, {}) && Hangs(owner, {}, s) && OnlyTabs(ram, ram', s.tabs)
    ensures Tree(ram', root, owner, {})
    ensures forall f, i: Idx :: f in owner && (owner[f].L1? ==> OffWindow(owner[f])) ==>
              Get(ram', f, i) == Get(ram, f, i)
  {
    forall f | f in owner && (owner[f].L1? ==> OffWindow(owner[f]))
      ensures f !in s.tabs
    {
      assert forall g: Idx :: g < 4 ==> owner[s.tabs[g]] == L1(256, 0, g);
    }
  }

  lemma TabsLinks(ram: Ram, ram': Ram, root: nat, owner: map<nat, Pos>, s: Spine)
    requires Tree(ram, root, owner, {}) && Hangs(owner, {}, s) && OnlyTabs(ram, ram', s.tabs)
    ensures LinksFrom(ram, owner, ram', owner)
  {
    TabsAreLeaves(ram, ram', root, owner, s);
  }

  lemma TabsAt(ram: Ram, ram': Ram, root: nat, owner: map<nat, Pos>, s: Spine, pos: Pos)
    requires Tree(ram, root, owner, {}) && Hangs(owner, {}, s) && OnlyTabs(ram, ram', s.tabs)
    ensures At(ram', root, pos) == At(ram, root, pos)
  {
    TabsAreLeaves(ram, ram', root, owner, s);
  }

  /** A leaf stored in a lowest-level table translates exactly its own page. */
  lemma LeafStore(ram: Ram, root: nat, owner: map<nat, Pos>, t: nat, q: Page, e: Entry, p: Page)
    requires Tree(ram, root, owner, {}) && At(ram, root, L1(q.a, q.b, q.c)) == Some(t) && e.flags.present
    ensures t in ram && Tree(Put(ram, t, q.d, e), root, owner, {})
    ensures Walk(Put(ram, t, q.d, e), root, p) == if p == q then Some(e) else Walk(ram, root, p)
    ensures PathOk(ram, root, p) ==> PathOk(Put(ram, t, q.d, e), root, p)
  {
    AtOwner(ram, root, owner, L1(q.a, q.b, q.c));
  }

  /** Whatever the other frames hold, a table with these words, at frame g, leads to no global translation. */
  ghost predicate Tame(t: Table, g: nat) {
    forall i: Idx :: t[i].flags.present ==> !t[i].flags.global && (t[i].flags.huge || t[i].frame == g)
  }

  predicate IsGlobal(e: Option<Entry>) {
    e.Some? && e.value.flags.global
  }

  /** The rest of a walk that has reached frame g, k levels above the page. */
  function WalkBelow(ram: Ram, g: nat, k: nat, p: Page): Option<Entry>
    requires 1 <= k <= 3
  {
    if k == 1 then Walk1(ram, g, p) else if k == 2 then Walk2(ram, g, p) else Walk3(ram, g, p)
  }

  /** The new table, not yet cleared, hangs off the window, and the window is as it was. */
  lemma LinkedTree(ram: Ram, root: nat, owner: map<nat, Pos>, s: Spine, t: nat, i: Idx, g: nat, flags: Flags)
    requires CanGrow(ram, root, owner, t, i, g, flags) && Hangs(owner, {}, s) && Linked(ram, root, s)
    ensures var ram1, owner1 := Put(ram, t, i, Entry(g, flags)), owner[g := Child(owner[t], i)];
            && OffWindow(Child(owner[t], i))
            && Tree(ram1, root, owner1, {g})
            && Hangs(owner1, {g}, s)
            && Linked(ram1, root, s)
  {
    AtOwner(ram, root, owner, owner[t]);
    assert OffWindow(Child(owner[t], i));
    SpineStays(ram, root, s, t, i, Entry(g, flags));
  }

  lemma SpineStays(ram: Ram, root: nat, s: Spine, t: nat, i: Idx, e: Entry)
    requires t in ram && Get(ram, t, i) == UNUSED && Linked(ram, root, s)
    ensures Linked(Put(ram, t, i, e), root, s)
  {
    var ram1 := Put(ram, t, i, e);
    assert Get(ram1, root, 256) == Get(ram, root, 256) && Get(ram1, s.mid, 0) == Get(ram, s.mid, 0);
    forall h: Idx | h < 4
      ensures Get(ram1, s.low, h) == Get(ram, s.low, h)
    {
      assert Link(Get(ram, s.low, h));
    }
  }

  lemma LinkedWindow(ram: Ram, root: nat, owner: map<nat, Pos>, s: Spine, t: nat, i: Idx, e: Entry, h: Idx, j: Idx)
    requires Tree(ram, root, owner, {}) && t in owner && !owner[t].L1? && Get(ram, t, i) == UNUSED
    requires Hangs(owner, {}, s) && Linked(ram, root, s) && h < 4
    ensures Get(Put(ram, t, i, e), s.tabs[h], j) == Get(ram, s.tabs[h], j)
    ensures Walk(Put(ram, t, i, e), root, SlotPage(h, j)) == Walk(ram, root, SlotPage(h, j))
  {
  }

  /** Until the table is cleared, only the pages below it may see its old contents. */
  lemma LinkedWalk(ram: Ram, root: nat, owner: map<nat, Pos>, t: nat, i: Idx, g: nat, flags: Flags, p: Page)
    requires CanGrow(ram, root, owner, t, i, g, flags) && !Covers(Child(owner[t], i), p)
    ensures Walk(Put(ram, t, i, Entry(g, flags)), root, p) == Walk(ram, root, p)
  {
    WriteLocal(ram, root, owner, {}, t, i, Entry(g, flags), p);
  }

  /** The level of a table at a position. */
  function Height(pos: Pos): nat {
    match pos
    case Root => 4
    case L3(_) => 3
    case L2(_, _) => 2
    case L1(_, _, _) => 1
  }

  /** A page below it sees the old contents of the new table and whatever they lead to, also once the window's own
      tables have changed. */
  lemma StaleWalk(
      ram: Ram, ram': Ram, root: nat, owner: map<nat, Pos>, s: Spine, t: nat, i: Idx, g: nat, flags: Flags, p: Page)
    requires CanGrow(ram, root, owner, t, i, g, flags) && Hangs(owner, {}, s) && Covers(Child(owner[t], i), p)
    requires OnlyTabs(Put(ram, t, i, Entry(g, flags)), ram', s.tabs)
    ensures Walk(ram', root, p) == WalkBelow(ram', g, Height(Child(owner[t], i)), p)
    ensures ram'[g] == ram[g]
  {
    assert forall h: Idx :: h < 4 ==> s.tabs[h] in owner && owner[s.tabs[h]].L1?;
    assert forall f :: f in owner && !owner[f].L1? ==> f !in s.tabs;
    assert g !in s.tabs;
  }

  lemma UnclearedWalk(ram: Ram, root: nat, owner: map<nat, Pos>, t: nat, i: Idx, g: nat, flags: Flags, p: Page)
    requires CanGrow(ram, root, owner, t, i, g, flags) && Covers(Child(owner[t], i), p)
    ensures var linked := Put(ram, t, i, Entry(g, flags));
            Walk(linked, root, p) == WalkBelow(linked, g, Height(Child(owner[t], i)), p) && linked[g] == ram[g]
  {
  }

  lemma TameWalk(ram: Ram, g: nat, k: nat, p: Page)
    requires 1 <= k <= 3 && g in ram && Tame(ram[g], g)
    ensures !IsGlobal(WalkBelow(ram, g, k, p))
  {
  }

  /** Clearing the one uncleared table makes the tree whole. */
  lemma ClearedTree(ram: Ram, root: nat, owner: map<nat, Pos>, hole: set<nat>, s: Spine, g: nat)
    requires Tree(ram, root, owner, hole) && Hangs(owner, hole, s) && Linked(ram, root, s)
    requires g in owner && OffWindow(owner[g]) && hole <= {g}
    ensures Tree(ram[g := Zeroed()], root, owner, {})
    ensures Hangs(owner, {}, s) && Linked(ram[g := Zeroed()], root, s)
  {
    var ram1 := ram[g := Zeroed()];
    assert forall o, j: Idx :: o in {root, s.mid, s.low} ==> Get(ram1, o, j) == Get(ram, o, j);
  }

  lemma ClearedWindow(ram: Ram, root: nat, owner: map<nat, Pos>, hole: set<nat>, s: Spine, g: nat, h: Idx, j: Idx)
    requires Tree(ram, root, owner, hole) && Hangs(owner, hole, s) && Linked(ram, root, s)
    requires g in owner && OffWindow(owner[g]) && h < 4
    ensures Get(ram[g := Zeroed()], s.tabs[h], j) == Get(ram, s.tabs[h], j)
    ensures Walk(ram[g := Zeroed()], root, SlotPage(h, j)) == Walk(ram, root, SlotPage(h, j))
  {
  }

  // ---------------------------------------------------------------- one step down

  /** Tables appeared at the positions w, and nowhere else. */
  ghost predicate Adds(ram: Ram, ram': Ram, root: nat, w: set<Pos>) {
    forall pos :: At(ram', root, pos).Some? <==> At(ram, root, pos).Some? || pos in w
  }

  lemma AddsTransitive(ram: Ram, ram': Ram, ram'': Ram, root: nat, w: set<Pos>, w': set<Pos>)
    requires Adds(ram, ram', root, w) && Adds(ram', ram'', root, w')
    ensures Adds(ram, ram'', root, w + w')
  {
  }

  lemma GrownAdds(ram: Ram, root: nat, owner: map<nat, Pos>, t: nat, i: Idx, g: nat, flags: Flags)
    requires CanGrow(ram, root, owner, t, i, g, flags)
    ensures Adds(ram, Grown(ram, t, i, g, flags), root, {Child(owner[t], i)})
  {
    forall pos
      ensures At(Grown(ram, t, i, g, flags), root, pos).Some? <==>
              At(ram, root, pos).Some? || pos == Child(owner[t], i)
    {
      GrownAt(ram, root, owner, t, i, g, flags, pos);
      if pos != Child(owner[t], i) {
        GrownOnly(ram, root, owner, t, i, g, flags, pos);
      }
    }
  }

  /** A link the kernel makes: stores pass through it, user code does in the lower half only, and no other bit is
      set. */
  predicate NewLink(flags: Flags, lower: bool) {
    flags.writable && flags.user == lower && !flags.global && flags.other == 0
  }

  /** The position is in the lower half. */
  predicate Lower(pos: Pos) {
    !pos.Root? && pos.a < 256
  }

  /** Every link between tables was there before, or is one the kernel makes. */
  ghost predicate LinksFrom(ram: Ram, owner: map<nat, Pos>, ram': Ram, owner': map<nat, Pos>) {
    forall f, i: Idx :: f in owner' && !owner'[f].L1? && Link(Get(ram', f, i)) ==>
      || (f in owner && owner[f] == owner'[f] && Get(ram, f, i) == Get(ram', f, i))
      || NewLink(Get(ram', f, i).flags, Lower(Child(owner'[f], i)))
  }

  lemma LinksFromTransitive(
      ram: Ram, owner: map<nat, Pos>, ram': Ram, owner': map<nat, Pos>, ram'': Ram, owner'': map<nat, Pos>)
    requires LinksFrom(ram, owner, ram', owner') && LinksFrom(ram', owner', ram'', owner'')
    ensures LinksFrom(ram, owner, ram'', owner'')
  {
  }

  lemma GrownLinks(ram: Ram, root: nat, owner: map<nat, Pos>, t: nat, i: Idx, g: nat, flags: Flags)
    requires CanGrow(ram, root, owner, t, i, g, flags) && NewLink(flags, Lower(Child(owner[t], i)))
    ensures LinksFrom(ram, owner, Grown(ram, t, i, g, flags), owner[g := Child(owner[t], i)])
  {
    var ram' := Grown(ram, t, i, g, flags);
    assert forall f, j: Idx :: f in owner && (f, j) != (t, i) ==> Get(ram', f, j) == Get(ram, f, j);
    assert forall j: Idx :: Get(ram', g, j) == UNUSED;
  }

  /** Frames that are no tables in the end hold what they held. */
  ghost predicate Untouched(ram: Ram, ram': Ram, owner': map<nat, Pos>) {
    forall f :: f in ram && f !in owner' ==> f in ram' && ram'[f] == ram[f]
  }

  /** The flags of a table the mapper creates. */
  function TableFlags(user: bool): Flags {
    Flags(true, true, user, false, false, 0)
  }

  ghost predicate CanDescend(ram: Ram, root: nat, owner: map<nat, Pos>, t: nat, i: Idx) {
    && Tree(ram, root, owner, {}) && t in owner && !owner[t].L1? && At(ram, root, owner[t]) == Some(t)
    && Followable(Get(ram, t, i))
  }

  /** Apart from the window's tables, all that happened is that entry i of t leads to f: it did before, or f is a
      new, cleared table. */
  ghost predicate Descended(ram: Ram, owner: map<nat, Pos>, ram': Ram, owner': map<nat, Pos>, root: nat, s: Spine,
                            t: nat, i: Idx, f: nat, user: bool)
    requires CanDescend(ram, root, owner, t, i)
  {
    if Get(ram, t, i) == UNUSED then
      && CanGrow(ram, root, owner, t, i, f, TableFlags(user))
      && OnlyTabs(Grown(ram, t, i, f, TableFlags(user)), ram', s.tabs)
      && owner' == owner[f := Child(owner[t], i)]
    else
      f == Get(ram, t, i).frame && OnlyTabs(ram, ram', s.tabs) && owner' == owner
  }

  lemma HangsGrown(owner: map<nat, Pos>, s: Spine, g: nat, pos: Pos)
    requires Hangs(owner, {}, s) && g !in owner
    ensures Hangs(owner[g := pos], {}, s)
  {
  }

  lemma DescendedWalk(ram: Ram, owner: map<nat, Pos>, ram': Ram, owner': map<nat, Pos>, root: nat, s: Spine,
                      t: nat, i: Idx, f: nat, user: bool, p: Page)
    requires CanDescend(ram, root, owner, t, i) && Hangs(owner, {}, s) && !InWindow(p)
    requires Descended(ram, owner, ram', owner', root, s, t, i, f, user)
    ensures Walk(ram', root, p) == Walk(ram, root, p)
    ensures PathOk(ram, root, p) ==> PathOk(ram', root, p)
    ensures Get(ram, t, i) == UNUSED && Covers(Child(owner[t], i), p) ==> Walk(ram, root, p) == None
  {
    if Get(ram, t, i) == UNUSED {
      var flags := TableFlags(user);
      GrownTree(ram, root, owner, t, i, f, flags);
      GrownWalk(ram, root, owner, t, i, f, flags, p);
      HangsGrown(owner, s, f, Child(owner[t], i));
      TabsIrrelevant(Grown(ram, t, i, f, flags), ram', root, owner', s, p);
    } else {
      TabsIrrelevant(ram, ram', root, owner, s, p);
    }
  }

  lemma DescendedAt(ram: Ram, owner: map<nat, Pos>, ram': Ram, owner': map<nat, Pos>, root: nat, s: Spine,
                    t: nat, i: Idx, f: nat, user: bool, pos: Pos)
    requires CanDescend(ram, root, owner, t, i) && Hangs(owner, {}, s)
    requires Descended(ram, owner, ram', owner', root, s, t, i, f, user)
    ensures At(ram', root, Child(owner[t], i)) == Some(f)
    ensures At(ram, root, pos).Some? ==> At(ram', root, pos) == At(ram, root, pos)
    ensures pos != Child(owner[t], i) && At(ram', root, pos).Some? ==> At(ram, root, pos).Some?
    ensures At(ram, root, Child(owner[t], i)).None? <==> Get(ram, t, i) == UNUSED
  {
    if Get(ram, t, i) == UNUSED {
      var flags := TableFlags(user);
      GrownTree(ram, root, owner, t, i, f, flags);
      GrownAt(ram, root, owner, t, i, f, flags, pos);
      if pos != Child(owner[t], i) {
        GrownOnly(ram, root, owner, t, i, f, flags, pos);
      }
      HangsGrown(owner, s, f, Child(owner[t], i));
      TabsAt(Grown(ram, t, i, f, flags), ram', root, owner', s, pos);
      TabsAt(Grown(ram, t, i, f, flags), ram', root, owner', s, Child(owner[t], i));
    } else {
      TabsAt(ram, ram', root, owner, s, pos);
      TabsAt(ram, ram', root, owner, s, Child(owner[t], i));
    }
  }

  /** The buffer after linking (t1), re-aiming the window (t2) and clearing (t3): for a page not below the new
      table it holds nothing new. */
  lemma CreatedTlb(ram0: Ram, t0: Tlb, ram1: Ram, t1: Tlb, ram2: Ram, t2: Tlb, ram3: Ram, t3: Tlb, root: nat,
                   owner: map<nat, Pos>, s: Spine, t: nat, i: Idx, g: nat, flags: Flags, p: Page)
    requires CanGrow(ram0, root, owner, t, i, g, flags) && Hangs(owner, {}, s) && !InWindow(p)
    requires !Covers(Child(owner[t], i), p)
    requires ram1 == Put(ram0, t, i, Entry(g, flags)) && AllFilled(t0, t1, ram1, root)
    requires ElsewhereKept(ram1, t1, ram2, t2, root, owner[g := Child(owner[t], i)], {g})
    requires Walk(ram3, root, p) == Walk(ram0, root, p) && AllFilled(t2, t3, ram3, root)
    ensures Filled(t0, t3, ram3, root, p)
  {
    LinkedWalk(ram0, root, owner, t, i, g, flags, p);
    assert Elsewhere(owner[g := Child(owner[t], i)], {g}, p);
    assert Filled(t0, t1, ram1, root, p) && Filled(t1, t2, ram2, root, p) && Filled(t2, t3, ram3, root, p);
  }

  /** Pages about which the step down may have left old contents of the new table in the buffer. */
  ghost predicate Exposed(ram: Ram, owner: map<nat, Pos>, t: nat, i: Idx, p: Page)
    requires t in owner && !owner[t].L1?
  {
    Get(ram, t, i) == UNUSED && Covers(Child(owner[t], i), p)
  }

  ghost predicate OthersFilled(ram: Ram, owner: map<nat, Pos>, t: nat, i: Idx, t0: Tlb, t1: Tlb, ram': Ram, root: nat)
    requires t in owner && !owner[t].L1?
  {
    forall p :: !InWindow(p) && !Exposed(ram, owner, t, i, p) ==> Filled(t0, t1, ram', root, p)
  }

  /** Outside the window, a global translation in the buffer was there, or is what the page translated to before or
      translates to now. */
  ghost predicate NoNewGlobal(ram0: Ram, t0: Tlb, ram1: Ram, t1: Tlb, root: nat) {
    forall p :: !InWindow(p) && p in t1 && t1[p].flags.global ==>
      || (p in t0 && t1[p] == t0[p]) || Walk(ram0, root, p) == Some(t1[p]) || Walk(ram1, root, p) == Some(t1[p])
  }

  /** Creating a table from a tame frame brings no new global translation into the buffer. */
  lemma CreatedGlobals(ram0: Ram, t0: Tlb, ram1: Ram, t1: Tlb, ram2: Ram, t2: Tlb, ram3: Ram, t3: Tlb, root: nat,
                       owner: map<nat, Pos>, s: Spine, t: nat, i: Idx, g: nat, flags: Flags)
    requires CanGrow(ram0, root, owner, t, i, g, flags) && Hangs(owner, {}, s) && Tame(ram0[g], g)
    requires ram1 == Put(ram0, t, i, Entry(g, flags)) && AllFilled(t0, t1, ram1, root)
    requires OnlyTabs(ram1, ram2, s.tabs) && AllFilled(t1, t2, ram2, root) && AllFilled(t2, t3, ram3, root)
    requires forall p :: !InWindow(p) && !Exposed(ram0, owner, t, i, p) ==> Filled(t0, t3, ram3, root, p)
    ensures NoNewGlobal(ram0, t0, ram3, t3, root)
  {
    forall p | !InWindow(p) && p in t3 && t3[p].flags.global
      ensures (p in t0 && t3[p] == t0[p]) || Walk(ram0, root, p) == Some(t3[p]) || Walk(ram3, root, p) == Some(t3[p])
    {
      assert Filled(t0, t1, ram1, root, p) && Filled(t1, t2, ram2, root, p) && Filled(t2, t3, ram3, root, p);
      if Covers(Child(owner[t], i), p) {
        StaleWalk(ram0, ram1, root, owner, s, t, i, g, flags, p);
        StaleWalk(ram0, ram2, root, owner, s, t, i, g, flags, p);
        TameWalk(ram1, g, Height(Child(owner[t], i)), p);
        TameWalk(ram2, g, Height(Child(owner[t], i)), p);
      } else {
        assert Filled(t0, t3, ram3, root, p);
      }
    }
  }
}
