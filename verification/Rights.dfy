/**
 Runs of the mapper: every sequence of calls refines a plain partial map, keeps user rights as the leaves state
 them (Intel SDM volume 3A, section 4.6), and keeps kernel pages closed to user code.
 */
module Rights {
  import opened Wrappers
  import opened Paging
  import opened Hardware
  import opened Window
  import opened Tables
  import opened Steps
  import opened Ranges
  import opened Mapper

  /** For a user page the leaf alone decides. */
  lemma UserRightsAreLeafRights(ram: Ram, root: nat, owner: map<nat, Pos>, p: Page)
    requires Tree(ram, root, owner, {}) && UserLinks(ram, owner) && p.a < 256
    ensures Walk(ram, root, p).None? <==> Effective(ram, root, p).None?
    ensures Walk(ram, root, p).Some? ==> Effective(ram, root, p) == Some(Leaf(Walk(ram, root, p).value))
  {
    var e4 := Get(ram, root, p.a);
    if Link(e4) {
      assert owner[e4.frame] == L3(p.a);
      var e3 := Get(ram, e4.frame, p.b);
      if Link(e3) {
        assert owner[e3.frame] == L2(p.a, p.b);
      }
    }
  }

  /** Where every link lets stores through, the leaf alone decides about them too. */
  lemma WritesAreLeafWrites(ram: Ram, root: nat, owner: map<nat, Pos>, p: Page)
    requires Tree(ram, root, owner, {}) && WriteLinks(ram, owner)
    ensures MayWrite(ram, root, p) <==> Walk(ram, root, p).Some? && Walk(ram, root, p).value.flags.writable
  {
    var e4 := Get(ram, root, p.a);
    if Link(e4) {
      assert owner[e4.frame] == L3(p.a);
      var e3 := Get(ram, e4.frame, p.b);
      if Link(e3) {
        assert owner[e3.frame] == L2(p.a, p.b);
      }
    }
  }

  /** A page is open to user code only if its leaf says so. */
  lemma EffectiveNeedsLeaf(ram: Ram, root: nat, p: Page)
    requires Effective(ram, root, p).Some?
    ensures Walk(ram, root, p).Some?
    ensures Effective(ram, root, p).value.user ==> Walk(ram, root, p).value.flags.user
  {
  }

  // ---------------------------------------------------------------- runs of the mapper

  /** A successful call of the mapper, or anything else the kernel and its tasks do between two calls. */
  datatype Event = Call(start: nat, n: nat, phys: nat, wanted: Flags) | Other

  function FlagsOf(e: Event): Flags
    requires e.Call?
  {
    Forced(e.start, e.wanted)
  }

  /** Between two calls frames are taken and freed and their bytes change; the tables stay as they are, and the hardware
      may read them. */
  ghost predicate Between(m: Mem, m': Mem, root: nat) {
    && m'.owner == m.owner && (forall f :: f in m.owner && f in m.ram ==> f in m'.ram && m'.ram[f] == m.ram[f])
    && m'.free !! m'.owner.Keys && AllFilled(m.tlb, m'.tlb, m'.ram, root)
  }

  ghost predicate Performs(e: Event, m: Mem, m': Mem, root: nat) {
    match e
    case Call(start, n, phys, wanted) =>
      && CanonicalRun(start, n) && Tree(m'.ram, root, m'.owner, {})
      && Mapped(m, m', root, start, n, phys, FlagsOf(e), FlushesEach(start, n, wanted))
    case Other => Between(m, m', root)
  }

  ghost predicate IsRun(ms: seq<Mem>, es: seq<Event>, root: nat) {
    && |ms| == |es| + 1 && Tree(ms[0].ram, root, ms[0].owner, {})
    && forall k :: 0 <= k < |es| ==> Performs(es[k], ms[k], ms[k + 1], root)
  }

  /** What happens between two calls changes no translation. */
  lemma BetweenWalks(m: Mem, m': Mem, root: nat)
    requires Between(m, m', root) && Tree(m.ram, root, m.owner, {})
    ensures Tree(m'.ram, root, m'.owner, {})
    ensures forall p :: Walk(m'.ram, root, p) == Walk(m.ram, root, p)
    ensures NewLinks(m, m')
  {
    assert forall f, i: Idx :: f in m.owner ==> Get(m'.ram, f, i) == Get(m.ram, f, i);
  }

  lemma {:induction false} RunTree(ms: seq<Mem>, es: seq<Event>, root: nat, k: nat)
    requires IsRun(ms, es, root) && k < |ms|
    ensures Tree(ms[k].ram, root, ms[k].owner, {})
  {
    if k > 0 {
      RunTree(ms, es, root, k - 1);
      assert Performs(es[k - 1], ms[k - 1], ms[k], root);
      if es[k - 1].Other? {
        BetweenWalks(ms[k - 1], ms[k], root);
      }
    }
  }

  /** The plain map after a sequence of events: the last call that covers a page decides. */
  function Final(before: Option<Entry>, es: seq<Event>, p: Page): Option<Entry> {
    if es == [] then before else
      var e := es[|es| - 1];
      var earlier := Final(before, es[..|es| - 1], p);
      if e.Call? then Overlaid(earlier, p, e.start, e.n, e.phys, FlagsOf(e)) else earlier
  }

  predicate CoversPage(e: Event, p: Page) {
    e.Call? && InRun(p, e.start, e.n)
  }

  ghost predicate NoneCovers(es: seq<Event>, p: Page) {
    forall j :: 0 <= j < |es| ==> !CoversPage(es[j], p)
  }

  /** Event k is the last call that covers the page. */
  ghost predicate LastToCover(es: seq<Event>, k: nat, p: Page) {
    k < |es| && CoversPage(es[k], p) && NoneCovers(es[k + 1..], p)
  }

  /** The page is as that call wanted it. */
  ghost predicate AsCalled(found: Option<Entry>, e: Event, p: Page) {
    CoversPage(e, p) && AsAsked(found, p, e.phys + (Number(p) - e.start), e.wanted)
  }

  lemma {:induction false} FinalIsLast(before: Option<Entry>, es: seq<Event>, p: Page)
    requires forall k :: 0 <= k < |es| && es[k].Call? ==> CanonicalRun(es[k].start, es[k].n)
    ensures NoneCovers(es, p) ==> Final(before, es, p) == before
    ensures forall k: nat :: LastToCover(es, k, p) ==> AsCalled(Final(before, es, p), es[k], p)
  {
    if es != [] {
      var (last, rest) := (|es| - 1, es[..|es| - 1]);
      FinalIsLast(before, rest, p);
      if CoversPage(es[last], p) {
        OverlaidAsAsked(Final(before, rest, p), p, es[last].start, es[last].n, es[last].phys, es[last].wanted);
      }
      forall k: nat | LastToCover(es, k, p)
        ensures AsCalled(Final(before, es, p), es[k], p)
      {
        if k < last {
          assert es[k + 1..][last - k - 1] == es[last];
          assert rest[k + 1..] == es[k + 1..][..last - k - 1];
        }
      }
    }
  }

  /** Every run of the mapper refines the plain map: a page that no call covers translates as before, and any other is
      as the last call that covers it wanted it. */
  lemma {:induction false} RunRefinesPlainMap(ms: seq<Mem>, es: seq<Event>, root: nat, p: Page)
    requires IsRun(ms, es, root) && !InWindow(p)
    ensures Walk(ms[|es|].ram, root, p) == Final(Walk(ms[0].ram, root, p), es, p)
    ensures NoneCovers(es, p) ==> Walk(ms[|es|].ram, root, p) == Walk(ms[0].ram, root, p)
    ensures forall k: nat :: LastToCover(es, k, p) ==> AsCalled(Walk(ms[|es|].ram, root, p), es[k], p)
  {
    RunIsFinal(ms, es, root, p);
    forall k | 0 <= k < |es| && es[k].Call?
      ensures CanonicalRun(es[k].start, es[k].n)
    {
      assert Performs(es[k], ms[k], ms[k + 1], root);
    }
    FinalIsLast(Walk(ms[0].ram, root, p), es, p);
  }

  lemma {:induction false} RunIsFinal(ms: seq<Mem>, es: seq<Event>, root: nat, p: Page)
    requires IsRun(ms, es, root) && !InWindow(p)
    ensures Walk(ms[|es|].ram, root, p) == Final(Walk(ms[0].ram, root, p), es, p)
    decreases |es|
  {
    if es != [] {
      var k := |es| - 1;
      RunIsFinal(ms[..k + 1], es[..k], root, p);
      RunTree(ms, es, root, k);
      assert Performs(es[k], ms[k], ms[k + 1], root);
      if es[k].Other? {
        BetweenWalks(ms[k], ms[k + 1], root);
      }
    }
  }

  /** In every run that starts with the lower half open to user code, a user page has the rights of its leaf. */
  lemma {:induction false} RunKeepsUserRights(ms: seq<Mem>, es: seq<Event>, root: nat, k: nat, p: Page)
    requires IsRun(ms, es, root) && k < |ms| && UserLinks(ms[0].ram, ms[0].owner) && p.a < 256
    ensures UserLinks(ms[k].ram, ms[k].owner)
    ensures Walk(ms[k].ram, root, p).Some? ==>
              Effective(ms[k].ram, root, p) == Some(Leaf(Walk(ms[k].ram, root, p).value))
  {
    RunTree(ms, es, root, k);
    RunKeepsLinks(ms, es, root, k);
    UserRightsAreLeafRights(ms[k].ram, root, ms[k].owner, p);
  }

  /** In every run, the links are those of the start and those the kernel makes. */
  lemma {:induction false} RunKeepsLinks(ms: seq<Mem>, es: seq<Event>, root: nat, k: nat)
    requires IsRun(ms, es, root) && k < |ms|
    ensures NewLinks(ms[0], ms[k])
    ensures UserLinks(ms[0].ram, ms[0].owner) ==> UserLinks(ms[k].ram, ms[k].owner)
    ensures WriteLinks(ms[0].ram, ms[0].owner) ==> WriteLinks(ms[k].ram, ms[k].owner)
    ensures ShutLinks(ms[0].ram, ms[0].owner) ==> ShutLinks(ms[k].ram, ms[k].owner)
  {
    if k > 0 {
      RunKeepsLinks(ms, es, root, k - 1);
      RunTree(ms, es, root, k - 1);
      assert Performs(es[k - 1], ms[k - 1], ms[k], root);
      if es[k - 1].Other? {
        BetweenWalks(ms[k - 1], ms[k], root);
      }
      NewLinksTransitive(ms[0], ms[k - 1], ms[k]);
    }
    LinksKept(ms[0], ms[k]);
  }

  /** So that the rights the hardware grants for a page are those the last call that covers it asked for, with user
      code kept out of kernel space. */
  lemma {:induction false} RunGrantsRights(ms: seq<Mem>, es: seq<Event>, root: nat, k: nat, p: Page)
    requires IsRun(ms, es, root) && !InWindow(p) && LastToCover(es, k, p)
    requires if p.a < 256 then UserLinks(ms[0].ram, ms[0].owner) else WriteLinks(ms[0].ram, ms[0].owner)
    ensures Effective(ms[|es|].ram, root, p) == Some(Access(es[k].wanted.writable, es[k].wanted.user && p.a < 256))
  {
    var m := ms[|es|];
    RunRefinesPlainMap(ms, es, root, p);
    RunTree(ms, es, root, |es|);
    RunKeepsLinks(ms, es, root, |es|);
    assert AsCalled(Walk(m.ram, root, p), es[k], p);
    if p.a < 256 {
      UserRightsAreLeafRights(m.ram, root, m.owner, p);
    } else {
      WritesAreLeafWrites(m.ram, root, m.owner, p);
      EffectiveNeedsLeaf(m.ram, root, p);
    }
  }

  /** If no link of kernel space lets user code through at the start, user code never gets at any page there, whatever
      its leaf says. */
  lemma RunShutsKernel(ms: seq<Mem>, es: seq<Event>, root: nat, k: nat, p: Page)
    requires IsRun(ms, es, root) && k < |ms| && ShutLinks(ms[0].ram, ms[0].owner) && p.a >= 256
    ensures Effective(ms[k].ram, root, p).Some? ==> !Effective(ms[k].ram, root, p).value.user
  {
    RunTree(ms, es, root, k);
    RunKeepsLinks(ms, es, root, k);
    assert ms[k].owner[root] == Root;
  }

  /** In every run, a kernel page either translates as at the start or is closed to user code. */
  lemma {:induction false} RunClosesKernel(ms: seq<Mem>, es: seq<Event>, root: nat, k: nat, p: Page)
    requires IsRun(ms, es, root) && k < |ms| && p.a >= 256 && !InWindow(p)
    ensures Walk(ms[k].ram, root, p) == Walk(ms[0].ram, root, p)
            || (Effective(ms[k].ram, root, p).Some? ==> !Effective(ms[k].ram, root, p).value.user)
    decreases k
  {
    KernelLeafClosed(ms, es, root, k, p);
    if Effective(ms[k].ram, root, p).Some? {
      EffectiveNeedsLeaf(ms[k].ram, root, p);
    }
  }

  lemma {:induction false} KernelLeafClosed(ms: seq<Mem>, es: seq<Event>, root: nat, k: nat, p: Page)
    requires IsRun(ms, es, root) && k < |ms| && p.a >= 256 && !InWindow(p)
    ensures Walk(ms[k].ram, root, p) == Walk(ms[0].ram, root, p)
            || (Walk(ms[k].ram, root, p).Some? && !Walk(ms[k].ram, root, p).value.flags.user)
  {
    if k > 0 {
      KernelLeafClosed(ms, es, root, k - 1, p);
      var e := es[k - 1];
      assert Performs(e, ms[k - 1], ms[k], root);
      if e.Other? {
        RunTree(ms, es, root, k - 1);
        BetweenWalks(ms[k - 1], ms[k], root);
      } else {
        WindowNumbers(p);
        assert Walk(ms[k].ram, root, p) ==
               Overlaid(Walk(ms[k - 1].ram, root, p), p, e.start, e.n, e.phys, FlagsOf(e));
      }
    }
  }

  // ---------------------------------------------------------------- the translation buffer

  /** The call asks for no global page in the lower half. */
  predicate AsksLocal(e: Event) {
    e.Call? && e.start < KERNEL_START ==> !e.wanted.global
  }

  /** No call asks for a global page in the lower half, and whenever frames are freed they are tame. */
  ghost predicate Local(ms: seq<Mem>, es: seq<Event>)
    requires |ms| == |es| + 1
  {
    forall k :: 0 <= k < |es| ==> AsksLocal(es[k]) && (es[k].Other? ==> AllTame(ms[k + 1].ram, ms[k + 1].free))
  }

  /** Both ways of flushing are enough (Intel SDM volume 3A, section 4.10.4): in every such run, in every state, this
      core's buffer tells the truth about every mapped page outside the window, and so about the whole range when a
      call returns. */
  lemma {:induction false} RunKeepsBufferTrue(ms: seq<Mem>, es: seq<Event>, root: nat, k: nat)
    requires IsRun(ms, es, root) && k < |ms| && Local(ms, es) && LowerLocal(ms[0], root) && Coherent(ms[0], root)
    ensures LowerLocal(ms[k], root) && Coherent(ms[k], root)
    ensures k > 0 && es[k - 1].Call? ==> AgreesOnRun(ms[k], root, es[k - 1].start, es[k - 1].n)
  {
    if k > 0 {
      RunKeepsBufferTrue(ms, es, root, k - 1);
      var (e, m, m') := (es[k - 1], ms[k - 1], ms[k]);
      assert Performs(e, m, m', root) && AsksLocal(e);
      if e.Other? {
        RunTree(ms, es, root, k - 1);
        BetweenKeepsBuffer(m, m', root);
      } else {
        MappedKeepsLocal(m, m', root, e.start, e.n, e.phys, FlagsOf(e), FlushesEach(e.start, e.n, e.wanted));
        MappedKeepsCoherent(m, m', root, e.start, e.n, e.phys, FlagsOf(e), FlushesEach(e.start, e.n, e.wanted));
      }
    }
  }

  lemma BetweenKeepsBuffer(m: Mem, m': Mem, root: nat)
    requires Between(m, m', root) && Tree(m.ram, root, m.owner, {}) && AllTame(m'.ram, m'.free)
    requires LowerLocal(m, root) && Coherent(m, root)
    ensures LowerLocal(m', root) && Coherent(m', root)
  {
    BetweenWalks(m, m', root);
    forall p
      ensures Filled(m.tlb, m'.tlb, m'.ram, root, p) && (HasGlobal(m', root, p) ==> HasGlobal(m, root, p))
    {
      assert Filled(m.tlb, m'.tlb, m'.ram, root, p);
    }
    forall p | !InWindow(p) && Walk(m'.ram, root, p).Some?
      ensures Agrees(m'.tlb, m'.ram, root, p)
    {
      assert Agrees(m.tlb, m.ram, root, p) && Filled(m.tlb, m'.tlb, m'.ram, root, p);
    }
  }

  /** One page below a frame with these words that is linked before it is cleared: the buffer at that moment, and the
      buffer when the table is cleared and everything that is not global has been dropped. */
  datatype Story = Story(ram: Ram, root: nat, owner: map<nat, Pos>, t: nat, i: Idx, flags: Flags, p: Page,
                         before: Tlb, linked: Tlb, after: Tlb)

  ghost predicate Happens(st: Story, words: Table, g: nat) {
    && CanGrow(st.ram, st.root, st.owner, st.t, st.i, g, st.flags) && st.ram[g] == words
    && Covers(Child(st.owner[st.t], st.i), st.p) && (st.p in st.before ==> !st.before[st.p].flags.global)
    && AllFilled(st.before, st.linked, Put(st.ram, st.t, st.i, Entry(g, st.flags)), st.root)
    && Reloaded(st.linked, st.after, Grown(st.ram, st.t, st.i, g, st.flags), st.root)
  }

  /** A reload is enough for such a frame: whatever the rest of memory holds and wherever the table is linked, a page
      that had no global translation is seen as the tables then say. */
  ghost predicate ReloadEnough(words: Table, g: nat) {
    forall st :: Happens(st, words, g) ==> Agrees(st.after, Grown(st.ram, st.t, st.i, g, st.flags), st.root, st.p)
  }

  /** Exactly the tame frames are harmless. */
  lemma ReloadEnoughIff(words: Table, g: nat)
    ensures ReloadEnough(words, g) <==> Tame(words, g)
  {
    if Tame(words, g) {
      forall st | Happens(st, words, g)
        ensures Agrees(st.after, Grown(st.ram, st.t, st.i, g, st.flags), st.root, st.p)
      {
        TameStory(st, words, g);
      }
    } else {
      var i: Idx :| words[i].flags.present && (words[i].flags.global || (!words[i].flags.huge && words[i].frame != g));
      var ram, root, owner, t, j, p := WildLink(words, g, i);
      StaleSurvives(words, ram, root, owner, t, j, g, TableFlags(true), p);
    }
  }

  lemma TameStory(st: Story, words: Table, g: nat)
    requires Happens(st, words, g) && Tame(words, g)
    ensures Agrees(st.after, Grown(st.ram, st.t, st.i, g, st.flags), st.root, st.p)
  {
    var linked := Put(st.ram, st.t, st.i, Entry(g, st.flags));
    UnclearedWalk(st.ram, st.root, st.owner, st.t, st.i, g, st.flags, st.p);
    TameWalk(linked, g, Height(Child(st.owner[st.t], st.i)), st.p);
    assert Filled(st.before, st.linked, linked, st.root, st.p);
  }

  /** A page that saw a global translation through the uncleared table keeps it over a reload. */
  lemma StaleSurvives(
      words: Table, ram: Ram, root: nat, owner: map<nat, Pos>, t: nat, i: Idx, g: nat, flags: Flags, p: Page)
    requires CanGrow(ram, root, owner, t, i, g, flags) && ram[g] == words && Covers(Child(owner[t], i), p)
    requires IsGlobal(Walk(Put(ram, t, i, Entry(g, flags)), root, p))
    ensures !ReloadEnough(words, g)
  {
    var linked := Put(ram, t, i, Entry(g, flags));
    var seen: Tlb := map[p := Walk(linked, root, p).value];
    var st := Story(ram, root, owner, t, i, flags, p, map[], seen, seen);
    assert AllFilled(st.before, st.linked, linked, root);
    ClearedBelow(ram, root, owner, t, i, g, flags, p);
    assert Happens(st, words, g) && !Agrees(st.after, Grown(ram, t, i, g, flags), root, p);
  }

  lemma ClearedBelow(ram: Ram, root: nat, owner: map<nat, Pos>, t: nat, i: Idx, g: nat, flags: Flags, p: Page)
    requires CanGrow(ram, root, owner, t, i, g, flags) && Covers(Child(owner[t], i), p)
    ensures Walk(Grown(ram, t, i, g, flags), root, p) == None
  {
    GrownWalk(ram, root, owner, t, i, g, flags, p);
  }

  /** Memory in which a word that is not tame is reached: the table is linked at the lowest level if the word is global,
      and one level higher if it links to a frame that holds a global leaf. */
  lemma WildLink(words: Table, g: nat, i: Idx)
    returns (ram: Ram, root: nat, owner: map<nat, Pos>, t: nat, j: Idx, p: Page)
    requires words[i].flags.present && (words[i].flags.global || (!words[i].flags.huge && words[i].frame != g))
    ensures CanGrow(ram, root, owner, t, j, g, TableFlags(true)) && ram[g] == words && Covers(Child(owner[t], j), p)
    ensures IsGlobal(Walk(Put(ram, t, j, Entry(g, TableFlags(true))), root, p))
  {
    var x := words[i].frame;
    root := g + x + 1;
    var first := Zeroed()[0 := Entry(root + 1, TableFlags(true))];
    if words[i].flags.global {
      ram, root, owner, t, j, p := WildLeaf(words, g, i);
    } else {
      var leaf := Entry(0, Flags(true, false, false, true, false, 0));
      ram := map[g := words, x := Zeroed()[0 := leaf], root := first, root + 1 := Zeroed()];
      owner := map[root := Root, root + 1 := L3(0)];
      t, j, p := root + 1, 0, Page(0, 0, i, 0);
    }
  }

  /** The same for a global word, which is read as a leaf. */
  lemma WildLeaf(words: Table, g: nat, i: Idx)
    returns (ram: Ram, root: nat, owner: map<nat, Pos>, t: nat, j: Idx, p: Page)
    requires words[i].flags.present && words[i].flags.global
    ensures CanGrow(ram, root, owner, t, j, g, TableFlags(true)) && ram[g] == words && Covers(Child(owner[t], j), p)
    ensures IsGlobal(Walk(Put(ram, t, j, Entry(g, TableFlags(true))), root, p))
  {
    root := g + 1;
    var first := Zeroed()[0 := Entry(root + 1, TableFlags(true))];
    var second := Zeroed()[0 := Entry(root + 2, TableFlags(true))];
    ram := map[g := words, root := first, root + 1 := second, root + 2 := Zeroed()];
    owner := map[root := Root, root + 1 := L3(0), root + 2 := L2(0, 0)];
    t, j, p := root + 2, 0, Page(0, 0, 0, i);
  }

  /** A free frame that holds one present, large, global word: linked below the root and not yet cleared, it is read as
      a global gigabyte page. */
  lemma StaleGigabyte() returns (ram: Ram, p: Page, stale: Entry)
    ensures CanGrow(ram, 0, map[0 := Root], 0, 0, 1, TableFlags(true)) && !Tame(ram[1], 1)
    ensures Walk(ram, 0, p) == None && Walk(Put(ram, 0, 0, Entry(1, TableFlags(true))), 0, p) == Some(stale)
    ensures stale.flags.global && !ReloadEnough(ram[1], 1)
  {
    var word := Entry(0x4_0000, Flags(true, true, true, true, true, 0));
    ram := map[0 := Zeroed(), 1 := Zeroed()[0 := word]];
    p, stale := Page(0, 0, 0, 0), word;
    assert ram[1][0] == word;
    StaleSurvives(ram[1], ram, 0, map[0 := Root], 0, 0, 1, TableFlags(true), p);
  }

  /** A page of a run after its leaf is stored: three tables are created on its way, the first of them from such a
      frame.  The buffer reads the page while that table is not cleared, and keeps what it read over the reload at the
      end. */
  lemma StaleAfterLeaf(e: Entry) returns (ram: Ram, last: Ram, seen: Tlb, p: Page)
    requires e.flags.present && e.frame != 0x4_0000
    ensures CanGrow(ram, 0, map[0 := Root], 0, 0, 1, TableFlags(true)) && Walk(ram, 0, p) == None
    ensures AllFilled(map[], seen, Put(ram, 0, 0, Entry(1, TableFlags(true))), 0)
    ensures last == Put(Grown(Grown(Grown(ram, 0, 0, 1, TableFlags(true)), 1, 0, 2, TableFlags(true)), 2, 0, 3,
                              TableFlags(true)), 3, 0, e)
    ensures Walk(last, 0, p) == Some(e) && Reloaded(seen, seen, last, 0) && !Agrees(seen, last, 0, p)
  {
    var word := Entry(0x4_0000, Flags(true, true, true, true, true, 0));
    ram := map[0 := Zeroed(), 1 := Zeroed()[0 := word], 2 := Zeroed(), 3 := Zeroed()];
    p, seen := Page(0, 0, 0, 0), map[Page(0, 0, 0, 0) := word];
    var r1 := Grown(ram, 0, 0, 1, TableFlags(true));
    var r2 := Grown(r1, 1, 0, 2, TableFlags(true));
    var r3 := Grown(r2, 2, 0, 3, TableFlags(true));
    last := Put(r3, 3, 0, e);
    assert ram[1][0] == word;
    assert Get(last, 0, 0).frame == 1 && Get(last, 1, 0).frame == 2 && Get(last, 2, 0).frame == 3;
    assert Get(last, 3, 0) == e;
  }
}
