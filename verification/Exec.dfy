/**
 Starting and ending tasks on one core: every frame stays free or with exactly one owner, a failed start gives back
 what the task had got, and a successful one leaves the program in the frames its memory map names.
 */
module Exec {
  import opened Wrappers
  import opened Paging
  import opened Ranges
  import opened Memory
  import opened Loader

  datatype Loading = Loaded | NoFrames | Panic

  function Failure(l: Loading): Option<ExecResult> {
    match l
    case Loaded => None
    case NoFrames => Some(AllocationError)
    case Panic => Some(Halted)
  }

  function Zeros(n: nat): seq<Byte> {
    seq(n, _ => 0)
  }

  /** A zero fill and then a copy leave the bytes followed by zeros. */
  lemma FilledThenCopied(
      c0: map<nat, Bytes>, c1: map<nat, Bytes>, c2: map<nat, Bytes>, frames: seq<nat>, file: seq<Byte>,
      h: ProgramHeader)
    requires Loadable(h, |file|) && |frames| == PageCount(h)
    requires Stored(c0, c1, frames, InPage(h), Zeros(h.memSize))
    requires Stored(c1, c2, frames, InPage(h), file[h.offset..h.offset + h.fileSize])
    ensures Holds(c2, frames, file, h)
    ensures c2.Keys == c0.Keys && forall f :: f in c0 && f !in frames ==> c2[f] == c0[f]
  {
    forall k | 0 <= k < h.memSize && InPage(h) + k < |frames| * PAGE_SIZE
      ensures ByteAt(c2, frames, InPage(h) + k) == ImageByte(file, h, k)
    {
    }
  }

  /** Bytes stay in place while other frames change. */
  lemma StillPlaced(
      c0: map<nat, Bytes>, c1: map<nat, Bytes>, homes: seq<Home>, file: seq<Byte>, hs: seq<ProgramHeader>,
      changed: seq<nat>)
    requires Placed(c0, homes, file, hs) && c1.Keys == c0.Keys
    requires forall f :: f in c0 && f !in changed ==> c1[f] == c0[f]
    requires forall i, x :: 0 <= i < |homes| && x in homes[i].frames ==> x !in changed
    ensures Placed(c1, homes, file, hs)
  {
    forall i | 0 <= i < |hs|
      ensures PlacedAt(c1, homes[i], file, hs[i])
    {
      assert PlacedAt(c0, homes[i], file, hs[i]);
      StillHolds(c0, c1, homes[i].frames, file, hs[i]);
    }
  }

  lemma StillHolds(c0: map<nat, Bytes>, c1: map<nat, Bytes>, frames: seq<nat>, file: seq<Byte>, h: ProgramHeader)
    requires c1.Keys == c0.Keys && forall x :: x in frames && x in c0 ==> c1[x] == c0[x]
    ensures Holds(c0, frames, file, h) ==> Holds(c1, frames, file, h)
  {
    if Holds(c0, frames, file, h) {
      forall k | 0 <= k < h.memSize && InPage(h) + k < |frames| * PAGE_SIZE
        ensures ByteAt(c1, frames, InPage(h) + k) == ImageByte(file, h, k)
      {
        assert ByteAt(c0, frames, InPage(h) + k) == ImageByte(file, h, k);
      }
    }
  }

  /** Only frames that were free have new bytes. */
  ghost predicate Kept(free: set<nat>, c0: map<nat, Bytes>, c1: map<nat, Bytes>) {
    c1.Keys == c0.Keys && forall f :: f in c0 && f !in free ==> c1[f] == c0[f]
  }

  lemma KeptOn(free: set<nat>, free': set<nat>, c0: map<nat, Bytes>, c1: map<nat, Bytes>, c2: map<nat, Bytes>)
    requires Kept(free, c0, c1) && free' <= free && Kept(free', c1, c2)
    ensures Kept(free, c0, c2)
  {
  }

  lemma KeptBut(free: set<nat>, frames: seq<nat>, c0: map<nat, Bytes>, c1: map<nat, Bytes>)
    requires Elements(frames) <= free && c1.Keys == c0.Keys
    requires forall f :: f in c0 && f !in frames ==> c1[f] == c0[f]
    ensures Kept(free, c0, c1)
  {
    ElementsAre(frames);
  }

  /** The frames were taken from those that were free. */
  ghost predicate Taken(before: set<nat>, free: set<nat>, got: seq<nat>) {
    && Distinct(got) && Elements(got) <= before && free == before - Elements(got)
    && |free| == |before| - |got|
  }

  lemma TakenNext(before: set<nat>, free: set<nat>, free': set<nat>, got: seq<nat>, f: nat)
    requires Taken(before, free, got) && f in free && free' == free - {f}
    ensures Taken(before, free', got + [f])
  {
    ElementsAppend(got, f);
  }

  /** With no frame left, what was taken is all there was. */
  lemma AllTaken(before: set<nat>, got: seq<nat>, free: set<nat>)
    requires Taken(before, {}, got) && free == {} + Elements(got)
    ensures free == before && |before| == |got|
  {
  }

  /** The map grew by the frames' mappings. */
  ghost predicate Extended(ms: seq<MemoryMapping>, ms': seq<MemoryMapping>, page: nat, got: seq<nat>, flags: Flags) {
    && |ms'| == |ms| + |got| && ms <= ms'
    && forall j :: 0 <= j < |got| ==>
         ms'[|ms| + j].frame == got[j] && ms'[|ms| + j].page == page + j && ms'[|ms| + j].flags == flags
  }

  lemma ExtendedNext(
      ms: seq<MemoryMapping>, ms': seq<MemoryMapping>, page: nat, got: seq<nat>, flags: Flags, m: MemoryMapping)
    requires Extended(ms, ms', page, got, flags) && m.page == page + |got| && m.flags == flags
    ensures Extended(ms, ms' + [m], page, got + [m.frame], flags)
  {
    forall j | 0 <= j < |got|
      ensures (ms' + [m])[|ms| + j] == ms'[|ms| + j] && (got + [m.frame])[j] == got[j]
    {
    }
  }

  lemma ExtendedBy(ms: seq<MemoryMapping>, ms': seq<MemoryMapping>, page: nat, got: seq<nat>, flags: Flags)
    requires Extended(ms, ms', page, got, flags) && page + |got| <= PAGE_COUNT
    ensures ms' == ms + Pages(page, got, flags) && Frames(ms'[|ms|..]) == got
  {
    assert ms'[..|ms|] == ms && ms'[|ms|..] == Pages(page, got, flags);
  }

  // ---------------------------------------------------------------- one more segment

  /** The homes of the headers read so far make up the map, keep apart, and hold the segments' bytes. */
  ghost predicate Built(
      ms: seq<MemoryMapping>, homes: seq<Home>, cells: map<nat, Bytes>, file: seq<Byte>, hs: seq<ProgramHeader>)
  {
    && Placed(cells, homes, file, hs) && ms == Layout(homes) && Apart(homes)
    && forall i, x :: 0 <= i < |homes| && x in homes[i].frames ==> x in Frames(ms)
  }

  lemma BuiltNext(
      ms: seq<MemoryMapping>, homes: seq<Home>, c0: map<nat, Bytes>, c1: map<nat, Bytes>, file: seq<Byte>,
      hs: seq<ProgramHeader>, home: Home, h: ProgramHeader)
    requires Built(ms, homes, c0, file, hs) && home.Valid() && PlacedAt(c1, home, file, h)
    requires c1.Keys == c0.Keys && forall f :: f in c0 && f !in home.frames ==> c1[f] == c0[f]
    requires forall x :: x in home.frames ==> x !in Frames(ms)
    ensures Built(ms + Mappings(home), homes + [home], c1, file, hs + [h])
  {
    StillPlaced(c0, c1, homes, file, hs, home.frames);
    PlacedNext(c1, homes, file, hs, home, h);
    LayoutNext(homes, home);
    FramesAppend(ms, Mappings(home));
  }

  lemma PlacedNext(
      cells: map<nat, Bytes>, homes: seq<Home>, file: seq<Byte>, hs: seq<ProgramHeader>, home: Home, h: ProgramHeader)
    requires Placed(cells, homes, file, hs) && home.Valid() && PlacedAt(cells, home, file, h)
    ensures Placed(cells, homes + [home], file, hs + [h])
  {
    forall i | 0 <= i < |hs + [h]|
      ensures PlacedAt(cells, (homes + [home])[i], file, (hs + [h])[i])
    {
      assert i < |hs| ==> PlacedAt(cells, homes[i], file, hs[i]);
    }
  }

  lemma LayoutNext(homes: seq<Home>, home: Home)
    requires AllValid(homes) && home.Valid()
    ensures AllValid(homes + [home]) && Layout(homes + [home]) == Layout(homes) + Mappings(home)
  {
    assert (homes + [home])[..|homes|] == homes;
  }

  lemma FramesAppend(a: seq<MemoryMapping>, b: seq<MemoryMapping>)
    ensures Frames(a + b) == Frames(a) + Frames(b)
  {
  }

  /** One more segment: the map and the books with its frames. */
  lemma LoadedNext(
      ms: seq<MemoryMapping>, homes: seq<Home>, c0: map<nat, Bytes>, c1: map<nat, Bytes>, file: seq<Byte>,
      hs: seq<ProgramHeader>, home: Home, h: ProgramHeader, free: set<nat>, before: multiset<nat>,
      after: multiset<nat>, held: multiset<nat>)
    requires Built(ms, homes, c0, file, hs) && home.Valid() && PlacedAt(c1, home, file, h)
    requires c1.Keys == c0.Keys && forall f :: f in c0 && f !in home.frames ==> c1[f] == c0[f]
    requires Elements(home.frames) <= free && forall x :: x in Frames(ms) ==> x !in free
    requires after + multiset(home.frames) == before
    ensures Built(ms + Mappings(home), homes + [home], c1, file, hs + [h])
    ensures after + held + multiset(Frames(ms + Mappings(home))) == before + held + multiset(Frames(ms))
  {
    ElementsAre(home.frames);
    BuiltNext(ms, homes, c0, c1, file, hs, home, h);
    FramesAppend(ms, Mappings(home));
    Moved(before, after, held, Frames(ms), home.frames);
  }

  /** Why an accepted segment was not loaded. */
  lemma FailureIsVerdict(h: ProgramHeader, fileLen: nat, l: Loading, left: nat, missing: nat, dry: bool)
    requires Refusal(h, fileLen) == None && (l.NoFrames? <==> PageCount(h) > left)
    requires l.Loaded? <==> h.fileSize <= h.memSize && PageCount(h) + missing <= left
    requires l.Panic? ==> dry || h.fileSize > h.memSize
    ensures l.Loaded? <==> Loadable(h, fileLen) && PageCount(h) + missing <= left
    ensures !l.Loaded? ==> Verdict(h, fileLen, Failure(l).value, left, missing)
    ensures !l.Loaded? ==> Explains(h, fileLen, Failure(l).value, PageCount(h) > left, dry)
  {
    AcceptedIff(h, fileLen);
  }

  /** A header of another kind leaves everything as it is. */
  lemma SkipHeader(
      ms: seq<MemoryMapping>, homes: seq<Home>, cells: map<nat, Bytes>, file: seq<Byte>, hs: seq<ProgramHeader>,
      h: ProgramHeader)
    requires Built(ms, homes, cells, file, hs) && !h.load
    ensures Built(ms, homes + [Home(0, [], NO_FLAGS)], cells, file, hs + [h])
  {
    BuiltNext(ms, homes, cells, cells, file, hs, Home(0, [], NO_FLAGS), h);
    assert ms + [] == ms;
  }

  /** The pages the segments need. */
  function PagesOf(hs: seq<ProgramHeader>): nat {
    if hs == [] then 0 else
      PagesOf(hs[..|hs| - 1]) + if hs[|hs| - 1].load then PageCount(hs[|hs| - 1]) else 0
  }

  /** The tables that the temporary views of the segments need. */
  ghost function TablesOf(core: CoreId, hs: seq<ProgramHeader>): set<Pos> {
    if hs == [] then {} else TablesOf(core, hs[..|hs| - 1]) + ViewTables(core, hs[|hs| - 1])
  }

  ghost function ViewTables(core: CoreId, h: ProgramHeader): set<Pos> {
    if h.load then Ways(TmpPage(core), PageCount(h)) else {}
  }

  lemma TablesOfNext(core: CoreId, hs: seq<ProgramHeader>, h: ProgramHeader)
    ensures TablesOf(core, hs + [h]) == TablesOf(core, hs) + ViewTables(core, h)
  {
    assert (hs + [h])[..|hs|] == hs;
  }

  /** With `had` free frames there are enough for the segments' pages and for the tables of their views that are not
      linked yet. */
  ghost predicate Enough(core: CoreId, hs: seq<ProgramHeader>, linked: set<Pos>, had: nat) {
    PagesOf(hs) + |Unlinked(TablesOf(core, hs), linked)| <= had
  }

  ghost predicate AllLoadable(hs: seq<ProgramHeader>, fileLen: nat) {
    forall i :: 0 <= i < |hs| && hs[i].load ==> Loadable(hs[i], fileLen)
  }

  /** All segments are accepted, and there are frames for their pages and for the tables of their views. */
  ghost predicate CanLoad(core: CoreId, hs: seq<ProgramHeader>, fileLen: nat, linked: set<Pos>, had: nat) {
    AllLoadable(hs, fileLen) && Enough(core, hs, linked, had)
  }

  /** Memory before a program is loaded. */
  datatype Before = Before(free: set<nat>, tables: seq<nat>, linked: set<Pos>, cells: map<nat, Bytes>, pages: PageMap)

  /** Loading changes no page but those of the core's own view: 32 GiB and a page, 9 TiB and 32 GiB per core above the
      start of kernel space.  There pages are mapped for the kernel to write, and not unmapped again. */
  ghost predicate ViewOnly(core: CoreId, pages0: PageMap, pages: PageMap) {
    var base := 0x8000_0000_0000 + 9 * 0x100_0000_0000 + core * 0x8_0000_0000;
    forall p: nat :: Lookup(pages, p) == Lookup(pages0, p) || InView(base, pages, p)
  }

  ghost predicate InView(base: nat, pages: PageMap, p: nat) {
    && base <= p * 4096 < base + 0x8_0000_1000
    && p in pages && pages[p].flags == Flags(true, true, false, true, false, 0)
  }

  lemma ViewIsView(core: CoreId, pages0: PageMap, pages: PageMap, n: nat)
    requires SameElsewhere(pages0, pages, TmpPage(core), n, NO_FLAGS.(writable := true)) && n <= 0x80_0001
    ensures ViewOnly(core, pages0, pages)
  {
  }

  /** The frames left for header i, after the pages and the tables of those before it. */
  ghost function LeftFor(core: CoreId, hs: seq<ProgramHeader>, linked: set<Pos>, had: nat): int {
    had - PagesOf(hs) - |Unlinked(TablesOf(core, hs), linked)|
  }

  /** The headers before i are loaded, and i is not: the verdict on it is the result. */
  ghost predicate StopsWith(
      core: CoreId, hs: seq<ProgramHeader>, i: nat, fileLen: nat, linked: set<Pos>, had: nat, r: ExecResult)
  {
    && i < |hs| && hs[i].load && CanLoad(core, hs[..i], fileLen, linked, had)
    && LeftFor(core, hs[..i], linked, had) >= 0
    && Verdict(hs[i], fileLen, r, LeftFor(core, hs[..i], linked, had),
               |Unlinked(ViewTables(core, hs[i]), linked + TablesOf(core, hs[..i]))|)
  }

  ghost predicate Stops(
      core: CoreId, hs: seq<ProgramHeader>, fileLen: nat, linked: set<Pos>, had: nat, r: ExecResult)
  {
    exists i: nat :: StopsWith(core, hs, i, fileLen, linked, had, r)
  }

  lemma StopsHere(core: CoreId, hs: seq<ProgramHeader>, h: ProgramHeader, fileLen: nat, linked0: set<Pos>, had: nat,
                  linked: set<Pos>, left: nat, r: ExecResult)
    requires Spent(core, hs, linked0, had, linked, left) && AllLoadable(hs, fileLen) && h.load
    requires Verdict(h, fileLen, r, left, |Unlinked(ViewTables(core, h), linked)|)
    ensures Stops(core, hs + [h], fileLen, linked0, had, r)
  {
    LinkedCount(linked0, TablesOf(core, hs));
    assert (hs + [h])[..|hs|] == hs;
    assert StopsWith(core, hs + [h], |hs|, fileLen, linked0, had, r);
  }

  lemma StopsLater(
      core: CoreId, hs: seq<ProgramHeader>, k: nat, fileLen: nat, linked: set<Pos>, had: nat, r: ExecResult)
    requires k <= |hs| && Stops(core, hs[..k], fileLen, linked, had, r)
    ensures Stops(core, hs, fileLen, linked, had, r)
  {
    var i: nat :| StopsWith(core, hs[..k], i, fileLen, linked, had, r);
    StopsSame(core, hs, k, i, fileLen, linked, had, r);
  }

  lemma StopsSame(
      core: CoreId, hs: seq<ProgramHeader>, k: nat, i: nat, fileLen: nat, linked: set<Pos>, had: nat, r: ExecResult)
    requires i < k <= |hs| && StopsWith(core, hs[..k], i, fileLen, linked, had, r)
    ensures StopsWith(core, hs, i, fileLen, linked, had, r)
  {
    assert hs[..k][..i] == hs[..i] && hs[..k][i] == hs[i];
  }

  /** A header that stops the load is not loaded with those before it. */
  lemma StopsFor(
      core: CoreId, hs: seq<ProgramHeader>, i: nat, fileLen: nat, linked: set<Pos>, had: nat, r: ExecResult)
    requires StopsWith(core, hs, i, fileLen, linked, had, r)
    ensures !CanLoad(core, hs[..i + 1], fileLen, linked, had)
  {
    var (done, h) := (hs[..i], hs[i]);
    var (now, left) := (linked + TablesOf(core, done), LeftFor(core, done, linked, had));
    OneVerdict(h, fileLen, r, r, left, |Unlinked(ViewTables(core, h), now)|);
    LinkedCount(linked, TablesOf(core, done));
    CanLoadNext(core, done, h, fileLen, linked, had, now, left);
    Prefix(hs, i);
  }

  lemma CanLoadEarlier(core: CoreId, hs: seq<ProgramHeader>, k: nat, fileLen: nat, linked: set<Pos>, had: nat)
    requires k <= |hs| && CanLoad(core, hs, fileLen, linked, had)
    ensures CanLoad(core, hs[..k], fileLen, linked, had)
  {
    EnoughEarlier(core, hs, k, linked, had);
  }

  /** So a program has at most one result, and none of these if it can be loaded. */
  lemma StopsOnce(
      core: CoreId, hs: seq<ProgramHeader>, fileLen: nat, linked: set<Pos>, had: nat, r: ExecResult, r': ExecResult)
    requires Stops(core, hs, fileLen, linked, had, r)
    ensures !CanLoad(core, hs, fileLen, linked, had)
    ensures Stops(core, hs, fileLen, linked, had, r') ==> r' == r
  {
    var i: nat :| StopsWith(core, hs, i, fileLen, linked, had, r);
    StopsFor(core, hs, i, fileLen, linked, had, r);
    if CanLoad(core, hs, fileLen, linked, had) {
      CanLoadEarlier(core, hs, i + 1, fileLen, linked, had);
    }
    if Stops(core, hs, fileLen, linked, had, r') {
      var j: nat :| StopsWith(core, hs, j, fileLen, linked, had, r');
      StopsFor(core, hs, j, fileLen, linked, had, r');
      FirstStop(core, hs, i, j, fileLen, linked, had);
      FirstStop(core, hs, j, i, fileLen, linked, had);
      OneVerdict(hs[i], fileLen, r, r', LeftFor(core, hs[..i], linked, had),
                 |Unlinked(ViewTables(core, hs[i]), linked + TablesOf(core, hs[..i]))|);
    }
  }

  lemma FirstStop(core: CoreId, hs: seq<ProgramHeader>, i: nat, j: nat, fileLen: nat, linked: set<Pos>, had: nat)
    requires i < |hs| && j < |hs| && !CanLoad(core, hs[..i + 1], fileLen, linked, had)
    requires CanLoad(core, hs[..j], fileLen, linked, had)
    ensures j <= i
  {
    if i < j {
      assert hs[..j][..i + 1] == hs[..i + 1];
      CanLoadEarlier(core, hs[..j], i + 1, fileLen, linked, had);
    }
  }

  /** The books after some headers: which tables are linked, and how many frames are left. */
  ghost predicate Spent(
      core: CoreId, hs: seq<ProgramHeader>, linked0: set<Pos>, had: nat, linked: set<Pos>, left: nat)
  {
    linked == linked0 + TablesOf(core, hs) && left + PagesOf(hs) + |linked| == had + |linked0|
  }

  /** What one more header needs from what is left. */
  ghost predicate EnoughFor(core: CoreId, h: ProgramHeader, linked: set<Pos>, left: nat) {
    h.load ==> PageCount(h) + |Unlinked(ViewTables(core, h), linked)| <= left
  }

  /** The frames left are enough for the next header exactly when those at first were enough for all so far. */
  lemma EnoughNext(
      core: CoreId, hs: seq<ProgramHeader>, h: ProgramHeader, linked0: set<Pos>, had: nat, linked: set<Pos>, left: nat)
    requires Spent(core, hs, linked0, had, linked, left)
    ensures EnoughFor(core, h, linked, left) <==> Enough(core, hs + [h], linked0, had)
  {
    PagesOfNext(hs, h);
    TablesOfNext(core, hs, h);
    var (done, w) := (TablesOf(core, hs), ViewTables(core, h));
    LinkedCount(linked0, done + w);
    LinkedCount(linked, w);
    assert linked + w == linked0 + (done + w);
  }

  lemma CanLoadNext(
      core: CoreId, hs: seq<ProgramHeader>, h: ProgramHeader, fileLen: nat, linked0: set<Pos>, had: nat,
      linked: set<Pos>, left: nat)
    requires Spent(core, hs, linked0, had, linked, left) && AllLoadable(hs, fileLen)
    ensures (h.load ==> Loadable(h, fileLen)) && EnoughFor(core, h, linked, left) <==>
            CanLoad(core, hs + [h], fileLen, linked0, had)
  {
    EnoughNext(core, hs, h, linked0, had, linked, left);
    assert (hs + [h])[|hs|] == h;
    assert forall i :: 0 <= i < |hs| ==> (hs + [h])[i] == hs[i];
  }

  lemma SpentNext(
      core: CoreId, hs: seq<ProgramHeader>, h: ProgramHeader, linked0: set<Pos>, had: nat, linked: set<Pos>, left: nat,
      linked': set<Pos>, left': nat)
    requires Spent(core, hs, linked0, had, linked, left) && linked' == linked + ViewTables(core, h)
    requires left' + |linked'| + (if h.load then PageCount(h) else 0) == left + |linked|
    ensures Spent(core, hs + [h], linked0, had, linked', left')
  {
    PagesOfNext(hs, h);
    TablesOfNext(core, hs, h);
    assert linked' == linked0 + (TablesOf(core, hs) + ViewTables(core, h));
  }

  /** Too few for some of the headers are too few for all. */
  lemma {:induction false} EnoughEarlier(core: CoreId, hs: seq<ProgramHeader>, k: nat, linked: set<Pos>, had: nat)
    requires k <= |hs| && Enough(core, hs, linked, had)
    ensures Enough(core, hs[..k], linked, had)
    decreases |hs|
  {
    if k == |hs| {
      assert hs[..k] == hs;
    } else {
      var (most, last) := (hs[..|hs| - 1], hs[|hs| - 1]);
      assert hs == most + [last] && hs[..k] == most[..k];
      PagesOfNext(most, last);
      TablesOfNext(core, most, last);
      LinkedMore(linked, TablesOf(core, most), TablesOf(core, hs));
      EnoughEarlier(core, most, k, linked, had);
    }
  }

  lemma Prefix(hs: seq<ProgramHeader>, i: nat)
    requires i < |hs|
    ensures hs[..i + 1] == hs[..i] + [hs[i]]
  {
  }

  lemma SpentEnough(core: CoreId, hs: seq<ProgramHeader>, linked0: set<Pos>, had: nat, linked: set<Pos>, left: nat)
    requires Spent(core, hs, linked0, had, linked, left)
    ensures Enough(core, hs, linked0, had)
  {
    LinkedCount(linked0, TablesOf(core, hs));
  }

  lemma PagesOfNext(hs: seq<ProgramHeader>, h: ProgramHeader)
    ensures PagesOf(hs + [h]) == PagesOf(hs) + if h.load then PageCount(h) else 0
  {
    assert (hs + [h])[..|hs|] == hs;
  }

  /** Header i is the first that cannot be loaded, and r says why.  `room` is the number of frames that were free and
      have not become tables, and `dry` says that no frame is left. */
  ghost predicate FailsAt(hs: seq<ProgramHeader>, fileLen: nat, i: nat, r: ExecResult, room: int, dry: bool) {
    && i < |hs| && hs[i].load && (forall j :: 0 <= j < i && hs[j].load ==> Loadable(hs[j], fileLen))
    && Explains(hs[i], fileLen, r, room < PagesOf(hs[..i + 1]), dry)
  }

  ghost predicate Explains(h: ProgramHeader, fileLen: nat, r: ExecResult, tooFew: bool, dry: bool) {
    match Refusal(h, fileLen)
    case Some(why) => r == why
    case None => (r == AllocationError && tooFew) || (r == Halted && (h.fileSize > h.memSize || dry))
  }

  lemma FailsHere(
      hs: seq<ProgramHeader>, fileLen: nat, i: nat, r: ExecResult, tooFew: bool, room: int, dry: bool)
    requires i < |hs| && hs[i].load && Explains(hs[i], fileLen, r, tooFew, dry)
    requires forall j :: 0 <= j < |hs[..i]| && hs[..i][j].load ==> Loadable(hs[..i][j], fileLen)
    requires r == AllocationError && tooFew ==> room < PagesOf(hs[..i]) + PageCount(hs[i])
    ensures FailsWith(hs, fileLen, r, room, dry)
  {
    assert hs[..i + 1] == hs[..i] + [hs[i]];
    PagesOfNext(hs[..i], hs[i]);
    assert forall j :: 0 <= j < i ==> hs[j] == hs[..i][j];
    assert FailsAt(hs, fileLen, i, r, room, dry);
  }

  lemma FailsNow(
      done: seq<ProgramHeader>, h: ProgramHeader, fileLen: nat, r: ExecResult, tooFew: bool, room: int, dry: bool)
    requires h.load && Explains(h, fileLen, r, tooFew, dry)
    requires forall j :: 0 <= j < |done| && done[j].load ==> Loadable(done[j], fileLen)
    requires r == AllocationError && tooFew ==> room < PagesOf(done) + PageCount(h)
    ensures FailsWith(done + [h], fileLen, r, room, dry)
  {
    assert (done + [h])[..|done|] == done;
    FailsHere(done + [h], fileLen, |done|, r, tooFew, room, dry);
  }

  /** What keeps the first k headers from being loaded keeps all from it. */
  lemma StopsAt(
      core: CoreId, hs: seq<ProgramHeader>, k: nat, fileLen: nat, r: ExecResult, room: int, dry: bool, linked: set<Pos>,
      had: nat)
    requires k <= |hs| && FailsWith(hs[..k], fileLen, r, room, dry) && !CanLoad(core, hs[..k], fileLen, linked, had)
    ensures FailsWith(hs, fileLen, r, room, dry) && !CanLoad(core, hs, fileLen, linked, had)
  {
    var i: nat :| FailsAt(hs[..k], fileLen, i, r, room, dry);
    assert hs[..k][..i + 1] == hs[..i + 1];
    assert FailsAt(hs, fileLen, i, r, room, dry);
    if Enough(core, hs, linked, had) {
      EnoughEarlier(core, hs, k, linked, had);
    }
  }

  ghost predicate FailsWith(hs: seq<ProgramHeader>, fileLen: nat, r: ExecResult, room: int, dry: bool) {
    exists i: nat :: FailsAt(hs, fileLen, i, r, room, dry)
  }

  lemma LoadableSoFar(
      ms: seq<MemoryMapping>, homes: seq<Home>, cells: map<nat, Bytes>, file: seq<Byte>, hs: seq<ProgramHeader>)
    requires Built(ms, homes, cells, file, hs)
    ensures forall j :: 0 <= j < |hs| && hs[j].load ==> Loadable(hs[j], |file|)
  {
    forall j | 0 <= j < |hs| && hs[j].load
      ensures Loadable(hs[j], |file|)
    {
      assert PlacedAt(cells, homes[j], file, hs[j]);
    }
  }

  /** The counter of memory maps is a constant, so that every use starts from a new zero. */
  function NewMapId(): nat {
    0
  }

  class TaskList {
    const mem: Memory
    const core: CoreId
    var tasks: seq<Task>
    var ids: nat
    /** The id of the memory map the core applied last. */
    var active: Option<nat>

    /** Each frame is free or has exactly one owner: a page table, the kernel, or a task. */
    ghost predicate Valid()
      reads this, mem
    {
      Conserved([])
    }

    /** The same while a task that is not in the list yet holds frames. */
    ghost predicate Conserved(held: seq<nat>)
      reads this, mem
    {
      && mem.Ledger() + Held(tasks) + multiset(held) == multiset(mem.universe)
      && mem.Backed()
    }

    constructor (mem: Memory, core: CoreId)
      requires mem.Ledger() == multiset(mem.universe) && mem.Backed()
      ensures this.mem == mem && this.core == core && tasks == [] && active == None && Valid()
    {
      this.mem := mem;
      this.core := core;
      tasks := [];
      ids := 0;
      active := None;
    }

    /** MemoryMap::allocate.  What it got is in the map even when it fails and has freed it. */
    method Allocate(ms: seq<MemoryMapping>, page: PageNo, n: nat, flags: Flags)
        returns (frames: Option<seq<nat>>, ms': seq<MemoryMapping>)
      requires page + n <= PAGE_COUNT
      modifies mem`free
      ensures frames.Some? <==> n <= |old(mem.free)|
      ensures frames.None? ==> mem.free == old(mem.free) && ms <= ms' && Elements(Frames(ms'[|ms|..])) <= mem.free
      ensures frames.Some? ==>
                && |frames.value| == n && ms' == ms + Pages(page, frames.value, flags)
                && Taken(old(mem.free), mem.free, frames.value)
    {
      var got: seq<nat> := [];
      ms' := ms;
      for i := 0 to n
        invariant |got| == i && Taken(old(mem.free), mem.free, got)
        invariant Extended(ms, ms', page, got, flags)
      {
        ghost var free := mem.free;
        var frame := mem.Palloc();
        if frame.None? {
          mem.PfreeAll(got);
          AllTaken(old(mem.free), got, mem.free);
          ExtendedBy(ms, ms', page, got, flags);
          return None, ms';
        }
        TakenNext(old(mem.free), free, mem.free, got, frame.value);
        var m := MemoryMapping(page + i, frame.value, flags);
        ExtendedNext(ms, ms', page, got, flags, m);
        got, ms' := got + [frame.value], ms' + [m];
      }
      ExtendedBy(ms, ms', page, got, flags);
      frames := Some(got);
    }

    /** Dropping a memory map frees the frame of each of its mappings. */
    method DropMap(ms: seq<MemoryMapping>)
      modifies mem`free
      ensures mem.free == old(mem.free) + Elements(Frames(ms))
    {
      for i := 0 to |ms|
        invariant mem.free == old(mem.free) + Elements(Frames(ms[..i]))
      {
        mem.Pfree(ms[i].frame);
        assert Frames(ms[..i + 1]) == Frames(ms[..i]) + [ms[i].frame];
        ElementsAppend(Frames(ms[..i]), ms[i].frame);
      }
      assert ms[..|ms|] == ms;
    }

    /** One segment: frames for its pages, a temporary view of them, a zero fill and the file's bytes. */
    method LoadSegment(ms: seq<MemoryMapping>, file: seq<Byte>, h: ProgramHeader)
        returns (r: Loading, ms': seq<MemoryMapping>, ghost home: Home)
      requires h.load && Refusal(h, |file|) == None && mem.Backed() && mem.free <= mem.universe
      modifies mem`free, mem`tables, mem`linked, mem`pages, mem`cells
      ensures old(mem.tables) <= mem.tables && mem.cells.Keys == old(mem.cells.Keys)
      ensures r.NoFrames? <==> PageCount(h) > |old(mem.free)|
      ensures r.Loaded? <==> h.fileSize <= h.memSize && EnoughFor(core, h, old(mem.linked), |old(mem.free)|)
      ensures r.Loaded? ==> HeaderPaid(h, old(mem.linked), |old(mem.free)|)
      ensures r.NoFrames? ==>
                && mem.free == old(mem.free) && mem.tables == old(mem.tables) && mem.cells == old(mem.cells)
                && ms <= ms' && Elements(Frames(ms'[|ms|..])) <= mem.free
      ensures r.Loaded? ==>
                && home.Valid() && ms' == ms + Mappings(home) && PlacedAt(mem.cells, home, file, h)
                && Distinct(home.frames) && Elements(home.frames) <= old(mem.free)
                && mem.Ledger() + multiset(home.frames) == old(mem.Ledger()) && mem.free <= old(mem.free)
                && forall f :: f in old(mem.cells) && f !in home.frames ==> mem.cells[f] == old(mem.cells)[f]
      ensures r.Loaded? ==> |mem.free| + |mem.tables| + PageCount(h) == old(|mem.free| + |mem.tables|)
      ensures r.Panic? ==> mem.free == {} || h.fileSize > h.memSize
      ensures Kept(old(mem.free), old(mem.cells), mem.cells) && ViewOnly(core, old(mem.pages), mem.pages)
    {
      home := Home(0, [], NO_FLAGS);
      var frames;
      frames, ms' := AllocateFor(ms, file, h);
      if frames.None? {
        return NoFrames, ms', home;
      }
      home := Home(FirstPage(h), frames.value, MemoryFlags(h));
      r := Transfer(frames.value, file, h);
      KeptBut(old(mem.free), frames.value, old(mem.cells), mem.cells);
    }

    /** Frames for a segment's pages. */
    method AllocateFor(ms: seq<MemoryMapping>, ghost file: seq<Byte>, h: ProgramHeader)
        returns (frames: Option<seq<nat>>, ms': seq<MemoryMapping>)
      requires h.load && Refusal(h, |file|) == None && mem.Backed() && mem.free <= mem.universe
      modifies mem`free
      ensures frames.None? <==> PageCount(h) > |old(mem.free)|
      ensures frames.None? ==> mem.free == old(mem.free) && ms <= ms' && Elements(Frames(ms'[|ms|..])) <= mem.free
      ensures frames.Some? ==>
                var home := Home(FirstPage(h), frames.value, MemoryFlags(h));
                && home.Valid() && ms' == ms + Mappings(home) && |frames.value| == PageCount(h)
                && Owned(frames.value, mem.cells) && Distinct(frames.value) && Elements(frames.value) <= old(mem.free)
      ensures frames.Some? ==>
                && mem.Ledger() + multiset(frames.value) == old(mem.Ledger()) && mem.free <= old(mem.free)
                && |mem.free| + PageCount(h) == |old(mem.free)|
    {
      SegmentFits(h, |file|);
      frames, ms' := Allocate(ms, FirstPage(h), PageCount(h), MemoryFlags(h));
      if frames.Some? {
        LedgerWithout(old(mem.free), mem.free, frames.value, multiset(mem.tables), multiset(mem.kernel));
        ElementsAre(frames.value);
      }
    }

    /** Fills a segment's frames through the temporary view. */
    method Transfer(frames: seq<nat>, file: seq<Byte>, h: ProgramHeader) returns (r: Loading)
      requires h.load && Refusal(h, |file|) == None && |frames| == PageCount(h)
      requires Owned(frames, mem.cells) && Distinct(frames)
      modifies mem`free, mem`tables, mem`linked, mem`pages, mem`cells
      ensures old(mem.tables) <= mem.tables && mem.cells.Keys == old(mem.cells.Keys)
      ensures mem.Ledger() == old(mem.Ledger()) && |mem.free| + |mem.tables| == old(|mem.free| + |mem.tables|)
      ensures !r.NoFrames? && (r.Panic? ==> mem.free == {} || h.fileSize > h.memSize)
      ensures r.Loaded? <==>
                h.fileSize <= h.memSize && |Unlinked(ViewTables(core, h), old(mem.linked))| <= |old(mem.free)|
      ensures r.Loaded? ==> mem.linked == old(mem.linked) + ViewTables(core, h)
      ensures r.Loaded? ==> |mem.free| + |mem.linked| == old(|mem.free| + |mem.linked|)
      ensures r.Loaded? ==> Holds(mem.cells, frames, file, h)
      ensures mem.free <= old(mem.free) && ViewOnly(core, old(mem.pages), mem.pages)
      ensures forall f :: f in old(mem.cells) && f !in frames ==> mem.cells[f] == old(mem.cells)[f]
    {
      SegmentFits(h, |file|);
      var ok := mem.VmapMany(TmpPage(core), frames, NO_FLAGS.(writable := true));
      ViewIsView(core, old(mem.pages), mem.pages, |frames|);
      if !ok {
        return Panic;
      }
      r := FillAndCopy(frames, file, h);
    }

    method FillAndCopy(ghost frames: seq<nat>, file: seq<Byte>, h: ProgramHeader) returns (r: Loading)
      requires Refusal(h, |file|) == None && |frames| == PageCount(h) && InPage(h) + h.memSize <= |frames| * PAGE_SIZE
      requires Views(mem.pages, TmpPage(core), frames) && Owned(frames, mem.cells) && Distinct(frames)
      modifies mem`cells
      ensures mem.cells.Keys == old(mem.cells.Keys) && !r.NoFrames? && (r.Panic? <==> h.fileSize > h.memSize)
      ensures r.Loaded? ==> Holds(mem.cells, frames, file, h)
      ensures forall f :: f in old(mem.cells) && f !in frames ==> mem.cells[f] == old(mem.cells)[f]
    {
      mem.StoreAll(TmpPage(core), frames, InPage(h), Zeros(h.memSize));
      if h.fileSize > h.memSize {
        return Panic;
      }
      ghost var filled := mem.cells;
      mem.StoreAll(TmpPage(core), frames, InPage(h), file[h.offset..h.offset + h.fileSize]);
      FilledThenCopied(old(mem.cells), filled, mem.cells, frames, file, h);
      r := Loaded;
    }

    /** Drops a map whose frames are not in the list of tasks; some of them may have been freed already. */
    method Abandon(ms: seq<MemoryMapping>, ghost kept: seq<nat>, ghost again: seq<nat>)
      requires Frames(ms) == kept + again && Conserved(kept) && Elements(again) <= mem.free
      modifies mem`free
      ensures Valid() && mem.free == old(mem.free) + Elements(kept)
    {
      DropMap(ms);
      ElementsConcat(kept, again);
      Released(old(mem.free), mem.free, multiset(mem.tables), multiset(mem.kernel), Held(tasks), kept, mem.universe);
    }

    /** Loads the next segment, if there are frames for it, on top of those loaded before. */
    method LoadNext(
        ms: seq<MemoryMapping>, ghost homes: seq<Home>, file: seq<Byte>, ghost hs: seq<ProgramHeader>, h: ProgramHeader)
        returns (r: Loading, ms': seq<MemoryMapping>, ghost homes': seq<Home>)
      requires h.load && Refusal(h, |file|) == None
      requires Conserved(Frames(ms)) && Built(ms, homes, mem.cells, file, hs)
      modifies mem`free, mem`tables, mem`linked, mem`pages, mem`cells
      ensures old(mem.tables) <= mem.tables
      ensures r.NoFrames? ==> Valid() && mem.free == old(mem.free) + Elements(Frames(ms)) && mem.cells == old(mem.cells)
      ensures r.NoFrames? ==> PageCount(h) > |old(mem.free)| && mem.tables == old(mem.tables)
      ensures r.Loaded? <==> h.fileSize <= h.memSize && EnoughFor(core, h, old(mem.linked), |old(mem.free)|)
      ensures r.Loaded? ==> HeaderPaid(h, old(mem.linked), |old(mem.free)|)
      ensures r.Panic? ==> mem.free == {} || h.fileSize > h.memSize
      ensures r.Loaded? ==> |mem.free| + |mem.tables| + PageCount(h) == old(|mem.free| + |mem.tables|)
      ensures r.Loaded? ==> Conserved(Frames(ms')) && Built(ms', homes', mem.cells, file, hs + [h])
      ensures Kept(old(mem.free), old(mem.cells), mem.cells) && (r.Loaded? ==> mem.free <= old(mem.free))
      ensures ViewOnly(core, old(mem.pages), mem.pages) && (!r.NoFrames? ==> PageCount(h) <= |old(mem.free)|)
    {
      FreeIsManaged(mem.free, multiset(mem.tables), multiset(mem.kernel), Held(tasks), Frames(ms), mem.universe);
      ghost var home;
      r, ms', home := LoadSegment(ms, file, h);
      homes' := homes + [home];
      if r.NoFrames? {
        ghost var again := ms'[|ms|..];
        assert ms' == ms + again;
        FramesAppend(ms, again);
        Abandon(ms', Frames(ms), Frames(again));
      } else if r.Loaded? {
        LoadedNext(ms, homes, old(mem.cells), mem.cells, file, hs, home, h, old(mem.free), old(mem.Ledger()),
                   mem.Ledger(), Held(tasks));
      }
    }

    /** One header's tables are linked, and its pages and those tables have left the free frames. */
    ghost predicate HeaderPaid(h: ProgramHeader, linked: set<Pos>, left: nat)
      reads mem
    {
      && mem.linked == linked + ViewTables(core, h)
      && |mem.free| + |mem.linked| + (if h.load then PageCount(h) else 0) == left + |linked|
    }

    /** Frames that were free and have not become tables. */
    ghost function Room(free: set<nat>, tables: seq<nat>): int
      reads mem
    {
      |free| + |tables| - |mem.tables|
    }

    /** The headers so far are in place: nothing but free frames has been written, and the books say what was taken. */
    ghost predicate SoFar(b: Before, ms: seq<MemoryMapping>, homes: seq<Home>, file: seq<Byte>, hs: seq<ProgramHeader>)
      reads this, mem
    {
      && b.tables <= mem.tables && Kept(b.free, b.cells, mem.cells) && mem.free <= b.free
      && ViewOnly(core, b.pages, mem.pages)
      && Conserved(Frames(ms)) && Built(ms, homes, mem.cells, file, hs)
      && |mem.free| + |mem.tables| + PagesOf(hs) == |b.free| + |b.tables|
      && Spent(core, hs, b.linked, |b.free|, mem.linked, |mem.free|)
    }

    ghost function Now(): Before
      reads mem
    {
      Before(mem.free, mem.tables, mem.linked, mem.cells, mem.pages)
    }

    lemma NothingYet(file: seq<Byte>, hs: seq<ProgramHeader>)
      requires Valid()
      ensures SoFar(Now(), [], [], file, hs[..0])
    {
      assert mem.linked + TablesOf(core, []) == mem.linked;
    }

    lemma AllIn(b: Before, ms: seq<MemoryMapping>, homes: seq<Home>, file: seq<Byte>, hs: seq<ProgramHeader>)
      requires SoFar(b, ms, homes, file, hs[..|hs|])
      ensures SoFar(b, ms, homes, file, hs) && CanLoad(core, hs, |file|, b.linked, |b.free|)
    {
      assert hs[..|hs|] == hs;
      SpentEnough(core, hs, b.linked, |b.free|, mem.linked, |mem.free|);
      LoadableSoFar(ms, homes, mem.cells, file, hs);
    }

    /** The headers cannot all be loaded, and r says why: what was taken is given back, unless the kernel halted. */
    ghost predicate Stopped(b: Before, r: ExecResult, file: seq<Byte>, hs: seq<ProgramHeader>)
      reads this, mem
    {
      && !r.Success? && (r != Halted ==> Valid()) && !CanLoad(core, hs, |file|, b.linked, |b.free|)
      && FailsWith(hs, |file|, r, Room(b.free, b.tables), mem.free == {})
      && b.tables <= mem.tables && Kept(b.free, b.cells, mem.cells)
      && Stops(core, hs, |file|, b.linked, |b.free|, r) && ViewOnly(core, b.pages, mem.pages)
    }

    lemma StoppedEarly(b: Before, r: ExecResult, file: seq<Byte>, hs: seq<ProgramHeader>, k: nat)
      requires k <= |hs| && Stopped(b, r, file, hs[..k])
      ensures Stopped(b, r, file, hs)
    {
      StopsAt(core, hs, k, |file|, r, Room(b.free, b.tables), mem.free == {}, b.linked, |b.free|);
      StopsLater(core, hs, k, |file|, b.linked, |b.free|, r);
    }

    /** The headers in order, up to the first that is refused or finds too few frames. */
    method LoadAll(file: seq<Byte>, hs: seq<ProgramHeader>)
        returns (r: Option<ExecResult>, ms: seq<MemoryMapping>, ghost homes: seq<Home>)
      requires Valid()
      modifies mem`free, mem`tables, mem`linked, mem`pages, mem`cells
      ensures r.None? ==> SoFar(old(Now()), ms, homes, file, hs)
      ensures r.None? ==> CanLoad(core, hs, |file|, old(mem.linked), |old(mem.free)|)
      ensures r.Some? ==> Stopped(old(Now()), r.value, file, hs)
    {
      ms, homes := [], [];
      ghost var b := Now();
      NothingYet(file, hs);
      for i := 0 to |hs|
        invariant SoFar(b, ms, homes, file, hs[..i])
      {
        Prefix(hs, i);
        r, ms, homes := LoadNth(b, ms, homes, file, hs[..i], hs[i]);
        if r.Some? {
          StoppedEarly(b, r.value, file, hs, i + 1);
          return;
        }
      }
      AllIn(b, ms, homes, file, hs);
      r := None;
    }

    /** The header after those in `done`. */
    method LoadNth(ghost b: Before, ms: seq<MemoryMapping>, ghost homes: seq<Home>, file: seq<Byte>,
                   ghost done: seq<ProgramHeader>, h: ProgramHeader)
        returns (r: Option<ExecResult>, ms': seq<MemoryMapping>, ghost homes': seq<Home>)
      requires SoFar(b, ms, homes, file, done)
      modifies mem`free, mem`tables, mem`linked, mem`pages, mem`cells
      ensures r.None? ==> SoFar(b, ms', homes', file, done + [h])
      ensures r.None? ==> CanLoad(core, done + [h], |file|, b.linked, |b.free|)
      ensures r.Some? ==> Stopped(b, r.value, file, done + [h])
    {
      PagesOfNext(done, h);
      LoadableSoFar(ms, homes, mem.cells, file, done);
      ghost var n := Now();
      CanLoadNext(core, done, h, |file|, b.linked, |b.free|, n.linked, |n.free|);
      r, ms', homes' := LoadHeader(ms, homes, file, done, h);
      KeptOn(b.free, n.free, b.cells, n.cells, mem.cells);
      if r.Some? {
        FailsNow(done, h, |file|, r.value, PageCount(h) > |n.free|, Room(b.free, b.tables), mem.free == {});
        StopsHere(core, done, h, |file|, b.linked, |b.free|, n.linked, |n.free|, r.value);
      } else {
        SpentNext(core, done, h, b.linked, |b.free|, n.linked, |n.free|, mem.linked, |mem.free|);
      }
    }

    /** What one header did, and why it failed if it did. */
    ghost predicate HeaderDone(
        n: Before, r: Option<ExecResult>, ms: seq<MemoryMapping>, homes: seq<Home>, file: seq<Byte>,
        hs: seq<ProgramHeader>, h: ProgramHeader)
      reads this, mem
    {
      && n.tables <= mem.tables && Kept(n.free, n.cells, mem.cells) && ViewOnly(core, n.pages, mem.pages)
      && (r.None? <==> (h.load ==> Loadable(h, |file|)) && EnoughFor(core, h, n.linked, |n.free|))
      && (r.None? ==>
            && Conserved(Frames(ms)) && Built(ms, homes, mem.cells, file, hs + [h]) && mem.free <= n.free
            && HeaderPaid(h, n.linked, |n.free|)
            && |mem.free| + |mem.tables| + (if h.load then PageCount(h) else 0) == |n.free| + |n.tables|)
      && (r.Some? ==>
            && h.load && !r.value.Success? && (r.value != Halted ==> Valid())
            && Explains(h, |file|, r.value, PageCount(h) > |n.free|, mem.free == {})
            && Verdict(h, |file|, r.value, |n.free|, |Unlinked(ViewTables(core, h), n.linked)|)
            && (r.value == AllocationError ==> mem.tables == n.tables))
    }

    /** One header: checked, and loaded if it is a segment's. */
    method LoadHeader(
        ms: seq<MemoryMapping>, ghost homes: seq<Home>, file: seq<Byte>, ghost hs: seq<ProgramHeader>, h: ProgramHeader)
        returns (r: Option<ExecResult>, ms': seq<MemoryMapping>, ghost homes': seq<Home>)
      requires Conserved(Frames(ms)) && Built(ms, homes, mem.cells, file, hs)
      modifies mem`free, mem`tables, mem`linked, mem`pages, mem`cells
      ensures HeaderDone(old(Now()), r, ms', homes', file, hs, h)
    {
      ms', homes' := ms, homes;
      if !h.load {
        SkipHeader(ms, homes, mem.cells, file, hs, h);
        homes' := homes + [Home(0, [], NO_FLAGS)];
        return None, ms', homes';
      }
      r := Refusal(h, |file|);
      AcceptedIff(h, |file|);
      if r.None? {
        r, ms', homes' := LoadAccepted(ms, homes, file, hs, h);
      } else {
        Refuse(ms, homes, file, hs, h, r.value);
      }
    }

    /** A header that passes the checks. */
    method LoadAccepted(
        ms: seq<MemoryMapping>, ghost homes: seq<Home>, file: seq<Byte>, ghost hs: seq<ProgramHeader>, h: ProgramHeader)
        returns (r: Option<ExecResult>, ms': seq<MemoryMapping>, ghost homes': seq<Home>)
      requires Conserved(Frames(ms)) && Built(ms, homes, mem.cells, file, hs) && h.load && Refusal(h, |file|) == None
      modifies mem`free, mem`tables, mem`linked, mem`pages, mem`cells
      ensures HeaderDone(old(Now()), r, ms', homes', file, hs, h)
    {
      var loading;
      ghost var (left, missing) := (|mem.free|, |Unlinked(ViewTables(core, h), mem.linked)|);
      loading, ms', homes' := LoadNext(ms, homes, file, hs, h);
      r := Failure(loading);
      FailureIsVerdict(h, |file|, loading, left, missing, mem.free == {});
    }

    /** A header that does not. */
    method Refuse(ms: seq<MemoryMapping>, ghost homes: seq<Home>, file: seq<Byte>, ghost hs: seq<ProgramHeader>,
                  h: ProgramHeader, why: ExecResult)
      requires Conserved(Frames(ms)) && Built(ms, homes, mem.cells, file, hs) && h.load
      requires Refusal(h, |file|) == Some(why)
      modifies mem`free
      ensures HeaderDone(old(Now()), Some(why), ms, homes, file, hs, h)
    {
      AcceptedIff(h, |file|);
      RefusalIsVerdict(h, |file|, |mem.free|, |Unlinked(ViewTables(core, h), mem.linked)|);
      if why != Halted {
        Abandon(ms, Frames(ms), []);
      }
    }

    /** Task::exec.  A failed start changes neither the task list nor the kernel's frames, and every frame it took is
        free again or a page table. */
    method Exec(file: seq<Byte>, hs: seq<ProgramHeader>) returns (r: ExecResult, ghost homes: seq<Home>)
      requires Valid()
      modifies this`tasks, this`ids, mem`free, mem`tables, mem`linked, mem`pages, mem`cells
      ensures r != Halted ==> Valid() && old(mem.tables) <= mem.tables
      ensures r.Success? <==> CanLoad(core, hs + [STACK], |file|, old(mem.linked), |old(mem.free)|)
      ensures forall x :: Stops(core, hs + [STACK], |file|, old(mem.linked), |old(mem.free)|, x) <==>
                          r == x && !r.Success?
      ensures ViewOnly(core, old(mem.pages), mem.pages)
      ensures !r.Success? ==> tasks == old(tasks) && ids == old(ids)
      ensures !r.Success? ==>
                FailsWith(hs + [STACK], |file|, r, Room(old(mem.free), old(mem.tables)), mem.free == {})
      ensures !r.Success? && r != Halted ==>
                multiset(mem.free) + multiset(mem.tables) == old(multiset(mem.free) + multiset(mem.tables))
      ensures r.Success? ==>
                && r.id == ids == old(ids) + 1 && |tasks| == |old(tasks)| + 1
                && tasks == old(tasks) + [Task(r.id, MemoryMap(NewMapId(), tasks[|old(tasks)|].memory.mappings))]
                && Built(tasks[|old(tasks)|].memory.mappings, homes, mem.cells, file, hs + [STACK])
      ensures forall f :: f in old(mem.cells) && f in Held(old(tasks)) ==>
                f in mem.cells && mem.cells[f] == old(mem.cells)[f]
    {
      HeldIsNotFree(mem.free, multiset(mem.tables), multiset(mem.kernel), Held(tasks), mem.universe);
      var failure, ms;
      failure, ms, homes := LoadProgram(file, hs);
      if failure.Some? {
        SameRest(old(mem.free), old(mem.tables), mem.free, mem.tables, mem.kernel, Held(tasks));
        OneResult(hs + [STACK], |file|, old(mem.linked), |old(mem.free)|, failure.value);
        return failure.value, homes;
      }
      NoResult(hs + [STACK], |file|, old(mem.linked), |old(mem.free)|);
      NewLocked(MemoryMap(NewMapId(), ms));
      r := Success(ids);
    }

    lemma OneResult(hs: seq<ProgramHeader>, fileLen: nat, linked: set<Pos>, had: nat, r: ExecResult)
      requires Stops(core, hs, fileLen, linked, had, r)
      ensures forall x :: Stops(core, hs, fileLen, linked, had, x) <==> x == r
    {
      forall x | Stops(core, hs, fileLen, linked, had, x)
        ensures x == r
      {
        StopsOnce(core, hs, fileLen, linked, had, r, x);
      }
    }

    lemma NoResult(hs: seq<ProgramHeader>, fileLen: nat, linked: set<Pos>, had: nat)
      requires CanLoad(core, hs, fileLen, linked, had)
      ensures forall x :: !Stops(core, hs, fileLen, linked, had, x)
    {
      forall x | Stops(core, hs, fileLen, linked, had, x)
        ensures false
      {
        StopsOnce(core, hs, fileLen, linked, had, x, x);
      }
    }

    /** The segments and the stack. */
    method LoadProgram(file: seq<Byte>, hs: seq<ProgramHeader>)
        returns (r: Option<ExecResult>, ms: seq<MemoryMapping>, ghost homes: seq<Home>)
      requires Valid()
      modifies mem`free, mem`tables, mem`linked, mem`pages, mem`cells
      ensures r.None? ==> SoFar(old(Now()), ms, homes, file, hs + [STACK])
      ensures r.None? ==> CanLoad(core, hs + [STACK], |file|, old(mem.linked), |old(mem.free)|)
      ensures r.Some? ==> Stopped(old(Now()), r.value, file, hs + [STACK])
    {
      r, ms, homes := LoadAll(file, hs);
      if r.None? {
        r, ms, homes := LoadNth(old(Now()), ms, homes, file, hs, STACK);
      } else {
        assert (hs + [STACK])[..|hs|] == hs;
        StoppedEarly(old(Now()), r.value, file, hs + [STACK], |hs|);
      }
    }

    /** Task::new_locked: ids count up from 1. */
    method NewLocked(memory: MemoryMap)
      requires Conserved(Frames(memory.mappings))
      modifies this`tasks, this`ids
      ensures Valid() && ids == old(ids) + 1 && tasks == old(tasks) + [Task(ids, memory)]
    {
      ids := ids + 1;
      tasks := tasks + [Task(ids, memory)];
      assert tasks[..|tasks| - 1] == old(tasks);
    }

    /** A task ends: it leaves the list and its memory map is dropped. */
    method Exit(i: nat)
      requires Valid() && i < |tasks|
      modifies this`tasks, mem`free
      ensures Valid() && tasks == old(tasks[..i] + tasks[i + 1..])
      ensures mem.free == old(mem.free) + Elements(Frames(old(tasks[i].memory.mappings)))
    {
      var ms := tasks[i].memory.mappings;
      HeldWithout(tasks, i);
      tasks := tasks[..i] + tasks[i + 1..];
      assert Conserved(Frames(ms));
      Abandon(ms, Frames(ms), []);
    }

    /** mem::valloc keeps the books too. */
    method Valloc(page: PageNo, n: nat, flags: Flags) returns (ok: bool)
      requires Valid() && page + n <= PAGE_COUNT
      modifies mem`free, mem`tables, mem`linked, mem`pages, mem`kernel
      ensures !ok ==> mem.free == {}
      ensures ok ==> Valid() && old(mem.kernel) <= mem.kernel && |mem.kernel| == |old(mem.kernel)| + n
    {
      ok := mem.Valloc(page, n, flags);
    }

    /** MemoryMap::apply: nothing is done if the core applied a map with this id last. */
    method Apply(memory: MemoryMap) returns (ok: bool)
      requires Valid()
      modifies this`active, mem`free, mem`tables, mem`linked, mem`pages
      ensures Valid()
      ensures !ok ==> mem.free == {} && active == old(active)
      ensures ok ==> active == Some(memory.id)
      ensures ok ==>
                mem.pages ==
                if old(active) == Some(memory.id) then old(mem.pages) else Fold(old(mem.pages), memory.mappings)
    {
      if active == Some(memory.id) {
        return true;
      }
      var ms := memory.mappings;
      for i := 0 to |ms|
        invariant Valid() && active == old(active)
        invariant mem.pages == Fold(old(mem.pages), ms[..i])
      {
        ok := mem.Vmap(ms[i].page, ms[i].frame, ms[i].flags);
        if !ok {
          return;
        }
        assert ms[..i + 1][..i] == ms[..i];
      }
      assert ms[..|ms|] == ms;
      active := Some(memory.id);
      ok := true;
    }

    /** A program is started, and the core switches to it.  Unless the map applied last has the new map's id, the
        program then sees its segments and a stack of zeros. */
    method ExecAndSwitch(file: seq<Byte>, hs: seq<ProgramHeader>) returns (r: ExecResult, ok: bool)
      requires Valid()
      modifies this, mem`free, mem`tables, mem`linked, mem`pages, mem`cells
      ensures ok ==> r.Success? && Valid() && active == Some(0)
      ensures ok && old(active) != Some(0) ==> ProgramSeen(mem.pages, mem.cells, file, hs + [STACK])
      ensures ok && old(active) != Some(0) ==> StackSeen(mem.pages, mem.cells)
      ensures !ok && r.Success? ==> mem.free == {}
    {
      ghost var homes;
      r, homes := Exec(file, hs);
      ok := r.Success?;
      if ok {
        ghost var pages := mem.pages;
        var memory := tasks[|tasks| - 1].memory;
        ok := Apply(memory);
        ProgramVisible(pages, memory.mappings, homes, mem.cells, file, hs + [STACK]);
        StackIsSeen(Fold(pages, memory.mappings), mem.cells, file, hs);
      }
    }
  }

  /** Byte k of segment i is in a page that no later segment has. */
  ghost predicate Unshared(hs: seq<ProgramHeader>, i: nat, k: nat) {
    && i < |hs| && hs[i].load && k < hs[i].memSize
    && forall j :: i < j < |hs| ==> !Touches(hs[j], (hs[i].vadr + k) / PAGE_SIZE)
  }

  ghost predicate ProgramSeen(pages: PageMap, cells: map<nat, Bytes>, file: seq<Byte>, hs: seq<ProgramHeader>) {
    forall i: nat, k: nat :: Unshared(hs, i, k) ==> Seen(pages, cells, file, hs[i], k)
  }

  /** Half a mebibyte of zeros that the program may write, one mebibyte below the top of user space. */
  ghost predicate StackSeen(pages: PageMap, cells: map<nat, Bytes>) {
    forall a: nat :: 0x7fff_ffe8_0000 <= a < 0x7fff_fff0_0000 ==> SeenAt(pages, cells, a / 4096, a % 4096, true, 0)
  }

  lemma StackIsSeen(pages: PageMap, cells: map<nat, Bytes>, file: seq<Byte>, hs: seq<ProgramHeader>)
    requires ProgramSeen(pages, cells, file, hs + [STACK])
    ensures StackSeen(pages, cells)
  {
    forall a: nat | 0x7fff_ffe8_0000 <= a < 0x7fff_fff0_0000
      ensures SeenAt(pages, cells, a / 4096, a % 4096, true, 0)
    {
      var k := a - 0x7fff_ffe8_0000;
      assert Unshared(hs + [STACK], |hs|, k);
      assert Seen(pages, cells, file, STACK, k);
    }
  }

  lemma ProgramVisible(
      pages: PageMap, ms: seq<MemoryMapping>, homes: seq<Home>, cells: map<nat, Bytes>, file: seq<Byte>,
      hs: seq<ProgramHeader>)
    requires Built(ms, homes, cells, file, hs)
    ensures ProgramSeen(Fold(pages, ms), cells, file, hs)
  {
    forall i: nat, k: nat | Unshared(hs, i, k)
      ensures Seen(Fold(pages, ms), cells, file, hs[i], k)
    {
      SegmentVisible(pages, cells, homes, file, hs, i, k);
    }
  }

  lemma HeldIsNotFree(free: set<nat>, t: multiset<nat>, k: multiset<nat>, h: multiset<nat>, universe: set<nat>)
    requires multiset(free) + t + k + h + multiset([]) == multiset(universe)
    ensures forall x :: x in h ==> x !in free
  {
    forall x | x in h
      ensures x !in free
    {
      assert multiset(universe)[x] == multiset(free)[x] + t[x] + k[x] + h[x] + multiset([])[x];
    }
  }

  lemma ElementsConcat(a: seq<nat>, b: seq<nat>)
    ensures Elements(a + b) == Elements(a) + Elements(b)
  {
    forall x
      ensures x in Elements(a + b) <==> x in Elements(a) + Elements(b)
    {
      assert x in Elements(a) <==> x in a;
      assert x in Elements(b) <==> x in b;
      assert x in Elements(a + b) <==> x in a + b;
    }
  }

  lemma ElementsAre(s: seq<nat>)
    ensures forall x :: x in s <==> x in Elements(s)
  {
  }

  /** Freeing what is held leaves every frame with one owner. */
  lemma Released(
      before: set<nat>, after: set<nat>, t: multiset<nat>, k: multiset<nat>, h: multiset<nat>, held: seq<nat>,
      universe: set<nat>)
    requires multiset(before) + t + k + h + multiset(held) == multiset(universe) && after == before + Elements(held)
    ensures multiset(after) + t + k + h + multiset([]) == multiset(universe)
  {
    var rest := t + k + h;
    assert multiset(before) + multiset(held) + rest == multiset(universe);
    Release(before, held, rest, universe);
    assert multiset(after) + t + k + h + multiset([]) == multiset(after) + rest;
  }

  /** If the kernel and the tasks hold what they held, free frames have only turned into tables. */
  lemma SameRest(f: set<nat>, t: seq<nat>, f': set<nat>, t': seq<nat>, k: seq<nat>, h: multiset<nat>)
    ensures multiset(f) + multiset(t) + multiset(k) + h + multiset([]) ==
            multiset(f') + multiset(t') + multiset(k) + h + multiset([])
            ==> multiset(f) + multiset(t) == multiset(f') + multiset(t')
  {
    var (a, b, c) := (multiset(f) + multiset(t), multiset(f') + multiset(t'), multiset(k) + h);
    assert multiset(f) + multiset(t) + multiset(k) + h + multiset([]) == a + c;
    assert multiset(f') + multiset(t') + multiset(k) + h + multiset([]) == b + c;
    if a + c == b + c {
      forall x
        ensures a[x] == b[x]
      {
        assert (a + c)[x] == (b + c)[x];
      }
    }
  }

  lemma Moved(before: multiset<nat>, after: multiset<nat>, held: multiset<nat>, a: seq<nat>, b: seq<nat>)
    requires after + multiset(b) == before
    ensures before + held + multiset(a) == after + held + multiset(a + b)
  {
  }

  /** Free frames are managed ones that nobody holds. */
  lemma FreeIsManaged(
      free: set<nat>, t: multiset<nat>, k: multiset<nat>, h: multiset<nat>, held: seq<nat>, universe: set<nat>)
    requires multiset(free) + t + k + h + multiset(held) == multiset(universe)
    ensures free <= universe && forall x :: x in held ==> x !in free
  {
    forall x | x in free
      ensures x in universe && x !in held
    {
      assert multiset(free)[x] == 1 && multiset(universe)[x] <= 1;
      assert multiset(universe)[x] == multiset(free)[x] + t[x] + k[x] + h[x] + multiset(held)[x];
      assert x in held <==> x in multiset(held);
    }
  }

  lemma LedgerWithout(before: set<nat>, free: set<nat>, got: seq<nat>, a: multiset<nat>, b: multiset<nat>)
    requires Taken(before, free, got)
    ensures multiset(free) + a + b + multiset(got) == multiset(before) + a + b
  {
    ElementsMultiset(got);
    assert multiset(before) == multiset(free) + multiset(Elements(got));
  }

  // ---------------------------------------------------------------- what conservation means

  /** Every managed frame is free, a page table, the kernel's or a task's, and only one of these, once. */
  lemma OneOwner(l: TaskList, f: nat)
    requires l.Valid()
    ensures (if f in l.mem.free then 1 else 0) + multiset(l.mem.tables)[f] + multiset(l.mem.kernel)[f] +
            Held(l.tasks)[f] == if f in l.mem.universe then 1 else 0
  {
    assert multiset(l.mem.universe)[f] == (l.mem.Ledger() + Held(l.tasks) + multiset([]))[f];
  }

  /** No two tasks share a frame. */
  lemma TasksApart(l: TaskList, i: nat, j: nat, f: nat)
    requires l.Valid() && i < j < |l.tasks|
    ensures !(f in Frames(l.tasks[i].memory.mappings) && f in Frames(l.tasks[j].memory.mappings))
  {
    var tasks := l.tasks;
    OneOwner(l, f);
    HeldWithout(tasks, j);
    HeldWithout(tasks[..j] + tasks[j + 1..], i);
    var (a, b) := (Frames(tasks[i].memory.mappings), Frames(tasks[j].memory.mappings));
    assert f in a && f in b ==> multiset(a)[f] > 0 && multiset(b)[f] > 0;
  }
}
