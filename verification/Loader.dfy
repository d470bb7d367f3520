/**
 Loading a program: which files are refused, the frames a task gets and gives back, and the bytes it finds when its
 memory map is applied.
 */
module Loader {
  import opened Wrappers
  import opened Paging
  import opened Ranges
  import opened Memory

  const USERSPACE_TOP: nat := 0x7fff_ffff_ffff
  const USERSTACK_SIZE: nat := 512 * 1024
  const USERSTACK_TOP: nat := USERSPACE_TOP + 1 - 1024 * 1024 - USERSTACK_SIZE
  const TMP_TASKLDMAP: nat := KERNEL_START + 9 * 0x1000_0000
  const TMP_TASK_SIZE_PER_PROC: nat := 32 * 0x4000_0000

  type U64 = x: nat | x < 0x1_0000_0000_0000_0000

  /** The number the local APIC gives a core. */
  type CoreId = c: nat | c < 256

  // ---------------------------------------------------------------- memory maps

  /** One allocated page of a task. */
  datatype MemoryMapping = MemoryMapping(page: PageNo, frame: nat, flags: Flags) {
    function Leaf(): Entry {
      Entry(frame, Mapper.Forced(page, flags))
    }
  }

  datatype MemoryMap = MemoryMap(id: nat, mappings: seq<MemoryMapping>)

  function Frames(ms: seq<MemoryMapping>): seq<nat> {
    seq(|ms|, i requires 0 <= i < |ms| => ms[i].frame)
  }

  /** Consecutive pages, each with its frame. */
  function Pages(page: nat, frames: seq<nat>, flags: Flags): (ms: seq<MemoryMapping>)
    requires page + |frames| <= PAGE_COUNT
    ensures |ms| == |frames| && Frames(ms) == frames
  {
    seq(|frames|, i requires 0 <= i < |frames| => MemoryMapping(page + i, frames[i], flags))
  }

  function Lookup(pages: PageMap, page: nat): Option<Entry> {
    if page in pages then Some(pages[page]) else None
  }

  /** The page map after a map has been applied: for each page its last mapping decides. */
  function Fold(pages: PageMap, ms: seq<MemoryMapping>): PageMap {
    if ms == [] then pages else
      var last := ms[|ms| - 1];
      Fold(pages, ms[..|ms| - 1])[last.page := last.Leaf()]
  }

  lemma {:induction false} FoldAppend(pages: PageMap, a: seq<MemoryMapping>, b: seq<MemoryMapping>)
    ensures Fold(pages, a + b) == Fold(Fold(pages, a), b)
  {
    if b == [] {
      assert a + b == a;
    } else {
      var k := |b| - 1;
      FoldAppend(pages, a, b[..k]);
      assert (a + b)[..|a + b| - 1] == a + b[..k];
    }
  }

  lemma {:induction false} FoldElsewhere(pages: PageMap, ms: seq<MemoryMapping>, p: nat)
    requires forall i :: 0 <= i < |ms| ==> ms[i].page != p
    ensures Lookup(Fold(pages, ms), p) == Lookup(pages, p)
  {
    if ms != [] {
      FoldElsewhere(pages, ms[..|ms| - 1], p);
    }
  }

  /** Where a mapping is the last one of its page, applying the map shows it. */
  lemma FoldShows(pages: PageMap, ms: seq<MemoryMapping>, i: nat)
    requires i < |ms| && forall j :: i < j < |ms| ==> ms[j].page != ms[i].page
    ensures Lookup(Fold(pages, ms), ms[i].page) == Some(ms[i].Leaf())
  {
    var (a, b) := (ms[..i + 1], ms[i + 1..]);
    assert ms == a + b;
    FoldAppend(pages, a, b);
    FoldElsewhere(Fold(pages, a), b, ms[i].page);
  }

  // ---------------------------------------------------------------- ownership

  datatype Task = Task(id: nat, memory: MemoryMap)

  /** The frames the tasks hold. */
  function Held(tasks: seq<Task>): multiset<nat> {
    if tasks == [] then multiset{} else
      Held(tasks[..|tasks| - 1]) + multiset(Frames(tasks[|tasks| - 1].memory.mappings))
  }

  lemma {:induction false} HeldWithout(tasks: seq<Task>, i: nat)
    requires i < |tasks|
    ensures Held(tasks) == Held(tasks[..i] + tasks[i + 1..]) + multiset(Frames(tasks[i].memory.mappings))
  {
    var k := |tasks| - 1;
    var rest := tasks[..i] + tasks[i + 1..];
    if i == k {
      assert rest == tasks[..k];
    } else {
      HeldWithout(tasks[..k], i);
      var shorter := tasks[..k][..i] + tasks[..k][i + 1..];
      WithoutLast(tasks, i);
      HeldAppend(shorter, tasks[k]);
      Exchange(Held(shorter), multiset(Frames(tasks[i].memory.mappings)), multiset(Frames(tasks[k].memory.mappings)));
    }
  }

  lemma WithoutLast(tasks: seq<Task>, i: nat)
    requires i < |tasks| - 1
    ensures var k := |tasks| - 1;
            tasks[..i] + tasks[i + 1..] == tasks[..k][..i] + tasks[..k][i + 1..] + [tasks[k]]
  {
    var k := |tasks| - 1;
    assert tasks[..k][..i] == tasks[..i] && tasks[..k][i + 1..] == tasks[i + 1..k];
    assert tasks[i + 1..] == tasks[i + 1..k] + [tasks[k]];
  }

  lemma HeldAppend(tasks: seq<Task>, t: Task)
    ensures Held(tasks + [t]) == Held(tasks) + multiset(Frames(t.memory.mappings))
  {
    assert (tasks + [t])[..|tasks|] == tasks;
  }

  lemma Exchange(h: multiset<nat>, x: multiset<nat>, y: multiset<nat>)
    ensures h + x + y == h + y + x
  {
  }

  /** Frames that are held are held once and not free, and freeing them gives the free ones back. */
  lemma Release(free: set<nat>, held: seq<nat>, rest: multiset<nat>, universe: set<nat>)
    requires multiset(free) + multiset(held) + rest == multiset(universe)
    ensures Distinct(held) && Elements(held) !! free
    ensures multiset(free + Elements(held)) + rest == multiset(universe)
  {
    HeldOnce(free, held, rest, universe);
    ElementsMultiset(held);
    assert multiset(free + Elements(held)) == multiset(free) + multiset(Elements(held));
  }

  lemma HeldOnce(free: set<nat>, held: seq<nat>, rest: multiset<nat>, universe: set<nat>)
    requires multiset(free) + multiset(held) + rest == multiset(universe)
    ensures Distinct(held) && Elements(held) !! free
  {
    forall i, j | 0 <= i < j < |held|
      ensures held[i] != held[j]
    {
      assert held == held[..j] + held[j..] && held[i] in held[..j] && held[j] in held[j..];
      assert multiset(held) == multiset(held[..j]) + multiset(held[j..]);
      assert multiset(universe)[held[j]] <= 1;
    }
    forall x | x in Elements(held)
      ensures x !in free
    {
      assert x in multiset(held) && multiset(universe)[x] <= 1;
    }
  }

  // ---------------------------------------------------------------- segments

  /** A program header: of a segment to load, or of another kind, which is ignored. */
  datatype ProgramHeader =
    ProgramHeader(load: bool, flags: nat, offset: U64, vadr: U64, fileSize: U64, memSize: U64, align: U64)

  predicate Writable(h: ProgramHeader) {
    h.flags / 2 % 2 == 1
  }

  lemma WriteBit(h: ProgramHeader)
    ensures Writable(h) <==> h.flags % 4 >= 2
  {
  }

  function MemoryFlags(h: ProgramHeader): Flags {
    NO_FLAGS.(writable := Writable(h), user := true)
  }

  function FirstPage(h: ProgramHeader): nat {
    h.vadr / PAGE_SIZE
  }

  /** Where the segment starts in its first page. */
  function InPage(h: ProgramHeader): nat {
    h.vadr % PAGE_SIZE
  }

  function PageCount(h: ProgramHeader): nat {
    (h.memSize + InPage(h) + PAGE_SIZE - 1) / PAGE_SIZE
  }

  /** The stack is set up like a segment with no bytes in the file. */
  const STACK := ProgramHeader(true, 2, 0, USERSTACK_TOP, 0, USERSTACK_SIZE, 0)

  /** `Halted` stands for a kernel panic. */
  datatype ExecResult =
    | Success(id: nat)
    | LargeAlignment(align: nat)
    | InsecureLoad(vadr: nat, memSize: nat)
    | LargeSize(size: nat)
    | BinaryEnd(offset: nat, size: nat)
    | AllocationError
    | Halted

  /** Why a header stops the load before any memory is asked for; sums that overflow panic. */
  function Refusal(h: ProgramHeader, fileLen: nat): Option<ExecResult> {
    if h.align > PAGE_SIZE then Some(LargeAlignment(h.align))
    else if h.vadr + h.memSize > 0xffff_ffff_ffff_ffff then Some(Halted)
    else if h.vadr + h.memSize >= USERSPACE_TOP then Some(InsecureLoad(h.vadr, h.memSize))
    else if h.memSize > TMP_TASK_SIZE_PER_PROC then Some(LargeSize(h.memSize))
    else if h.offset + h.fileSize > 0xffff_ffff_ffff_ffff then Some(Halted)
    else if h.offset + h.fileSize > fileLen then Some(BinaryEnd(h.offset, h.fileSize))
    else None
  }

  /** A segment within the loader's limits: aligned to a page at most, below the top of user space, no larger than 32
      GiB, and with its bytes in the file. */
  predicate Accepted(h: ProgramHeader, fileLen: nat) {
    && h.align <= 4096 && h.vadr + h.memSize < 0x7fff_ffff_ffff && h.memSize <= 0x8_0000_0000
    && h.offset + h.fileSize <= fileLen && h.offset + h.fileSize < 0x1_0000_0000_0000_0000
  }

  /** A segment the loader takes: it is within the limits, and its bytes fit its memory. */
  predicate Loadable(h: ProgramHeader, fileLen: nat) {
    Accepted(h, fileLen) && h.fileSize <= h.memSize
  }

  lemma AcceptedIff(h: ProgramHeader, fileLen: nat)
    ensures Refusal(h, fileLen) == None <==> Accepted(h, fileLen)
  {
  }

  /** What the load of a segment ends with if it fails: the first limit that is broken, or too few of the `left` frames
      for its pages.  The kernel halts where a sum overflows, where the segment's bytes do not fit its memory, and where
      the frames left do not make up the `missing` tables. */
  predicate Verdict(h: ProgramHeader, fileLen: nat, r: ExecResult, left: nat, missing: nat) {
    match r
    case LargeAlignment(a) => a == h.align > 4096
    case InsecureLoad(v, m) =>
      h.align <= 4096 && v == h.vadr && m == h.memSize && 0x7fff_ffff_ffff <= v + m < 0x1_0000_0000_0000_0000
    case LargeSize(m) => h.align <= 4096 && h.vadr + h.memSize < 0x7fff_ffff_ffff && m == h.memSize > 0x8_0000_0000
    case BinaryEnd(o, n) =>
      && h.align <= 4096 && h.vadr + h.memSize < 0x7fff_ffff_ffff && h.memSize <= 0x8_0000_0000
      && o == h.offset && n == h.fileSize && fileLen < o + n < 0x1_0000_0000_0000_0000
    case AllocationError => Accepted(h, fileLen) && left < PageCount(h)
    case Halted =>
      && h.align <= 4096
      && (|| h.vadr + h.memSize >= 0x1_0000_0000_0000_0000
          || (&& h.vadr + h.memSize < 0x7fff_ffff_ffff && h.memSize <= 0x8_0000_0000
              && h.offset + h.fileSize >= 0x1_0000_0000_0000_0000)
          || (&& Accepted(h, fileLen) && PageCount(h) <= left
              && (h.fileSize > h.memSize || left < PageCount(h) + missing)))
    case Success(_) => false
  }

  /** There is one verdict, and there is one exactly if the segment is not loaded. */
  lemma OneVerdict(h: ProgramHeader, fileLen: nat, r: ExecResult, r': ExecResult, left: nat, missing: nat)
    requires Verdict(h, fileLen, r, left, missing)
    ensures !(Loadable(h, fileLen) && PageCount(h) + missing <= left)
    ensures Verdict(h, fileLen, r', left, missing) ==> r' == r
  {
  }

  lemma RefusalIsVerdict(h: ProgramHeader, fileLen: nat, left: nat, missing: nat)
    ensures Refusal(h, fileLen).Some? ==> Verdict(h, fileLen, Refusal(h, fileLen).value, left, missing)
  {
  }

  /** The pages of a segment are the fewest that hold it, from the one its address is in. */
  lemma FewestPages(h: ProgramHeader, n: nat)
    ensures FirstPage(h) * 4096 <= h.vadr < (FirstPage(h) + 1) * 4096
    ensures h.vadr + h.memSize <= (FirstPage(h) + PageCount(h)) * 4096
    ensures h.vadr + h.memSize <= (FirstPage(h) + n) * 4096 ==> PageCount(h) <= n
  {
  }

  /** Accepted segments lie in the lower half, below the last page's end. */
  lemma SegmentFits(h: ProgramHeader, fileLen: nat)
    requires Refusal(h, fileLen) == None
    ensures FirstPage(h) + PageCount(h) <= KERNEL_START
    ensures InPage(h) + h.memSize <= PageCount(h) * PAGE_SIZE && PageCount(h) <= 0x80_0001
  {
  }

  // ---------------------------------------------------------------- what is loaded

  /** The segment's k-th byte as the file describes it. */
  function ImageByte(file: seq<Byte>, h: ProgramHeader, k: nat): Byte
    requires h.offset + h.fileSize <= |file|
  {
    if k < h.fileSize then file[h.offset + k] else 0
  }

  /** Where a segment went: its first page, the frames behind its pages, and their flags. */
  datatype Home = Home(first: nat, frames: seq<nat>, flags: Flags) {
    predicate Valid() {
      first + |frames| <= KERNEL_START || frames == []
    }

    predicate Covers(page: nat) {
      first <= page < first + |frames|
    }

    /** What the page shows. */
    function LeafAt(page: nat): Entry
      requires Covers(page)
    {
      Entry(frames[page - first], Mapper.Forced(page, flags))
    }
  }

  function Mappings(home: Home): (ms: seq<MemoryMapping>)
    requires home.Valid()
    ensures Frames(ms) == home.frames
  {
    if home.frames == [] then [] else Pages(home.first, home.frames, home.flags)
  }

  ghost predicate AllValid(homes: seq<Home>) {
    forall i :: 0 <= i < |homes| ==> homes[i].Valid()
  }

  /** The memory map that puts the frames behind the segments' pages, in the order of the headers. */
  ghost function Layout(homes: seq<Home>): seq<MemoryMapping>
    requires AllValid(homes)
  {
    if homes == [] then [] else
      var k := |homes| - 1;
      Layout(homes[..k]) + Mappings(homes[k])
  }

  predicate LastToCover(homes: seq<Home>, i: nat, page: nat) {
    && i < |homes| && homes[i].Covers(page)
    && forall j :: i < j < |homes| ==> !homes[j].Covers(page)
  }

  /** What a page shows: the last home that covers it decides. */
  ghost function Shown(pages: PageMap, homes: seq<Home>, page: nat): Option<Entry> {
    if homes == [] then Lookup(pages, page) else
      var k := |homes| - 1;
      if homes[k].Covers(page) then Some(homes[k].LeafAt(page)) else Shown(pages, homes[..k], page)
  }

  lemma {:induction false} ShownIsFold(pages: PageMap, homes: seq<Home>, page: nat)
    requires AllValid(homes)
    ensures Lookup(Fold(pages, Layout(homes)), page) == Shown(pages, homes, page)
  {
    if homes != [] {
      LayoutLookup(pages, homes, page);
      ShownIsFold(pages, homes[..|homes| - 1], page);
    }
  }

  lemma {:induction false} LastIsShown(pages: PageMap, homes: seq<Home>, i: nat, page: nat)
    requires LastToCover(homes, i, page)
    ensures Shown(pages, homes, page) == Some(homes[i].LeafAt(page))
    decreases |homes|
  {
    if i < |homes| - 1 {
      LastIsShown(pages, homes[..|homes| - 1], i, page);
    }
  }

  /** Applying the map shows, for every page, the frame and flags of the last segment that covers it. */
  lemma LastHomeShows(pages: PageMap, homes: seq<Home>, i: nat, page: nat)
    requires AllValid(homes) && LastToCover(homes, i, page)
    ensures Lookup(Fold(pages, Layout(homes)), page) == Some(homes[i].LeafAt(page))
  {
    ShownIsFold(pages, homes, page);
    LastIsShown(pages, homes, i, page);
  }

  /** The last home decides where it covers the page; elsewhere those before it do. */
  lemma LayoutLookup(pages: PageMap, homes: seq<Home>, page: nat)
    requires AllValid(homes) && homes != []
    ensures var k := |homes| - 1;
            Lookup(Fold(pages, Layout(homes)), page) ==
            if homes[k].Covers(page) then Some(homes[k].LeafAt(page)) else Lookup(Fold(pages, Layout(homes[..k])), page)
  {
    var k := |homes| - 1;
    LayoutStep(pages, homes);
    if homes[k].Covers(page) {
      HomeShows(Fold(pages, Layout(homes[..k])), homes[k], page);
    } else {
      HomeSpares(Fold(pages, Layout(homes[..k])), homes[k], page);
    }
  }

  lemma LayoutStep(pages: PageMap, homes: seq<Home>)
    requires AllValid(homes) && homes != []
    ensures var k := |homes| - 1;
            Fold(pages, Layout(homes)) == Fold(Fold(pages, Layout(homes[..k])), Mappings(homes[k]))
  {
    FoldAppend(pages, Layout(homes[..|homes| - 1]), Mappings(homes[|homes| - 1]));
  }

  lemma HomeShows(pages: PageMap, home: Home, page: nat)
    requires home.Valid() && home.Covers(page)
    ensures Lookup(Fold(pages, Mappings(home)), page) == Some(home.LeafAt(page))
  {
    FoldShows(pages, Mappings(home), page - home.first);
  }

  lemma HomeSpares(pages: PageMap, home: Home, page: nat)
    requires home.Valid() && !home.Covers(page)
    ensures Lookup(Fold(pages, Mappings(home)), page) == Lookup(pages, page)
  {
    FoldElsewhere(pages, Mappings(home), page);
  }

  ghost predicate Apart(homes: seq<Home>) {
    forall i, j, x :: 0 <= i < j < |homes| && x in homes[i].frames ==> x !in homes[j].frames
  }

  /** Where segments share a page only the last one's frame is seen, so that what the earlier ones put there is lost:
      a page shows a segment's frame if and only if no later segment covers it. */
  lemma FrameSeenIffLast(pages: PageMap, homes: seq<Home>, i: nat, page: nat)
    requires AllValid(homes) && Apart(homes) && i < |homes| && homes[i].Covers(page)
    ensures LastToCover(homes, i, page) <==>
              && page in Fold(pages, Layout(homes))
              && Fold(pages, Layout(homes))[page].frame == homes[i].LeafAt(page).frame
  {
    var j := LastCovering(homes, i, page);
    LastHomeShows(pages, homes, j, page);
    assert homes[i].frames[page - homes[i].first] in homes[i].frames;
    assert homes[j].frames[page - homes[j].first] in homes[j].frames;
  }

  lemma {:induction false} LastCovering(homes: seq<Home>, i: nat, page: nat) returns (j: nat)
    requires i < |homes| && homes[i].Covers(page)
    ensures i <= j && LastToCover(homes, j, page)
    decreases |homes|
  {
    var k := |homes| - 1;
    if homes[k].Covers(page) {
      j := k;
    } else {
      j := LastCovering(homes[..k], i, page);
    }
  }

  // ---------------------------------------------------------------- the program as loaded

  /** The segment's bytes lie in its frames. */
  ghost predicate Holds(cells: map<nat, Bytes>, frames: seq<nat>, file: seq<Byte>, h: ProgramHeader) {
    && Loadable(h, |file|) && |frames| == PageCount(h) && Owned(frames, cells)
    && forall k :: 0 <= k < h.memSize && InPage(h) + k < |frames| * PAGE_SIZE ==>
         ByteAt(cells, frames, InPage(h) + k) == ImageByte(file, h, k)
  }

  /** Every segment is accepted and its bytes are where its pages will show them; other headers have no home. */
  ghost predicate PlacedAt(cells: map<nat, Bytes>, home: Home, file: seq<Byte>, h: ProgramHeader) {
    if h.load then Holds(cells, home.frames, file, h) && home.first == FirstPage(h) && home.flags == MemoryFlags(h)
    else home.frames == []
  }

  ghost predicate Placed(cells: map<nat, Bytes>, homes: seq<Home>, file: seq<Byte>, hs: seq<ProgramHeader>) {
    && |homes| == |hs| && AllValid(homes)
    && (forall i :: 0 <= i < |hs| ==> PlacedAt(cells, homes[i], file, hs[i]))
  }

  /** A page belongs to a segment's run of pages. */
  predicate Touches(h: ProgramHeader, page: nat) {
    h.load && FirstPage(h) <= page < FirstPage(h) + PageCount(h)
  }

  lemma TouchesIsCovers(cells: map<nat, Bytes>, home: Home, file: seq<Byte>, h: ProgramHeader, page: nat)
    requires PlacedAt(cells, home, file, h)
    ensures Touches(h, page) <==> home.Covers(page)
  {
  }

  /** Loader correctness (System V gABI, chapter 5, Program Header): once the map is applied, every byte of a segment
      is the file's byte, or zero past the file's bytes, unless a later segment or the stack shares its page. */
  lemma SegmentVisible(
      pages: PageMap, cells: map<nat, Bytes>, homes: seq<Home>, file: seq<Byte>, hs: seq<ProgramHeader>, i: nat, k: nat)
    requires Placed(cells, homes, file, hs) && i < |hs| && hs[i].load && k < hs[i].memSize
    requires forall j :: i < j < |hs| ==> !Touches(hs[j], (hs[i].vadr + k) / PAGE_SIZE)
    ensures Seen(Fold(pages, Layout(homes)), cells, file, hs[i], k)
  {
    var (page, offset) := ((hs[i].vadr + k) / PAGE_SIZE, (hs[i].vadr + k) % PAGE_SIZE);
    HomeByte(cells, homes, file, hs, i, k);
    WriteBit(hs[i]);
    SeenBehind(pages, cells, homes, file, hs, i, page, offset, Writable(hs[i]), ImageByte(file, hs[i], k));
  }

  lemma LastTouchingShows(
      pages: PageMap, cells: map<nat, Bytes>, homes: seq<Home>, file: seq<Byte>, hs: seq<ProgramHeader>, i: nat,
      page: nat)
    requires Placed(cells, homes, file, hs) && i < |hs| && homes[i].Covers(page)
    requires forall j :: i < j < |hs| ==> !Touches(hs[j], page)
    ensures Lookup(Fold(pages, Layout(homes)), page) == Some(homes[i].LeafAt(page))
  {
    forall j | i < j < |hs|
      ensures !homes[j].Covers(page)
    {
      TouchesIsCovers(cells, homes[j], file, hs[j], page);
    }
    LastHomeShows(pages, homes, i, page);
  }

  /** The segment's k-th byte, read through a page map with the rights of user code, who may write it if bit 1 of the
      header's flags is set. */
  ghost predicate Seen(pages: PageMap, cells: map<nat, Bytes>, file: seq<Byte>, h: ProgramHeader, k: nat) {
    && h.offset + h.fileSize <= |file|
    && SeenAt(pages, cells, (h.vadr + k) / PAGE_SIZE, (h.vadr + k) % PAGE_SIZE, h.flags % 4 >= 2,
              if k < h.fileSize then file[h.offset + k] else 0)
  }

  ghost predicate SeenAt(pages: PageMap, cells: map<nat, Bytes>, page: nat, offset: nat, writable: bool, b: Byte)
    requires offset < PAGE_SIZE
  {
    && page in pages && pages[page].flags == Flags(true, writable, true, false, false, 0)
    && pages[page].frame in cells && cells[pages[page].frame][offset] == b
  }

  /** The frame behind the home's page holds the byte, and user code has the rights. */
  ghost predicate HoldsAt(cells: map<nat, Bytes>, home: Home, page: nat, offset: nat, writable: bool, b: Byte)
    requires offset < PAGE_SIZE
  {
    && home.Covers(page) && home.LeafAt(page).flags == Flags(true, writable, true, false, false, 0)
    && home.LeafAt(page).frame in cells && cells[home.LeafAt(page).frame][offset] == b
  }

  lemma SeenBehind(
      pages: PageMap, cells: map<nat, Bytes>, homes: seq<Home>, file: seq<Byte>, hs: seq<ProgramHeader>, i: nat,
      page: nat,
      offset: nat, writable: bool, b: Byte)
    requires Placed(cells, homes, file, hs) && i < |hs| && offset < PAGE_SIZE
    requires HoldsAt(cells, homes[i], page, offset, writable, b) && forall j :: i < j < |hs| ==> !Touches(hs[j], page)
    ensures SeenAt(Fold(pages, Layout(homes)), cells, page, offset, writable, b)
  {
    LastTouchingShows(pages, cells, homes, file, hs, i, page);
  }

  lemma HomeByte(cells: map<nat, Bytes>, homes: seq<Home>, file: seq<Byte>, hs: seq<ProgramHeader>, i: nat, k: nat)
    requires Placed(cells, homes, file, hs) && i < |hs| && hs[i].load && k < hs[i].memSize
    ensures var h := hs[i];
            && h.offset + h.fileSize <= |file|
            && HoldsAt(cells, homes[i], (h.vadr + k) / PAGE_SIZE, (h.vadr + k) % PAGE_SIZE, Writable(h),
                       ImageByte(file, h, k))
  {
    var (home, h) := (homes[i], hs[i]);
    assert PlacedAt(cells, home, file, h);
    SegmentFits(h, |file|);
    BytePosition(h, k);
    assert ByteAt(cells, home.frames, InPage(h) + k) == ImageByte(file, h, k);
  }

  lemma BytePosition(h: ProgramHeader, k: nat)
    ensures (InPage(h) + k) / PAGE_SIZE == (h.vadr + k) / PAGE_SIZE - FirstPage(h)
    ensures (InPage(h) + k) % PAGE_SIZE == (h.vadr + k) % PAGE_SIZE
  {
  }

  /** Segments that share no page all become visible, whole. */
  lemma DisjointSegmentsVisible(
      pages: PageMap, cells: map<nat, Bytes>, homes: seq<Home>, file: seq<Byte>, hs: seq<ProgramHeader>, i: nat, k: nat)
    requires Placed(cells, homes, file, hs) && i < |hs| && hs[i].load && k < hs[i].memSize
    requires forall i, j, p :: 0 <= i < j < |hs| && Touches(hs[i], p) ==> !Touches(hs[j], p)
    ensures Seen(Fold(pages, Layout(homes)), cells, file, hs[i], k)
  {
    assert PlacedAt(cells, homes[i], file, hs[i]);
    SegmentFits(hs[i], |file|);
    assert Touches(hs[i], (hs[i].vadr + k) / PAGE_SIZE);
    SegmentVisible(pages, cells, homes, file, hs, i, k);
  }

  /** Two segments of one byte each in the same page, both accepted and both in place: once the map is applied, the
      first one's byte is not what the program sees. */
  lemma SharedPageLoses(pages: PageMap, f: nat, g: nat)
    requires f != g
    ensures var hs := [ProgramHeader(true, 0, 0, 0x40_0000, 1, 1, 1), ProgramHeader(true, 0, 1, 0x40_0100, 1, 1, 1)];
            var homes := [Home(0x400, [f], MemoryFlags(hs[0])), Home(0x400, [g], MemoryFlags(hs[1]))];
            var cells := map[f := Blank()[0 := 7], g := Blank()[0x100 := 8]];
            Placed(cells, homes, [7, 8], hs) && !Seen(Fold(pages, Layout(homes)), cells, [7, 8], hs[0], 0)
  {
    var hs := [ProgramHeader(true, 0, 0, 0x40_0000, 1, 1, 1), ProgramHeader(true, 0, 1, 0x40_0100, 1, 1, 1)];
    var homes := [Home(0x400, [f], MemoryFlags(hs[0])), Home(0x400, [g], MemoryFlags(hs[1]))];
    LastHomeShows(pages, homes, 1, 0x400);
  }

  // ---------------------------------------------------------------- the temporary view

  /** The pages of a core's temporary view, of which each core has 32 GiB. */
  function TmpPage(core: nat): nat {
    TMP_TASKLDMAP + core * (TMP_TASK_SIZE_PER_PROC / PAGE_SIZE)
  }

  /** An accepted segment is filled through the core's own pages if and only if its size and its offset in the first
      page together stay within the 32 GiB; the loader checks the size alone. */
  lemma ViewKeptIff(core: nat, h: ProgramHeader, fileLen: nat)
    requires Refusal(h, fileLen) == None
    ensures TmpPage(core) + PageCount(h) <= TmpPage(core + 1) <==> InPage(h) + h.memSize <= TMP_TASK_SIZE_PER_PROC
  {
    var region := TMP_TASK_SIZE_PER_PROC / PAGE_SIZE;
    assert PageCount(h) <= region <==> InPage(h) + h.memSize <= region * PAGE_SIZE;
  }

  /** A segment that starts inside a page and is as large as the view is accepted and needs a page of the next core. */
  lemma ViewExceeded(core: nat)
    ensures var h := ProgramHeader(true, 2, 0, 0x40_0001, 0, TMP_TASK_SIZE_PER_PROC, 1);
            Refusal(h, 0) == None && TmpPage(core) + PageCount(h) > TmpPage(core + 1)
  {
    var h := ProgramHeader(true, 2, 0, 0x40_0001, 0, TMP_TASK_SIZE_PER_PROC, 1);
    ViewKeptIff(core, h, 0);
  }
}
