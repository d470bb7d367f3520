/**
 The physical frame allocator: segments of memory, each with a bitmap of 64-bit words in which a set bit
 is a used page.  The bitmaps are compared with a plain view (one Boolean per page) and with the set of
 free frames that the view denotes.
 */
module Phys {
  import opened Wrappers

  /** The 64 bits of a control word, least significant bit first. */
  type Word = w: seq<bool> | |w| == 64 witness seq(64, _ => false)

  /** The word is `u64::MAX`. */
  predicate IsMax(w: Word) {
    w == seq(64, _ => true)
  }

  /** `u64::MAX << s` */
  function ShiftedOnes(s: nat): Word
    requires s < 64
  {
    seq(64, k => s <= k)
  }

  /** `align_up` of the x86_64 crate. */
  function AlignUp(x: nat, align: nat): nat
    requires align > 0
  {
    (x + align - 1) / align * align
  }

  /** Bytes of bitmap a segment of `size` bytes needs: one bit per page, whole words. */
  function BitmapSize(size: nat): nat {
    AlignUp(size / PAGE_SIZE, 64) / 8
  }

  function BitmapWords(size: nat): nat {
    BitmapSize(size) / 8
  }

  lemma BitmapWordsCoverPages(size: nat)
    ensures BitmapSize(size) == 8 * BitmapWords(size)
    ensures size / PAGE_SIZE <= 64 * BitmapWords(size) < size / PAGE_SIZE + 64
  {
  }

  // ---------------------------------------------------------------- the view

  /** Used bits of every segment, in the order the allocator searches them. */
  type View = seq<seq<bool>>

  datatype Spot = Spot(seg: nat, page: nat)

  predicate InView(v: View, s: Spot) {
    s.seg < |v| && s.page < |v[s.seg]|
  }

  predicate AllUsed(bits: seq<bool>) {
    forall k :: 0 <= k < |bits| ==> bits[k]
  }

  /** The lowest free page of the first segment that has one. */
  ghost predicate IsFirstFit(v: View, s: Spot) {
    && InView(v, s)
    && !v[s.seg][s.page]
    && (forall k :: 0 <= k < s.page ==> v[s.seg][k])
    && (forall i :: 0 <= i < s.seg ==> AllUsed(v[i]))
  }

  ghost predicate Full(v: View) {
    forall i :: 0 <= i < |v| ==> AllUsed(v[i])
  }

  lemma FirstFitUnique(v: View, s: Spot, t: Spot)
    requires IsFirstFit(v, s) && IsFirstFit(v, t)
    ensures s == t
  {
    assert s.seg < t.seg ==> AllUsed(v[s.seg]);
    assert t.seg < s.seg ==> AllUsed(v[t.seg]);
  }

  function Write(v: View, s: Spot, used: bool): View
    requires InView(v, s)
  {
    v[s.seg := v[s.seg][s.page := used]]
  }

  // ---------------------------------------------------------------- frames

  /** First frame and number of pages of each segment. */
  datatype Extent = Extent(base: nat, pages: nat)

  predicate Inside(e: Extent, f: nat) {
    e.base <= f < e.base + e.pages
  }

  predicate Apart(a: Extent, b: Extent) {
    a.base + a.pages <= b.base || b.base + b.pages <= a.base
  }

  ghost predicate Disjoint(es: seq<Extent>) {
    forall i, j :: 0 <= i < j < |es| ==> Apart(es[i], es[j])
  }

  /** The frame belongs to one of the segments. */
  ghost predicate Managed(es: seq<Extent>, f: nat) {
    exists i :: 0 <= i < |es| && Inside(es[i], f)
  }

  /** Every segment's bits cover its pages, and the bits beyond its pages are set. */
  ghost predicate Fits(es: seq<Extent>, v: View) {
    && |v| == |es|
    && (forall i :: 0 <= i < |es| ==> es[i].pages <= |v[i]|)
    && (forall i, k :: 0 <= i < |es| && es[i].pages <= k < |v[i]| ==> v[i][k])
  }

  predicate IsFree(es: seq<Extent>, v: View, f: nat)
    requires |v| == |es|
  {
    exists i :: 0 <= i < |es| && Inside(es[i], f) && f - es[i].base < |v[i]| && !v[i][f - es[i].base]
  }

  /** A bound above every frame of the segments. */
  function Limit(es: seq<Extent>): (n: nat)
    ensures forall i, f: nat :: 0 <= i < |es| && Inside(es[i], f) ==> f < n
  {
    if es == [] then 0 else
      var e := es[|es| - 1];
      var n := Limit(es[..|es| - 1]);
      assert forall i :: 0 <= i < |es| - 1 ==> es[i] == es[..|es| - 1][i];
      if n < e.base + e.pages then e.base + e.pages else n
  }

  function FreeSet(es: seq<Extent>, v: View): set<nat>
    requires |v| == |es|
  {
    set f: nat | f < Limit(es) && IsFree(es, v, f)
  }

  lemma FreeSetMember(es: seq<Extent>, v: View, f: nat)
    requires |v| == |es|
    ensures f in FreeSet(es, v) <==> IsFree(es, v, f)
  {
    assert forall i :: 0 <= i < |es| && Inside(es[i], f) ==> f < Limit(es);
  }

  // ---------------------------------------------------------------- the order of frames

  /** The spot first fit picks. */
  ghost function FirstSpot(v: View): (s: Spot)
    requires !Full(v)
    ensures IsFirstFit(v, s)
  {
    FirstSpotExists(v);
    var s :| IsFirstFit(v, s);
    s
  }

  lemma FirstSpotExists(v: View)
    requires !Full(v)
    ensures exists s :: IsFirstFit(v, s)
  {
    var i := 0;
    while i < |v| && AllUsed(v[i])
      invariant i <= |v| && forall h :: 0 <= h < i ==> AllUsed(v[h])
    {
      i := i + 1;
    }
    var k := 0;
    while v[i][k]
      invariant k < |v[i]| && (forall h :: 0 <= h < k ==> v[i][h]) && exists h :: k <= h < |v[i]| && !v[i][h]
      decreases |v[i]| - k
    {
      k := k + 1;
    }
    assert IsFirstFit(v, Spot(i, k));
  }

  lemma SpotIsRoom(v: View, s: Spot)
    requires IsFirstFit(v, s)
    ensures !Full(v) && FirstSpot(v) == s
  {
    assert !AllUsed(v[s.seg]);
    FirstFitUnique(v, s, FirstSpot(v));
  }

  /** The frames that n allocations in a row hand out, in order; fewer if fewer are free. */
  ghost function HandedOut(es: seq<Extent>, v: View, n: nat): (frames: seq<nat>)
    requires |v| == |es|
    ensures |frames| <= n
    decreases n
  {
    if n == 0 || Full(v) then [] else
      [FrameAt(es, FirstSpot(v))] + HandedOut(es, Write(v, FirstSpot(v), true), n - 1)
  }

  /** One allocation turns the view v into w and hands out g. */
  ghost predicate Hands(es: seq<Extent>, v: View, g: nat, w: View) {
    |v| == |es| && !Full(v) && g == FrameAt(es, FirstSpot(v)) && w == Write(v, FirstSpot(v), true)
  }

  lemma HandsFirst(es: seq<Extent>, v: View, g: nat, w: View, n: nat)
    requires Hands(es, v, g, w)
    ensures |w| == |es| && HandedOut(es, v, n + 1) == [g] + HandedOut(es, w, n)
  {
  }

  /** Allocations in a row: the views before and after each, and the frames. */
  datatype Trail = Trail(views: seq<View>, frames: seq<nat>)

  ghost predicate Follows(es: seq<Extent>, v: View, tr: Trail, now: View) {
    && |tr.views| == |tr.frames| + 1 && tr.views[0] == v && tr.views[|tr.frames|] == now && |v| == |es| == |now|
    && forall i :: 0 <= i < |tr.frames| ==> Hands(es, tr.views[i], tr.frames[i], tr.views[i + 1])
  }

  lemma FollowsNext(es: seq<Extent>, v: View, tr: Trail, now: View, g: nat, next: View)
    requires Follows(es, v, tr, now) && Hands(es, now, g, next)
    ensures Follows(es, v, Trail(tr.views + [next], tr.frames + [g]), next)
  {
    var tr' := Trail(tr.views + [next], tr.frames + [g]);
    forall i | 0 <= i < |tr'.frames|
      ensures Hands(es, tr'.views[i], tr'.frames[i], tr'.views[i + 1])
    {
      assert i < |tr.frames| ==> Hands(es, tr.views[i], tr.frames[i], tr.views[i + 1]);
    }
  }

  /** A trail holds the frames that are handed out, and all of them if the view is full in the end. */
  lemma {:induction false} FollowsInOrder(es: seq<Extent>, v: View, tr: Trail, now: View, i: nat, n: nat)
    requires Follows(es, v, tr, now) && i + n >= |tr.frames| >= i && (i + n == |tr.frames| || Full(now))
    ensures |tr.views[i]| == |es| && HandedOut(es, tr.views[i], n) == tr.frames[i..]
    decreases n
  {
    if i < |tr.frames| {
      FollowsInOrder(es, v, tr, now, i + 1, n - 1);
      HandsFirst(es, tr.views[i], tr.frames[i], tr.views[i + 1], n - 1);
      assert tr.frames[i..] == [tr.frames[i]] + tr.frames[i + 1..];
    }
  }

  /** A full view denotes no free frame, and only a full view does. */
  lemma FullIffEmpty(es: seq<Extent>, v: View)
    requires Fits(es, v)
    ensures Full(v) <==> FreeSet(es, v) == {}
  {
    if !Full(v) {
      var i :| 0 <= i < |v| && !AllUsed(v[i]);
      var k :| 0 <= k < |v[i]| && !v[i][k];
      var f := es[i].base + k;
      assert Inside(es[i], f);
      FreeSetMember(es, v, f);
    } else {
      assert forall i :: 0 <= i < |v| ==> AllUsed(v[i]);
      assert forall f: nat :: !IsFree(es, v, f);
    }
  }

  /** Marking one spot changes the denoted set by exactly the frame at that spot. */
  lemma WriteChangesOneFrame(es: seq<Extent>, v: View, s: Spot, used: bool)
    requires Fits(es, v) && Disjoint(es) && InView(v, s) && s.page < es[s.seg].pages
    ensures Fits(es, Write(v, s, used))
    ensures var f := es[s.seg].base + s.page;
            FreeSet(es, Write(v, s, used)) == if used then FreeSet(es, v) - {f} else FreeSet(es, v) + {f}
  {
    var w := Write(v, s, used);
    var f := es[s.seg].base + s.page;
    assert Inside(es[s.seg], f);
    forall g: nat
      ensures g in FreeSet(es, w) <==> if g == f then !used else g in FreeSet(es, v)
    {
      FreeSetMember(es, v, g);
      FreeSetMember(es, w, g);
      assert forall i :: 0 <= i < |es| && Inside(es[i], g) && Inside(es[s.seg], g) ==>
                         i == s.seg || Apart(es[i], es[s.seg]) || Apart(es[s.seg], es[i]);
      assert forall i :: 0 <= i < |es| && Inside(es[i], g) && g - es[i].base < |v[i]| && (i != s.seg || g != f) ==>
                         w[i][g - es[i].base] == v[i][g - es[i].base];
    }
  }

  // ---------------------------------------------------------------- the allocator

  class SegmentHeader {
    const address: nat
    const size: nat
    const bitmap: array<Word>

    ghost predicate Valid()
      reads bitmap
    {
      && address % PAGE_SIZE == 0
      && size % PAGE_SIZE == 0
      && bitmap.Length == BitmapWords(size)
      && (forall k :: size / PAGE_SIZE <= k < |Bits()| ==> Bits()[k])
    }

    function Range(): Extent {
      Extent(address / PAGE_SIZE, size / PAGE_SIZE)
    }

    predicate InRange(addr: nat) {
      address <= addr < address + size
    }

    function Bits(): (b: seq<bool>)
      reads bitmap
      ensures |b| == 64 * bitmap.Length
      ensures forall i, j :: 0 <= i < bitmap.Length && 0 <= j < 64 ==> b[64 * i + j] == bitmap[i][j]
    {
      var b := seq(64 * bitmap.Length, k requires 0 <= k < 64 * bitmap.Length reads bitmap =>
                     bitmap[k / 64][k % 64]);
      assert forall i, j :: 0 <= i < bitmap.Length && 0 <= j < 64 ==>
          (64 * i + j) / 64 == i && (64 * i + j) % 64 == j && b[64 * i + j] == bitmap[i][j];
      b
    }

    /** Every page is free except the marked ones at the end. */
    ghost predicate Initial()
      reads bitmap
    {
      forall k :: 0 <= k < |Bits()| ==> (!Bits()[k] <==> k < FirstFreePages(size / PAGE_SIZE))
    }

    /** A fresh header, with the pages beyond the segment marked used; a segment whose page count is a
        multiple of 64 has its whole last word marked. */
    constructor (address: nat, size: nat)
      requires address % PAGE_SIZE == 0 && size % PAGE_SIZE == 0 && size > 0
      ensures this.address == address && this.size == size
      ensures fresh(bitmap) && Valid() && Initial()
    {
      this.address := address;
      this.size := size;
      var words := BitmapWords(size);
      bitmap := new Word[words](_ => seq(64, _ => false));
      new;
      BitmapWordsCoverPages(size);
      bitmap[words - 1] := ShiftedOnes(size / PAGE_SIZE % 64);
      InitialBits(bitmap[..], Bits(), size / PAGE_SIZE);
    }

    /** The first word that is not `u64::MAX` and its number of trailing ones. */
    method FindClearBit() returns (word: nat, bit: nat)
      ensures word <= bitmap.Length && bit < 64
      ensures word == bitmap.Length ==> AllUsed(Bits())
      ensures word < bitmap.Length ==> !Bits()[64 * word + bit]
      ensures word < bitmap.Length ==> forall k :: 0 <= k < 64 * word + bit ==> Bits()[k]
    {
      word, bit := FirstNotFull(bitmap[..]), 0;
      if word < bitmap.Length {
        NotMaxHasZero(bitmap[word]);
        bit := TrailingOnes(bitmap[word]);
      }
      FirstClearBit(bitmap[..], Bits(), word, bit);
    }
  }

  /** Number of pages that start free in a segment of n pages. */
  function FirstFreePages(n: nat): nat {
    if n % 64 != 0 then n else if n == 0 then 0 else n - 64
  }

  lemma InitialBits(words: seq<Word>, bits: seq<bool>, n: nat)
    requires 0 < n <= |bits| == 64 * |words| < n + 64
    requires forall i, j :: 0 <= i < |words| && 0 <= j < 64 ==> bits[64 * i + j] == words[i][j]
    requires forall i, j :: 0 <= i < |words| - 1 && 0 <= j < 64 ==> !words[i][j]
    requires words[|words| - 1] == ShiftedOnes(n % 64)
    ensures forall k :: 0 <= k < |bits| ==> (!bits[k] <==> k < FirstFreePages(n))
  {
    forall k | 0 <= k < |bits|
      ensures !bits[k] <==> k < FirstFreePages(n)
    {
      var q, r := k / 64, k % 64;
      assert bits[64 * q + r] == words[q][r];
    }
  }

  /** What is free after n allocations in a row. */
  ghost function LeftAfter(es: seq<Extent>, v: View, n: nat): set<nat>
    requires |v| == |es|
  {
    FreeSet(es, v) - Elements(HandedOut(es, v, n))
  }

  ghost function Elements(frames: seq<nat>): set<nat> {
    set f | f in frames
  }

  lemma {:induction false} FollowsFree(es: seq<Extent>, v: View, tr: Trail, now: View, k: nat)
    requires Follows(es, v, tr, now) && Fits(es, v) && Disjoint(es) && k <= |tr.frames|
    ensures Fits(es, tr.views[k]) && FreeSet(es, tr.views[k]) == FreeSet(es, v) - Elements(tr.frames[..k])
  {
    if k > 0 {
      FollowsFree(es, v, tr, now, k - 1);
      HandsFree(es, tr.views[k - 1], tr.frames[k - 1], tr.views[k]);
      assert tr.frames[..k] == tr.frames[..k - 1] + [tr.frames[k - 1]];
      assert Elements(tr.frames[..k]) == Elements(tr.frames[..k - 1]) + {tr.frames[k - 1]};
    }
  }

  lemma HandsFree(es: seq<Extent>, v: View, g: nat, w: View)
    requires Hands(es, v, g, w) && Fits(es, v) && Disjoint(es)
    ensures Fits(es, w) && FreeSet(es, w) == FreeSet(es, v) - {g}
  {
    TakenAt(es, v, FirstSpot(v), w, g);
  }

  class PhysicalFrameAllocator {
    var segments: seq<SegmentHeader>

    ghost function Bitmaps(): set<array<Word>>
      reads this
    {
      set i | 0 <= i < |segments| :: segments[i].bitmap
    }

    ghost predicate Valid()
      reads this, Bitmaps()
    {
      && (forall i :: 0 <= i < |segments| ==> segments[i].Valid())
      && (forall i, j :: 0 <= i < j < |segments| ==> segments[i].bitmap != segments[j].bitmap)
      && Disjoint(Ranges())
    }

    function Ranges(): (es: seq<Extent>)
      reads this
      ensures |es| == |segments| && forall i :: 0 <= i < |es| ==> es[i] == segments[i].Range()
    {
      seq(|segments|, i requires 0 <= i < |segments| reads this => segments[i].Range())
    }

    function UsedBits(): (v: View)
      reads this, Bitmaps()
      ensures |v| == |segments| && forall i :: 0 <= i < |v| ==> v[i] == segments[i].Bits()
    {
      seq(|segments|, i requires 0 <= i < |segments| reads this, Bitmaps() => segments[i].Bits())
    }

    function Free(): set<nat>
      reads this, Bitmaps()
    {
      FreeSet(Ranges(), UsedBits())
    }

    lemma ViewFits()
      requires Valid()
      ensures Fits(Ranges(), UsedBits())
    {
      forall i | 0 <= i < |segments|
        ensures segments[i].Range().pages <= |segments[i].Bits()|
      {
        BitmapWordsCoverPages(segments[i].size);
      }
    }

    /** First fit: marks the lowest clear bit of the first segment whose bitmap has one. */
    method AllocateFrame() returns (r: Option<nat>, ghost spot: Spot)
      requires Valid()
      modifies Bitmaps()
      ensures Valid() && Ranges() == old(Ranges())
      ensures r.None? ==> Full(old(UsedBits())) && UsedBits() == old(UsedBits())
      ensures r.Some? ==> IsFirstFit(old(UsedBits()), spot)
      ensures r.Some? ==> UsedBits() == Write(old(UsedBits()), spot, true)
      ensures r.Some? ==> r.value == Ranges()[spot.seg].base + spot.page
    {
      var s, word, bit := FindFree();
      spot := Spot(s, 64 * word + bit);
      if s == |segments| {
        return None, spot;
      }
      PaddingIsUsed(spot);
      MarkBit(s, word, bit, true);
      r := Some(segments[s].address / PAGE_SIZE + (64 * word + bit));
    }

    lemma PaddingIsUsed(spot: Spot)
      requires Valid() && IsFirstFit(UsedBits(), spot)
      ensures spot.page < Ranges()[spot.seg].pages
    {
      ViewFits();
    }

    /** `AllocateFrame` seen as an operation on the set of free frames. */
    method Palloc() returns (r: Option<nat>, ghost spot: Spot)
      requires Valid()
      modifies Bitmaps()
      ensures Valid() && Ranges() == old(Ranges()) && segments == old(segments)
      ensures r.Some? ==> IsFirstFit(old(UsedBits()), spot) && UsedBits() == Write(old(UsedBits()), spot, true)
      ensures r.Some? ==> spot.seg < |Ranges()| && r.value == FrameAt(Ranges(), spot)
      ensures r.None? <==> old(Free()) == {}
      ensures r.None? ==> Free() == {} && Full(old(UsedBits())) && UsedBits() == old(UsedBits())
      ensures r.Some? ==> r.value in old(Free()) && Free() == old(Free()) - {r.value}
    {
      ghost var es, before := Ranges(), UsedBits();
      ViewFits();
      FullIffEmpty(es, before);
      r, spot := AllocateFrame();
      if r.Some? {
        TakenAt(es, before, spot, UsedBits(), r.value);
        assert FreeSet(Ranges(), UsedBits()) == FreeSet(es, before) - {r.value};
      }
    }

    /** Clears the bit of a frame, whether or not it was set; a frame of no segment is ignored. */
    method DeallocateFrame(frame: nat) returns (ghost spot: Option<Spot>)
      requires Valid()
      modifies Bitmaps()
      ensures Valid() && Ranges() == old(Ranges())
      ensures spot.None? ==> UsedBits() == old(UsedBits()) && !Managed(Ranges(), frame)
      ensures spot.Some? ==> InView(old(UsedBits()), spot.value) && spot.value.page < Ranges()[spot.value.seg].pages
      ensures spot.Some? ==> frame == Ranges()[spot.value.seg].base + spot.value.page
      ensures spot.Some? ==> UsedBits() == Write(old(UsedBits()), spot.value, false)
    {
      spot := None;
      var s := 0;
      while s < |segments| && !segments[s].InRange(frame * PAGE_SIZE)
        invariant s <= |segments|
        invariant forall i :: 0 <= i < s ==> !Inside(segments[i].Range(), frame)
      {
        s := s + 1;
      }
      if s < |segments| {
        var page := (frame * PAGE_SIZE - segments[s].address) / PAGE_SIZE;
        BitmapWordsCoverPages(segments[s].size);
        MarkBit(s, page / 64, page % 64, false);
        spot := Some(Spot(s, page));
      }
    }

    /** `DeallocateFrame` seen as an operation on the set of free frames. */
    method Pfree(frame: nat)
      requires Valid()
      modifies Bitmaps()
      ensures Valid() && Ranges() == old(Ranges())
      ensures Managed(Ranges(), frame) ==> Free() == old(Free()) + {frame}
      ensures !Managed(Ranges(), frame) ==> Free() == old(Free())
    {
      ghost var es, before := Ranges(), UsedBits();
      ViewFits();
      ghost var spot := DeallocateFrame(frame);
      if spot.Some? {
        FreedAt(es, before, spot.value, UsedBits(), frame);
        assert FreeSet(Ranges(), UsedBits()) == FreeSet(es, before) + {frame};
      }
    }

    /** The search of `AllocateFrame`; `s` is the number of segments when every bitmap is all ones. */
    method FindFree() returns (s: nat, word: nat, bit: nat)
      ensures s <= |segments|
      ensures s == |segments| ==> Full(UsedBits())
      ensures s < |segments| ==> word < segments[s].bitmap.Length && bit < 64
      ensures s < |segments| ==> IsFirstFit(UsedBits(), Spot(s, 64 * word + bit))
    {
      s, word, bit := 0, 0, 0;
      ghost var bits := UsedBits();
      while s < |segments|
        invariant s <= |segments|
        invariant forall i :: 0 <= i < s ==> AllUsed(bits[i])
      {
        assert bits[s] == segments[s].Bits();
        word, bit := segments[s].FindClearBit();
        if word < segments[s].bitmap.Length {
          return;
        }
        s := s + 1;
      }
    }

    /** Sets or clears one bit of one segment's bitmap. */
    method MarkBit(s: nat, word: nat, bit: nat, used: bool)
      requires Valid()
      requires s < |segments| && word < segments[s].bitmap.Length && bit < 64
      requires 64 * word + bit < segments[s].size / PAGE_SIZE
      modifies segments[s].bitmap
      ensures Valid()
      ensures UsedBits() == Write(old(UsedBits()), Spot(s, 64 * word + bit), used)
    {
      var bitmap := segments[s].bitmap;
      bitmap[word] := bitmap[word][bit := used];
      assert segments[s].Bits() == old(segments[s].Bits())[64 * word + bit := used];
      assert forall i :: 0 <= i < |segments| && i != s ==> segments[i].Bits() == old(segments[i].Bits());
    }
  }

  /** Index of the first word that is not all ones, or the number of words. */
  function FirstNotFull(words: seq<Word>): (i: nat)
    ensures i <= |words| && (i < |words| ==> !IsMax(words[i]))
    ensures forall j :: 0 <= j < i ==> IsMax(words[j])
  {
    if words == [] || !IsMax(words[0]) then 0 else 1 + FirstNotFull(words[1..])
  }

  function TrailingOnes(w: seq<bool>): (k: nat)
    ensures k <= |w| && (k < |w| ==> !w[k])
    ensures forall j :: 0 <= j < k ==> w[j]
  {
    if w == [] || !w[0] then 0 else 1 + TrailingOnes(w[1..])
  }

  /** The two-level search finds the first clear bit of the flat bitmap. */
  lemma FirstClearBit(words: seq<Word>, bits: seq<bool>, i: nat, b: nat)
    requires |bits| == 64 * |words|
    requires forall i, j :: 0 <= i < |words| && 0 <= j < 64 ==> bits[64 * i + j] == words[i][j]
    requires i <= |words| && b < 64
    requires forall k :: 0 <= k < i ==> IsMax(words[k])
    requires i < |words| ==> !words[i][b] && forall j :: 0 <= j < b ==> words[i][j]
    ensures i == |words| ==> AllUsed(bits)
    ensures i < |words| ==> !bits[64 * i + b] && forall k :: 0 <= k < 64 * i + b ==> bits[k]
  {
    forall k | 0 <= k < |bits| && (k < 64 * i || (k < 64 * i + b))
      ensures bits[k]
    {
      var q, r := k / 64, k % 64;
      assert bits[64 * q + r] == words[q][r];
    }
  }

  lemma NotMaxHasZero(w: Word)
    requires !IsMax(w)
    ensures TrailingOnes(w) < 64
  {
    assert exists k :: 0 <= k < 64 && !w[k];
  }

  lemma FreedAt(es: seq<Extent>, v: View, s: Spot, w: View, f: nat)
    requires Fits(es, v) && Disjoint(es) && InView(v, s) && s.page < es[s.seg].pages
    requires w == Write(v, s, false) && f == es[s.seg].base + s.page
    ensures Managed(es, f) && FreeSet(es, w) == FreeSet(es, v) + {f}
  {
    assert Inside(es[s.seg], f);
    WriteChangesOneFrame(es, v, s, false);
  }

  lemma TakenAt(es: seq<Extent>, v: View, s: Spot, w: View, f: nat)
    requires Fits(es, v) && Disjoint(es) && IsFirstFit(v, s)
    requires w == Write(v, s, true) && f == es[s.seg].base + s.page
    ensures Fits(es, w) && f in FreeSet(es, v) && FreeSet(es, w) == FreeSet(es, v) - {f}
  {
    assert Inside(es[s.seg], f);
    FreeSetMember(es, v, f);
    WriteChangesOneFrame(es, v, s, true);
  }

  // ---------------------------------------------------------------- runs

  /** What a client sees of one call: a frame granted, a refusal, or a held frame given back. */
  datatype Event = Granted(spot: Spot) | Refused | Returned(spot: Spot)

  function FrameAt(es: seq<Extent>, s: Spot): nat
    requires s.seg < |es|
  {
    es[s.seg].base + s.page
  }

  /** The events are a run of the allocator from v to v', whose client starts with `held`, ends with `held'`
      and gives back only frames it holds. */
  ghost predicate Run(es: seq<Extent>, v: View, held: set<nat>, events: seq<Event>, v': View, held': set<nat>)
    requires |v| == |es|
    decreases |events|
  {
    if events == [] then v' == v && held' == held else
      match events[0]
      case Granted(s) =>
        IsFirstFit(v, s) && Run(es, Write(v, s, true), held + {FrameAt(es, s)}, events[1..], v', held')
      case Refused =>
        Full(v) && Run(es, v, held, events[1..], v', held')
      case Returned(s) =>
        && InView(v, s) && s.page < es[s.seg].pages && FrameAt(es, s) in held
        && Run(es, Write(v, s, false), held - {FrameAt(es, s)}, events[1..], v', held')
  }

  /** The same events are a run of the plain set of free frames: a grant takes a frame out of the set, a
      refusal means the set is empty, a return puts the frame back. */
  ghost predicate SetRun(es: seq<Extent>, free: set<nat>, held: set<nat>, events: seq<Event>, free': set<nat>)
    decreases |events|
  {
    if events == [] then free' == free else
      match events[0]
      case Granted(s) =>
        && s.seg < |es| && FrameAt(es, s) in free && FrameAt(es, s) !in held
        && SetRun(es, free - {FrameAt(es, s)}, held + {FrameAt(es, s)}, events[1..], free')
      case Refused =>
        free == {} && SetRun(es, free, held, events[1..], free')
      case Returned(s) =>
        && s.seg < |es| && FrameAt(es, s) in held && FrameAt(es, s) !in free
        && SetRun(es, free + {FrameAt(es, s)}, held - {FrameAt(es, s)}, events[1..], free')
  }

  lemma GrantStep(es: seq<Extent>, v: View, held: set<nat>, s: Spot, f: nat, w: View)
    requires Fits(es, v) && Disjoint(es) && FreeSet(es, v) !! held
    requires IsFirstFit(v, s) && w == Write(v, s, true) && f == FrameAt(es, s)
    ensures Fits(es, w) && f in FreeSet(es, v) && FreeSet(es, w) == FreeSet(es, v) - {f}
    ensures FreeSet(es, w) !! held + {f} && FreeSet(es, w) + (held + {f}) == FreeSet(es, v) + held
  {
    TakenAt(es, v, s, w, f);
  }

  lemma ReturnStep(es: seq<Extent>, v: View, held: set<nat>, s: Spot, f: nat, w: View)
    requires Fits(es, v) && Disjoint(es) && FreeSet(es, v) !! held
    requires InView(v, s) && s.page < es[s.seg].pages && w == Write(v, s, false)
    requires f == FrameAt(es, s) && f in held
    ensures Fits(es, w) && FreeSet(es, w) == FreeSet(es, v) + {f}
    ensures FreeSet(es, w) !! held - {f} && FreeSet(es, w) + (held - {f}) == FreeSet(es, v) + held
  {
    WriteChangesOneFrame(es, v, s, false);
  }

  /** Every run of the bitmaps is a run of the free set, and conserves frames: what is free or held at the
      end is what was free or held at the start, and no frame is ever both. */
  lemma {:induction false} RunRefinesFreeSet(es: seq<Extent>, v: View, held: set<nat>, events: seq<Event>,
                                             v': View, held': set<nat>)
    requires Fits(es, v) && Disjoint(es) && FreeSet(es, v) !! held
    requires Run(es, v, held, events, v', held')
    ensures Fits(es, v') && SetRun(es, FreeSet(es, v), held, events, FreeSet(es, v'))
    ensures FreeSet(es, v') !! held' && FreeSet(es, v') + held' == FreeSet(es, v) + held
    decreases |events|
  {
    if events != [] {
      match events[0]
      case Granted(s) =>
        var f, w := FrameAt(es, s), Write(v, s, true);
        GrantStep(es, v, held, s, f, w);
        RunRefinesFreeSet(es, w, held + {f}, events[1..], v', held');
      case Refused =>
        FullIffEmpty(es, v);
        RunRefinesFreeSet(es, v, held, events[1..], v', held');
      case Returned(s) =>
        var f, w := FrameAt(es, s), Write(v, s, false);
        ReturnStep(es, v, held, s, f, w);
        RunRefinesFreeSet(es, w, held - {f}, events[1..], v', held');
    }
  }

  /** Freeing the frame just allocated restores every bit. */
  lemma FreeUndoesAllocate(v: View, s: Spot)
    requires IsFirstFit(v, s)
    ensures Write(Write(v, s, true), s, false) == v
  {
    assert v[s.seg][s.page := true][s.page := false] == v[s.seg];
  }
}
