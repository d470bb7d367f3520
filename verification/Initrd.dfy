/**
 The scan of the initial ramdisk: one pass over the archive that fills a map from paths to files and directories.
 */
module Initrd {
  import opened Wrappers
  import opened Tar

  /** A file is a slice of the archive. */
  datatype InitrdEntry = FileAt(start: nat, size: nat) | Folder

  type Index = map<seq<Byte>, InitrdEntry>

  /** Names that end in a dot or two after a slash. */
  predicate Dropped(name: seq<Byte>) {
    || (|name| >= 2 && name[|name| - 2..] == [SLASH, DOT])
    || (|name| >= 3 && name[|name| - 3..] == [SLASH, DOT, DOT])
  }

  /** There is room for a header, and it is one. */
  predicate More(a: seq<Byte>, at: nat) {
    at + BLOCK <= |a| && Check(a[at..at + BLOCK])
  }

  /** The index with the entry of one header; None stands for a panic. */
  function Inserted(index: Index, h: Header, at: nat, size: nat): Option<Index> {
    match EntryTypeOf(h[156])
    case None => Some(index)
    case Some(ftype) =>
      match Name(h)
      case None => None
      case Some(name) =>
        if Dropped(name) then Some(index)
        else Some(index[name := if ftype == File then FileAt(at + BLOCK, size) else Folder])
  }

  /** The rest of the scan, from one header on. */
  function Scan(a: seq<Byte>, at: nat, index: Index): Option<Index>
    decreases |a| - at
  {
    if !More(a, at) then Some(index) else
      var h := a[at..at + BLOCK];
      match Size(h)
      case None => None
      case Some(size) =>
        match Inserted(index, h, at, size)
        case None => None
        case Some(index') => Scan(a, at + BLOCK + RoundUp(size), index')
  }

  // ---------------------------------------------------------------- what the scan finds in any bytes

  predicate EndsWith(s: seq<Byte>, t: seq<Byte>) {
    |t| <= |s| && s[|s| - |t|..] == t
  }

  lemma DroppedIff(name: seq<Byte>)
    ensures Dropped(name) <==> EndsWith(name, Ascii("/.")) || EndsWith(name, Ascii("/.."))
  {
    assert Ascii("/.") == [SLASH, DOT] && Ascii("/..") == [SLASH, DOT, DOT];
  }

  /** There are 512 bytes with the magic of a header. */
  predicate IsHeader(a: seq<Byte>, at: nat) {
    at + 512 <= |a| && a[at + 257..at + 263] == Ascii("ustar ")
  }

  function HeaderAt(a: seq<Byte>, at: nat): Header
    requires at + 512 <= |a|
  {
    a[at..at + 512]
  }

  lemma MoreIff(a: seq<Byte>, at: nat)
    ensures More(a, at) <==> IsHeader(a, at)
  {
    assert Ascii("ustar ") == USTAR;
    if at + 512 <= |a| {
      var h := a[at..at + 512];
      assert forall k :: 257 <= k < 263 ==> h[k] == a[at + k];
      assert h[257..263] == a[at + 257..at + 263];
    }
  }

  /** The headers in a row: each begins where the content of the one before ends, rounded up to 512 bytes. */
  ghost predicate Chain(a: seq<Byte>, ats: seq<nat>, sizes: seq<nat>) {
    && |ats| == |sizes| + 1 && ats[0] == 0
    && forall i :: 0 <= i < |sizes| ==>
         && IsHeader(a, ats[i]) && SizeIs(HeaderAt(a, ats[i]), sizes[i])
         && ats[i + 1] == ats[i] + 512 + (sizes[i] + 511) / 512 * 512
  }

  /** The header is a file's or a directory's, and has this path, which is not dropped. */
  ghost predicate Lists(a: seq<Byte>, at: nat, path: seq<Byte>) {
    && at + 512 <= |a| && Supported(a[at + 156]) && Name(HeaderAt(a, at)) == Some(path)
    && !EndsWith(path, Ascii("/.")) && !EndsWith(path, Ascii("/.."))
  }

  /** What the index says about the path of a header. */
  ghost predicate SaysOf(a: seq<Byte>, at: nat, size: nat, x: InitrdEntry) {
    && at + 512 <= |a|
    && x == if a[at + 156] == '0' as int then FileAt(at + 512, size) else Folder
  }

  ghost predicate NoneLists(a: seq<Byte>, ats: seq<nat>, n: nat, path: seq<Byte>)
    requires n <= |ats|
  {
    forall i :: 0 <= i < n ==> !Lists(a, ats[i], path)
  }

  /** Header i is the last of the first n that lists the path. */
  ghost predicate LastLists(a: seq<Byte>, ats: seq<nat>, n: nat, i: nat, path: seq<Byte>)
    requires n <= |ats|
  {
    i < n && Lists(a, ats[i], path) && forall j :: i < j < n ==> !Lists(a, ats[j], path)
  }

  /** The index has no path that no header lists. */
  ghost predicate OnlyListed(a: seq<Byte>, ats: seq<nat>, n: nat, index: Index)
    requires n <= |ats|
  {
    forall path :: path in index ==> !NoneLists(a, ats, n, path)
  }

  /** It has all that are listed, each as its last header says. */
  ghost predicate AsListed(a: seq<Byte>, ats: seq<nat>, sizes: seq<nat>, index: Index)
    requires |sizes| <= |ats|
  {
    forall path, i: nat :: LastLists(a, ats, |sizes|, i, path) ==>
      path in index && SaysOf(a, ats[i], sizes[i], index[path])
  }

  /** All files and directories have names. */
  ghost predicate AllNamed(a: seq<Byte>, ats: seq<nat>, n: nat)
    requires n <= |ats|
  {
    forall i :: 0 <= i < n && ats[i] + 512 <= |a| && Supported(a[ats[i] + 156]) ==> Name(HeaderAt(a, ats[i])).Some?
  }

  /** The index holds what the headers list, for each path the last; all of them that are read have names. */
  ghost predicate Indexes(a: seq<Byte>, ats: seq<nat>, sizes: seq<nat>, index: Index)
    requires |ats| == |sizes| + 1
  {
    OnlyListed(a, ats, |sizes|, index) && AsListed(a, ats, sizes, index) && AllNamed(a, ats, |sizes|)
  }

  /** The header cannot be read: its size is no number, or it is a file's or a directory's and its name is no text. */
  ghost predicate Unreadable(a: seq<Byte>, at: nat) {
    && IsHeader(a, at)
    && (|| (forall n: nat :: !SizeIs(HeaderAt(a, at), n))
        || (Supported(a[at + 156]) && Name(HeaderAt(a, at)).None?))
  }

  /** The index is that of all headers in a row, up to where there is none; it is none if one of them cannot be read. */
  ghost predicate Found(a: seq<Byte>, ats: seq<nat>, sizes: seq<nat>, r: Option<Index>) {
    && Chain(a, ats, sizes)
    && match r
       case Some(index) => Indexes(a, ats, sizes, index) && !IsHeader(a, ats[|sizes|])
       case None => Unreadable(a, ats[|sizes|])
  }

  /** One more header in the row. */
  lemma ChainNext(a: seq<Byte>, ats: seq<nat>, sizes: seq<nat>, size: nat, at: nat)
    requires Chain(a, ats, sizes) && IsHeader(a, ats[|sizes|]) && SizeIs(HeaderAt(a, ats[|sizes|]), size)
    requires at == ats[|sizes|] + 512 + (size + 511) / 512 * 512
    ensures Chain(a, ats + [at], sizes + [size])
  {
    var (ats', sizes') := (ats + [at], sizes + [size]);
    forall i | 0 <= i < |sizes'|
      ensures IsHeader(a, ats'[i]) && SizeIs(HeaderAt(a, ats'[i]), sizes'[i])
      ensures ats'[i + 1] == ats'[i] + 512 + (sizes'[i] + 511) / 512 * 512
    {
      if i < |sizes| {
        assert IsHeader(a, ats[i]) && SizeIs(HeaderAt(a, ats[i]), sizes[i]);
      }
    }
  }

  lemma TypeIff(ftype: Byte)
    ensures EntryTypeOf(ftype).Some? <==> Supported(ftype)
    ensures EntryTypeOf(ftype) == Some(File) <==> ftype == '0' as int
  {
  }

  /** What one header does to the index. */
  lemma InsertedIs(a: seq<Byte>, at: nat, index: Index, size: nat)
    requires at + 512 <= |a|
    ensures var (h, r) := (HeaderAt(a, at), Inserted(index, HeaderAt(a, at), at, size));
            && (r.None? <==> Supported(a[at + 156]) && Name(h).None?)
            && forall path :: r.Some? ==>
                 && (Lists(a, at, path) ==> path in r.value && SaysOf(a, at, size, r.value[path]))
                 && (!Lists(a, at, path) ==>
                       (path in r.value <==> path in index) && (path in index ==> r.value[path] == index[path]))
  {
    var h := HeaderAt(a, at);
    assert h[156] == a[at + 156];
    TypeIff(h[156]);
    if Name(h).Some? {
      DroppedIff(Name(h).value);
    }
  }

  lemma IndexesNext(a: seq<Byte>, ats: seq<nat>, sizes: seq<nat>, index: Index, index': Index, size: nat, at: nat)
    requires |ats| == |sizes| + 1 && Indexes(a, ats, sizes, index) && ats[|sizes|] + 512 <= |a|
    requires Inserted(index, HeaderAt(a, ats[|sizes|]), ats[|sizes|], size) == Some(index')
    ensures Indexes(a, ats + [at], sizes + [size], index')
  {
    OnlyListedNext(a, ats, |sizes|, index, index', size, at);
    AsListedNext(a, ats, sizes, index, index', size, at);
    InsertedIs(a, ats[|sizes|], index, size);
  }

  lemma OnlyListedNext(a: seq<Byte>, ats: seq<nat>, n: nat, index: Index, index': Index, size: nat, at: nat)
    requires |ats| == n + 1 && OnlyListed(a, ats, n, index) && ats[n] + 512 <= |a|
    requires Inserted(index, HeaderAt(a, ats[n]), ats[n], size) == Some(index')
    ensures OnlyListed(a, ats + [at], n + 1, index')
  {
    InsertedIs(a, ats[n], index, size);
    forall path | path in index'
      ensures !NoneLists(a, ats + [at], n + 1, path)
    {
      ListedStays(a, ats, at, n, path);
    }
  }

  lemma AsListedNext(a: seq<Byte>, ats: seq<nat>, sizes: seq<nat>, index: Index, index': Index, size: nat, at: nat)
    requires |ats| == |sizes| + 1 && AsListed(a, ats, sizes, index) && ats[|sizes|] + 512 <= |a|
    requires Inserted(index, HeaderAt(a, ats[|sizes|]), ats[|sizes|], size) == Some(index')
    ensures AsListed(a, ats + [at], sizes + [size], index')
  {
    var (ats', sizes', n) := (ats + [at], sizes + [size], |sizes|);
    InsertedIs(a, ats[n], index, size);
    forall path, i: nat | LastLists(a, ats', n + 1, i, path)
      ensures path in index' && SaysOf(a, ats'[i], sizes'[i], index'[path])
    {
      LastStays(a, ats, at, n, i, path);
    }
  }

  lemma ListedStays(a: seq<Byte>, ats: seq<nat>, at: nat, n: nat, path: seq<Byte>)
    requires |ats| == n + 1
    ensures NoneLists(a, ats + [at], n + 1, path) <==> NoneLists(a, ats, n, path) && !Lists(a, ats[n], path)
  {
    assert forall i :: 0 <= i <= n ==> (ats + [at])[i] == ats[i];
  }

  lemma LastStays(a: seq<Byte>, ats: seq<nat>, at: nat, n: nat, i: nat, path: seq<Byte>)
    requires |ats| == n + 1 && LastLists(a, ats + [at], n + 1, i, path)
    ensures if i == n then Lists(a, ats[n], path) else LastLists(a, ats, n, i, path) && !Lists(a, ats[n], path)
  {
    assert forall j :: 0 <= j <= n ==> (ats + [at])[j] == ats[j];
  }

  /** The scan goes from header to header. */
  lemma {:induction false} ScanFinds(a: seq<Byte>, ats: seq<nat>, sizes: seq<nat>, index: Index)
    returns (ats': seq<nat>, sizes': seq<nat>)
    requires Chain(a, ats, sizes) && Indexes(a, ats, sizes, index)
    ensures Found(a, ats', sizes', Scan(a, ats[|sizes|], index))
    decreases |a| - ats[|sizes|]
  {
    var at := ats[|sizes|];
    ats', sizes' := ats, sizes;
    if IsHeader(a, at) {
      var next := ScanOne(a, at, index);
      if next.Some? {
        var (size, after, index') := next.value;
        OneMore(a, ats, sizes, index, size, after, index');
        ats', sizes' := ScanFinds(a, ats + [after], sizes + [size], index');
      }
    } else {
      MoreIff(a, at);
    }
  }

  lemma OneMore(a: seq<Byte>, ats: seq<nat>, sizes: seq<nat>, index: Index, size: nat, at: nat, index': Index)
    requires Chain(a, ats, sizes) && Indexes(a, ats, sizes, index) && IsHeader(a, ats[|sizes|])
    requires SizeIs(HeaderAt(a, ats[|sizes|]), size) && at == ats[|sizes|] + 512 + (size + 511) / 512 * 512
    requires Inserted(index, HeaderAt(a, ats[|sizes|]), ats[|sizes|], size) == Some(index')
    ensures Chain(a, ats + [at], sizes + [size]) && Indexes(a, ats + [at], sizes + [size], index')
    ensures (ats + [at])[|sizes + [size]|] == at
  {
    ChainNext(a, ats, sizes, size, at);
    IndexesNext(a, ats, sizes, index, index', size, at);
  }

  /** One round of the scan: it stops at a header that cannot be read, and otherwise goes on behind its content. */
  lemma ScanOne(a: seq<Byte>, at: nat, index: Index) returns (next: Option<(nat, nat, Index)>)
    requires IsHeader(a, at)
    ensures next.None? ==> Unreadable(a, at) && Scan(a, at, index) == None
    ensures next.Some? ==> var (size, after, index') := next.value;
              && SizeIs(HeaderAt(a, at), size) && after == at + 512 + (size + 511) / 512 * 512
              && Inserted(index, HeaderAt(a, at), at, size) == Some(index')
              && Scan(a, at, index) == Scan(a, after, index')
  {
    var h := HeaderAt(a, at);
    MoreIff(a, at);
    next := None;
    if Size(h).None? {
      NoSize(h);
    } else {
      var size := Size(h).value;
      SizeIff(h, size);
      var index' := Inserted(index, h, at, size);
      if index'.Some? {
        next := Some((size, at + BLOCK + RoundUp(size), index'.value));
      } else {
        InsertedIs(a, at, index, size);
      }
    }
  }

  lemma NoSize(h: Header)
    requires Size(h).None?
    ensures forall n: nat :: !SizeIs(h, n)
  {
    forall n: nat
      ensures !SizeIs(h, n)
    {
      SizeIff(h, n);
    }
  }

  /** What the headers of the archive list. */
  ghost predicate IsIndexOf(a: seq<Byte>, r: Option<Index>) {
    exists ats, sizes :: Found(a, ats, sizes, r)
  }

  lemma ScanIsIndex(a: seq<Byte>)
    ensures IsIndexOf(a, Scan(a, 0, map[]))
  {
    var ats, sizes := ScanFinds(a, [0], [], map[]);
  }

  /** initrd::init_map: ends on every archive, and finds what its headers list. */
  method InitMap(a: seq<Byte>) returns (r: Option<Index>)
    ensures r == Scan(a, 0, map[])
    ensures IsIndexOf(a, r)
  {
    var at, index: Index := 0, map[];
    while More(a, at)
      invariant Scan(a, 0, map[]) == Scan(a, at, index)
      decreases |a| - at
    {
      var h := a[at..at + BLOCK];
      var size := Size(h);
      if size.None? {
        ScanIsIndex(a);
        return None;
      }
      var next := Inserted(index, h, at, size.value);
      if next.None? {
        ScanIsIndex(a);
        return None;
      }
      at, index := at + BLOCK + RoundUp(size.value), next.value;
    }
    ScanIsIndex(a);
    r := Some(index);
  }

  // ---------------------------------------------------------------- the archive as written

  /** What a path stands for. */
  datatype Item = Content(bytes: seq<Byte>) | Dir

  ghost predicate AllValid(es: seq<Entry>) {
    forall i :: 0 <= i < |es| ==> es[i].Valid()
  }

  ghost function EncodeAll(es: seq<Entry>): seq<Byte>
    requires AllValid(es)
  {
    if es == [] then [] else Encode(es[0]) + EncodeAll(es[1..])
  }

  /** Files and directories are kept, unless their path ends in a dot or two after a slash. */
  predicate Kept(e: Entry) {
    Supported(e.ftype) && !EndsWith(e.Path(), Ascii("/.")) && !EndsWith(e.Path(), Ascii("/.."))
  }

  function ItemOf(e: Entry): Item {
    if e.ftype == '0' as int then Content(e.content) else Dir
  }

  /** The entry a path is looked up as: the last one kept under it. */
  ghost predicate Named(es: seq<Entry>, i: int, path: seq<Byte>) {
    && 0 <= i < |es| && Kept(es[i]) && es[i].Path() == path
    && forall j :: i < j < |es| ==> !(Kept(es[j]) && es[j].Path() == path)
  }

  /** The bytes after the last entry do not look like a header. */
  predicate Ends(t: seq<Byte>) {
    !More(t, 0)
  }

  ghost predicate Denotes(a: seq<Byte>, x: InitrdEntry, item: Item) {
    match x
    case FileAt(start, size) => start + size <= |a| && item == Content(a[start..start + size])
    case Folder => item == Dir
  }

  /** The index agrees with the items. */
  ghost predicate Agrees(a: seq<Byte>, index: Index, items: map<seq<Byte>, Item>) {
    && index.Keys == items.Keys
    && forall n :: n in index ==> Denotes(a, index[n], items[n])
  }

  /** The items once more entries have been read: later ones replace earlier ones. */
  function Items(items: map<seq<Byte>, Item>, es: seq<Entry>): map<seq<Byte>, Item>
    decreases |es|
  {
    if es == [] then items else Items(With(items, es[0]), es[1..])
  }

  function With(items: map<seq<Byte>, Item>, e: Entry): map<seq<Byte>, Item> {
    if Kept(e) then items[e.Path() := ItemOf(e)] else items
  }

  /** What the scan makes of an entry. */
  function PlaceOf(e: Entry, at: nat): InitrdEntry {
    if e.ftype == '0' as int then FileAt(at + BLOCK, |e.content|) else Folder
  }

  lemma EntryInPlace(a: seq<Byte>, at: nat, e: Entry, rest: seq<Byte>)
    requires e.Valid() && at <= |a| && a[at..] == Encode(e) + rest
    ensures at + BLOCK + RoundUp(|e.content|) <= |a| && a[at..at + BLOCK] == HeaderOf(e)
    ensures a[at + BLOCK..at + BLOCK + |e.content|] == e.content
    ensures a[at + BLOCK + RoundUp(|e.content|)..] == rest
  {
    var (n, m) := (|Encode(e)|, BLOCK + |e.content|);
    assert a[at..][..BLOCK] == HeaderOf(e);
    assert a[at..][BLOCK..m] == e.content;
    assert a[at..][n..] == rest;
    assert a[at..at + BLOCK] == a[at..][..BLOCK] && a[at + BLOCK..at + m] == a[at..][BLOCK..m];
  }

  lemma InsertedOf(index: Index, e: Entry, at: nat)
    requires e.Valid()
    ensures Inserted(index, HeaderOf(e), at, |e.content|) ==
            Some(if Kept(e) then index[e.Path() := PlaceOf(e, at)] else index)
  {
    HeaderReadsBack(e);
    DroppedIff(e.Path());
  }

  lemma AgreesNext(a: seq<Byte>, at: nat, e: Entry, index: Index, items: map<seq<Byte>, Item>)
    requires Agrees(a, index, items) && at + BLOCK + |e.content| <= |a|
    requires a[at + BLOCK..at + BLOCK + |e.content|] == e.content
    ensures Agrees(a, if Kept(e) then index[e.Path() := PlaceOf(e, at)] else index, With(items, e))
  {
    assert Kept(e) ==> Denotes(a, PlaceOf(e, at), ItemOf(e));
  }

  /** One round of the scan over an entry. */
  lemma ScanStep(a: seq<Byte>, at: nat, e: Entry, index: Index)
    requires e.Valid() && at + BLOCK <= |a| && a[at..at + BLOCK] == HeaderOf(e)
    ensures Scan(a, at, index) == Scan(a, at + BLOCK + RoundUp(|e.content|),
                                       if Kept(e) then index[e.Path() := PlaceOf(e, at)] else index)
  {
    HeaderReadsBack(e);
    InsertedOf(index, e, at);
  }

  lemma {:induction false} ScanReads(
      a: seq<Byte>, at: nat, es: seq<Entry>, t: seq<Byte>, index: Index, items: map<seq<Byte>, Item>)
    requires AllValid(es) && Ends(t) && at <= |a| && a[at..] == EncodeAll(es) + t && Agrees(a, index, items)
    ensures Scan(a, at, index).Some? && Agrees(a, Scan(a, at, index).value, Items(items, es))
    decreases |es|
  {
    if es == [] {
      NothingMore(a, at, t, index);
    } else {
      var rest := EncodeAll(es[1..]) + t;
      assert EncodeAll(es) + t == Encode(es[0]) + rest;
      var after, index' := EntryRead(a, at, es[0], rest, index, items);
      ScanReads(a, after, es[1..], t, index', With(items, es[0]));
    }
  }

  lemma NothingMore(a: seq<Byte>, at: nat, t: seq<Byte>, index: Index)
    requires at <= |a| && a[at..] == [] + t && Ends(t)
    ensures Scan(a, at, index) == Some(index)
  {
    assert [] + t == t;
    assert at + BLOCK <= |a| ==> a[at..at + BLOCK] == t[0..0 + BLOCK];
  }

  lemma EntryRead(
      a: seq<Byte>, at: nat, e: Entry, rest: seq<Byte>, index: Index, items: map<seq<Byte>, Item>)
    returns (after: nat, index': Index)
    requires e.Valid() && at <= |a| && a[at..] == Encode(e) + rest && Agrees(a, index, items)
    ensures after <= |a| && a[after..] == rest && Agrees(a, index', With(items, e))
    ensures Scan(a, at, index) == Scan(a, after, index')
  {
    after := at + BLOCK + RoundUp(|e.content|);
    index' := if Kept(e) then index[e.Path() := PlaceOf(e, at)] else index;
    EntryInPlace(a, at, e, rest);
    ScanStep(a, at, e, index);
    AgreesNext(a, at, e, index, items);
  }

  lemma {:induction false} ItemsAreLast(items: map<seq<Byte>, Item>, es: seq<Entry>, i: int, path: seq<Byte>)
    requires Named(es, i, path)
    ensures path in Items(items, es) && Items(items, es)[path] == ItemOf(es[i])
    decreases |es|
  {
    if i == 0 {
      ItemsElsewhere(With(items, es[0]), es[1..], path);
    } else {
      ItemsAreLast(With(items, es[0]), es[1..], i - 1, path);
    }
  }

  lemma {:induction false} ItemsElsewhere(items: map<seq<Byte>, Item>, es: seq<Entry>, path: seq<Byte>)
    requires forall j :: 0 <= j < |es| ==> !(Kept(es[j]) && es[j].Path() == path)
    ensures path in Items(items, es) <==> path in items
    ensures path in items ==> Items(items, es)[path] == items[path]
    decreases |es|
  {
    if es != [] {
      ItemsElsewhere(With(items, es[0]), es[1..], path);
    }
  }

  lemma {:induction false} LastNamed(es: seq<Entry>, path: seq<Byte>) returns (i: int)
    ensures i >= 0 ==> Named(es, i, path)
    ensures i < 0 ==> forall j :: 0 <= j < |es| ==> !(Kept(es[j]) && es[j].Path() == path)
  {
    if es == [] {
      i := -1;
    } else {
      var k := |es| - 1;
      if Kept(es[k]) && es[k].Path() == path {
        i := k;
      } else {
        i := LastNamed(es[..k], path);
        assert forall j :: 0 <= j < k ==> es[..k][j] == es[j];
      }
    }
  }

  /** The scan inverts the encoding: it finds exactly the entries that are kept, for each path the last one, and every
      file's slice holds the content that was written. */
  lemma ScanInvertsEncoding(es: seq<Entry>, t: seq<Byte>, path: seq<Byte>)
    requires AllValid(es) && Ends(t)
    ensures var (a, r) := (EncodeAll(es) + t, Scan(EncodeAll(es) + t, 0, map[]));
            && r.Some?
            && (path in r.value <==> exists i :: Named(es, i, path))
            && forall i :: Named(es, i, path) ==> path in r.value && Denotes(a, r.value[path], ItemOf(es[i]))
  {
    var a := EncodeAll(es) + t;
    assert a[0..] == a;
    ScanReads(a, 0, es, t, map[], map[]);
    var i := LastNamed(es, path);
    if i < 0 {
      ItemsElsewhere(map[], es, path);
    } else {
      assert forall j :: Named(es, j, path) ==> j == i;
      ItemsAreLast(map[], es, i, path);
    }
  }
}
