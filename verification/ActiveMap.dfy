/**
 Switching between tasks on one core.  A memory map is applied only if the map applied last had another id; the
 question is when that is as good as applying it every time.
 */
module ActiveMap {
  import opened Wrappers
  import opened Memory
  import opened Loader
  import Exec

  datatype Core = Core(pages: PageMap, active: Option<nat>)

  /** MemoryMap::apply. */
  function Apply(c: Core, m: MemoryMap): Core {
    if c.active == Some(m.id) then c else Core(Fold(c.pages, m.mappings), Some(m.id))
  }

  function Switches(c: Core, ms: seq<MemoryMap>): Core {
    if ms == [] then c else Apply(Switches(c, ms[..|ms| - 1]), ms[|ms| - 1])
  }

  /** The page map if every switch applied its map. */
  function Reapplied(pages: PageMap, ms: seq<MemoryMap>): PageMap {
    if ms == [] then pages else Fold(Reapplied(pages, ms[..|ms| - 1]), ms[|ms| - 1].mappings)
  }

  /** What a map puts behind its own pages. */
  function Own(m: MemoryMap): PageMap {
    Fold(map[], m.mappings)
  }

  /** Every page of the map translates as the map says. */
  ghost predicate InForce(pages: PageMap, m: MemoryMap) {
    forall p :: p in Own(m) ==> p in pages && pages[p] == Own(m)[p]
  }

  lemma {:induction false} FoldIsOverlay(pages: PageMap, ms: seq<MemoryMapping>)
    ensures Fold(pages, ms) == pages + Fold(map[], ms)
  {
    if ms == [] {
      assert Fold(pages, ms) == pages + map[];
    } else {
      var k := |ms| - 1;
      FoldIsOverlay(pages, ms[..k]);
      assert (pages + Fold(map[], ms[..k]))[ms[k].page := ms[k].Leaf()] ==
             pages + Fold(map[], ms[..k])[ms[k].page := ms[k].Leaf()];
    }
  }

  /** Maps with the same id put the same frames and flags behind the same pages. */
  ghost predicate Compatible(maps: set<MemoryMap>) {
    forall a, b :: a in maps && b in maps && a.id == b.id ==> Own(a) == Own(b)
  }

  ghost predicate From(ms: seq<MemoryMap>, maps: set<MemoryMap>) {
    forall i :: 0 <= i < |ms| ==> ms[i] in maps
  }

  /** With compatible maps the shortcut changes nothing, over any sequence of switches, and the task that runs last
      has its map in force. */
  lemma {:induction false} ShortcutAgrees(pages: PageMap, ms: seq<MemoryMap>, maps: set<MemoryMap>)
    requires Compatible(maps) && From(ms, maps)
    ensures Switches(Core(pages, None), ms).pages == Reapplied(pages, ms)
    ensures Switches(Core(pages, None), ms).active == if ms == [] then None else Some(ms[|ms| - 1].id)
    ensures ms != [] ==> InForce(Reapplied(pages, ms), ms[|ms| - 1])
    decreases |ms|
  {
    if ms != [] {
      var k := |ms| - 1;
      var before := Reapplied(pages, ms[..k]);
      ShortcutAgrees(pages, ms[..k], maps);
      FoldIsOverlay(before, ms[k].mappings);
      if k > 0 && ms[k - 1].id == ms[k].id {
        Idempotent(before, ms[k - 1], ms[k]);
      }
    }
  }

  lemma Idempotent(pages: PageMap, a: MemoryMap, b: MemoryMap)
    requires InForce(pages, a) && Own(a) == Own(b)
    ensures Fold(pages, b.mappings) == pages
  {
    FoldIsOverlay(pages, b.mappings);
  }

  /** The shortcut agrees with applying every time on all sequences of switches. */
  ghost predicate AlwaysAgrees(maps: set<MemoryMap>) {
    forall ms :: From(ms, maps) ==> Switches(Core(map[], None), ms).pages == Reapplied(map[], ms)
  }

  /** It does so if and only if maps with the same id say the same. */
  lemma ShortcutRightIff(maps: set<MemoryMap>)
    ensures AlwaysAgrees(maps) <==> Compatible(maps)
  {
    if Compatible(maps) {
      forall ms | From(ms, maps)
        ensures Switches(Core(map[], None), ms).pages == Reapplied(map[], ms)
      {
        ShortcutAgrees(map[], ms, maps);
      }
    }
    if AlwaysAgrees(maps) {
      forall a, b | a in maps && b in maps && a.id == b.id
        ensures Own(a) == Own(b)
      {
        TwoSwitches(a, b);
        TwoSwitches(b, a);
        assert From([a, b], maps) && From([b, a], maps);
      }
    }
  }

  lemma TwoSwitches(a: MemoryMap, b: MemoryMap)
    requires a.id == b.id
    ensures Switches(Core(map[], None), [a, b]).pages == Own(a)
    ensures Reapplied(map[], [a, b]) == Own(a) + Own(b)
  {
    assert [a, b] == [a] + [b] && [a] == [] + [a];
    OneMore(Core(map[], None), [], a);
    OneMore(Core(map[], None), [a], b);
    FoldIsOverlay(Own(a), b.mappings);
  }

  lemma OneMore(c: Core, ms: seq<MemoryMap>, m: MemoryMap)
    ensures Switches(c, ms + [m]) == Apply(Switches(c, ms), m)
    ensures Reapplied(c.pages, ms + [m]) == Fold(Reapplied(c.pages, ms), m.mappings)
  {
    assert (ms + [m])[..|ms|] == ms;
  }

  /** Distinct ids are enough, whatever the maps. */
  lemma DistinctIdsAgree(maps: set<MemoryMap>)
    requires forall a, b :: a in maps && b in maps && a.id == b.id ==> a == b
    ensures AlwaysAgrees(maps)
  {
    ShortcutRightIff(maps);
  }

  /** But every new map has the same id, so that the shortcut is right only if all maps say the same. */
  lemma SameIdsAgreeIff(maps: set<MemoryMap>)
    requires forall a :: a in maps ==> a.id == Exec.NewMapId()
    ensures AlwaysAgrees(maps) <==> forall a, b :: a in maps && b in maps ==> Own(a) == Own(b)
  {
    ShortcutRightIff(maps);
  }

  /** The second of two tasks with different frames behind the same page runs on the first one's frame. */
  lemma SecondTaskNotApplied(a: MemoryMapping, b: MemoryMapping)
    requires a.page == b.page && a.frame != b.frame
    ensures var (x, y) := (MemoryMap(Exec.NewMapId(), [a]), MemoryMap(Exec.NewMapId(), [b]));
            var pages := Switches(Core(map[], None), [x, y]).pages;
            b.page in pages && pages[b.page].frame == a.frame && !InForce(pages, y)
  {
    var (x, y) := (MemoryMap(Exec.NewMapId(), [a]), MemoryMap(Exec.NewMapId(), [b]));
    TwoSwitches(x, y);
    FoldShows(map[], [a], 0);
    FoldShows(map[], [b], 0);
  }
}
