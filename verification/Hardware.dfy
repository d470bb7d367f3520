/**
 One core's view of memory: physical memory, the root table, and the core's translation buffer.  The buffer is
 filled by the hardware whenever it likes, so every operation may leave new translations behind; what the
 kernel may rely on is that a translation it has flushed comes from the tables as they stand.
 */
module Hardware {
  import opened Wrappers
  import opened Paging

  type Tlb = map<Page, Entry>

  /** The buffer holds no translation for p other than the one in the tables. */
  ghost predicate Agrees(tlb: Tlb, ram: Ram, root: nat, p: Page) {
    p in tlb ==> Walk(ram, root, p) == Some(tlb[p])
  }

  /** A translation for p in t1 was already in t0, or has just been read from the tables. */
  ghost predicate Filled(t0: Tlb, t1: Tlb, ram: Ram, root: nat, p: Page) {
    p in t1 ==> (p in t0 && t1[p] == t0[p]) || Walk(ram, root, p) == Some(t1[p])
  }

  ghost predicate AllFilled(t0: Tlb, t1: Tlb, ram: Ram, root: nat) {
    forall p :: Filled(t0, t1, ram, root, p)
  }

  /** Filling twice from the same tables is filling once. */
  lemma FilledTwice(t0: Tlb, t1: Tlb, t2: Tlb, ram: Ram, root: nat)
    requires AllFilled(t0, t1, ram, root) && AllFilled(t1, t2, ram, root)
    ensures AllFilled(t0, t2, ram, root)
  {
    forall p
      ensures Filled(t0, t2, ram, root, p)
    {
      assert Filled(t0, t1, ram, root, p) && Filled(t1, t2, ram, root, p);
    }
  }

  /** After CR3 is reloaded, a translation was in the buffer before and is global, or comes from the tables. */
  ghost predicate Reloaded(t0: Tlb, t1: Tlb, ram: Ram, root: nat) {
    forall p :: p in t1 ==>
      (p in t0 && t1[p] == t0[p] && t0[p].flags.global) || Walk(ram, root, p) == Some(t1[p])
  }

  class Core {
    var ram: Ram
    const root: nat
    ghost var tlb: Tlb
    /** Position of every table frame, and the tables linked but not yet cleared. */
    ghost var owner: map<nat, Pos>
    ghost var hole: set<nat>

    ghost predicate WellFormed()
      reads this
    {
      Tree(ram, root, owner, hole)
    }

    ghost predicate Mapped(p: Page)
      reads this
    {
      Walk(ram, root, p).Some? && Walk(ram, root, p).value.frame in ram
    }

    /** The page may be used: it is mapped to memory, and the core cannot see another frame there. */
    ghost predicate Usable(p: Page)
      reads this
    {
      Mapped(p) && Agrees(tlb, ram, root, p)
    }

    /** The page may be used for stores too. */
    ghost predicate Writable(p: Page)
      reads this
    {
      Usable(p) && MayWrite(ram, root, p)
    }

    method Load(p: Page, i: Idx) returns (e: Entry)
      requires Usable(p)
      ensures e == Get(ram, Walk(ram, root, p).value.frame, i)
    {
      var f := Walk(ram, root, p).value.frame;
      e := ram[f][i];
    }

    method Store(p: Page, i: Idx, e: Entry)
      requires Writable(p)
      modifies this`ram, this`tlb
      ensures owner == old(owner) && hole == old(hole)
      ensures ram == Put(old(ram), Walk(old(ram), root, p).value.frame, i, e)
      ensures AllFilled(old(tlb), tlb, ram, root)
    {
      var f := Walk(ram, root, p).value.frame;
      ram := Put(ram, f, i, e);
      Fill();
    }

    /** Memory after stores through addresses that are mapped one to one. */
    method Replace(ram: Ram, ghost owner: map<nat, Pos>)
      modifies this
      ensures this.ram == ram && this.owner == owner && hole == {} && AllFilled(old(tlb), tlb, this.ram, root)
    {
      this.ram, this.owner, hole := ram, owner, {};
      Fill();
    }

    /** `fill(0)` over the page. */
    method Zero(p: Page)
      requires Writable(p)
      modifies this`ram, this`tlb
      ensures owner == old(owner) && hole == old(hole)
      ensures ram == old(ram)[Walk(old(ram), root, p).value.frame := Zeroed()]
      ensures AllFilled(old(tlb), tlb, ram, root)
    {
      var f := Walk(ram, root, p).value.frame;
      ram := ram[f := Zeroed()];
      Fill();
    }

    method Invlpg(p: Page)
      modifies this`tlb
      ensures ram == old(ram) && owner == old(owner) && hole == old(hole)
      ensures AllFilled(old(tlb), tlb, ram, root) && Agrees(tlb, ram, root, p)
    {
      ghost var dropped := tlb - {p};
      tlb := dropped;
      Fill();
      assert Filled(dropped, tlb, ram, root, p);
      assert forall q :: Filled(dropped, tlb, ram, root, q) ==> Filled(old(tlb), tlb, ram, root, q);
    }

    /** Reloading CR3 drops every translation that is not global. */
    method ReloadCr3()
      modifies this`tlb
      ensures ram == old(ram) && owner == old(owner) && hole == old(hole)
      ensures Reloaded(old(tlb), tlb, ram, root)
    {
      ghost var kept := map p | p in tlb && tlb[p].flags.global :: tlb[p];
      tlb := kept;
      Fill();
      forall p | p in tlb
        ensures (p in kept && tlb[p] == kept[p]) || Walk(ram, root, p) == Some(tlb[p])
      {
        assert Filled(kept, tlb, ram, root, p);
      }
    }

    /** The hardware drops some translations and reads others from the tables. */
    ghost method Fill()
      modifies this`tlb
      ensures ram == old(ram) && owner == old(owner) && hole == old(hole)
      ensures AllFilled(old(tlb), tlb, ram, root)
    {
      assert AllFilled(tlb, tlb, ram, root);
      var t: Tlb :| AllFilled(tlb, t, ram, root);
      tlb := t;
    }
  }
}
