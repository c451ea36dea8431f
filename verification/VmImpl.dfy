/** kalloc.c and vm.c as they run. */
module VmImpl {
  import opened Common
  import opened VmSpec

  const JUNK: nat := 0x0101_0101
  const KERNBASE: nat := USERPAGES * PGSIZE

  /** mappages: done, out of pages, or the panic "remap". */
  datatype MapResult = Ok | NoPage | Remap

  /** allocuvm: the new size, 0 for lack of memory, 0 for a size in the kernel's half, or the panic "remap". */
  datatype Grown = Size(n: nat) | NoMemory | TooBig | Stopped

  function PgUp(sz: nat): nat { (sz + PGSIZE - 1) / PGSIZE }

  /** The effect of mapping within virtual pages lo..hi-1: pages outside `all` and pages in hand are untouched, no other
      entry changes, nothing mapped is remapped, and mapped user pages hold what they held. */
  ghost predicate Extended(mem: Memory, mem': Memory, pg: nat, all: set<nat>, hand: set<nat>, lo: nat, hi: nat) {
    var extended := pg < NPAGES &&
                    (forall p: nat :: p < NPAGES && (p !in all || p in hand) ==> mem'[p] == mem[p]) &&
                    (forall u: nat :: u < NVIRT && (Mapped(mem, pg, u) || !(lo <= u < hi)) ==>
                      Pte(mem', pg, u) == Pte(mem, pg, u)) &&
                    DataSame(mem, mem', pg);
    extended
  }

  /** The user pages that were mapped hold what they held. */
  ghost predicate DataSame(mem: Memory, mem': Memory, pg: nat)
    requires pg < NPAGES
  {
    forall u: nat :: u < USERPAGES && Mapped(mem, pg, u) && Frame(Pte(mem, pg, u)) < NPAGES ==>
      mem'[Frame(Pte(mem, pg, u))] == mem[Frame(Pte(mem, pg, u))]
  }

  lemma ExtendedTwice(mem: Memory, m1: Memory, m2: Memory, pg: nat, all: set<nat>, hand: set<nat>, lo: nat, mid: nat,
                      hi: nat)
    requires lo <= mid <= hi && Extended(mem, m1, pg, all, hand, lo, mid) && Extended(m1, m2, pg, all, hand, mid, hi)
    ensures Extended(mem, m2, pg, all, hand, lo, hi)
  {
  }

  lemma TableExtended(mem: Memory, free: seq<nat>, pg: nat, all: set<nat>, hand: set<nat>, i: nat, t: nat)
    requires Space(mem, free, pg, all, hand) && i < NENT && !HasTable(mem, pg, i) && t in free && t < NPAGES && t != pg
    requires forall v: nat :: v < NVIRT ==> Pte(WithTable(mem, pg, i, t), pg, v) == Pte(mem, pg, v)
    ensures forall lo, hi :: Extended(mem, WithTable(mem, pg, i, t), pg, all, hand, lo, hi)
  {
    assert Keeps(mem, pg, Dir, pg);
    forall u: nat | u < USERPAGES && Mapped(mem, pg, u)
      ensures Frame(Pte(mem, pg, u)) != t && Frame(Pte(mem, pg, u)) != pg
    {
      assert Keeps(mem, pg, User(u), Frame(Pte(mem, pg, u)));
      Apart(mem, free, pg, all, hand, Dir, User(u), pg);
    }
  }

  lemma PteExtended(mem: Memory, free: seq<nat>, pg: nat, all: set<nat>, hand: set<nat>, v: nat, w: nat)
    requires Space(mem, free, pg, all, hand) && v < NVIRT && HasTable(mem, pg, v / NENT) && !Mapped(mem, pg, v)
    ensures TableOf(mem, pg, v / NENT) < NPAGES && Extended(mem, WithPte(mem, pg, v, w), pg, all, hand, v, v + 1)
  {
    StorePte(mem, free, pg, all, hand, v, w);
    var i, t := v / NENT, TableOf(mem, pg, v / NENT);
    assert Keeps(mem, pg, Table(i), t);
    forall u: nat | u < USERPAGES && Mapped(mem, pg, u) ensures Frame(Pte(mem, pg, u)) != t {
      assert Keeps(mem, pg, User(u), Frame(Pte(mem, pg, u)));
      Apart(mem, free, pg, all, hand, Table(i), User(u), t);
    }
  }

  /** Virtual pages lo..hi-1 are mapped to physical pages from p on. */
  ghost predicate MapsTo(mem: Memory, pg: nat, lo: nat, hi: nat, p: nat, perm: nat)
    requires pg < NPAGES && hi <= NVIRT
  {
    forall u: nat :: lo <= u < hi ==> Pte(mem, pg, u) == Entry(p + (u - lo), WithP(perm))
  }

  ghost predicate NoneMapped(mem: Memory, pg: nat, lo: nat, hi: nat)
    requires pg < NPAGES && hi <= NVIRT
  {
    forall u: nat :: lo <= u < hi ==> !Mapped(mem, pg, u)
  }

  /** The pages in hand once page p is mapped at v. */
  ghost function HandAfter(hand: set<nat>, v: nat, p: nat): set<nat> { if v < USERPAGES then hand - {p} else hand }

  /** The physical pages from p on, for those of the virtual pages v..last that are the user's, are in hand. */
  ghost predicate InHand(hand: set<nat>, v: nat, last: nat, p: nat) {
    forall u: nat :: v <= u <= last && u < USERPAGES ==> PageInHand(hand, v, p, u)
  }

  ghost predicate PageInHand(hand: set<nat>, v: nat, p: nat, u: nat) {
    v <= u && p + (u - v) in hand && p + (u - v) < NPAGES
  }

  /** The pages in hand once virtual pages v..a-1 are mapped to those from p on. */
  ghost function HandAt(hand: set<nat>, v: nat, a: nat, p: nat): set<nat>
    requires v <= a
  {
    set x | x in hand && !(p <= x < p + (a - v) && v + (x - p) < USERPAGES)
  }

  lemma HandNext(hand: set<nat>, v: nat, a: nat, next: nat, p: nat, pa: nat)
    requires v <= a && next == a + 1 && pa == p + (a - v)
    ensures HandAfter(HandAt(hand, v, a, p), a, pa) == HandAt(hand, v, next, p)
  {
  }

  /** The pages that were in hand and are mapped by now are untouched as well. */
  lemma ExtendedHand(mem: Memory, mem': Memory, pg: nat, all: set<nat>, hand: set<nat>,
                     v: nat, last: nat, a: nat, p: nat, perm: nat, hi: nat)
    requires v <= a <= last < NVIRT && InHand(hand, v, last, p) && WithP(perm) < PGSIZE
    requires Extended(mem, mem', pg, all, HandAt(hand, v, a, p), a, hi) && MapsTo(mem, pg, v, a, p, perm)
    ensures Extended(mem, mem', pg, all, hand, a, hi)
  {
    forall x: nat | x < NPAGES && x in hand && x !in HandAt(hand, v, a, p) ensures mem'[x] == mem[x] {
      var u := v + (x - p);
      assert PageInHand(hand, v, p, u);
      assert Pte(mem, pg, u) == Entry(p + (u - v), WithP(perm));
      EntryParts(x, WithP(perm));
    }
  }

  lemma PageBytes(v: nat, n: nat)
    requires 0 < n
    ensures v * PGSIZE / PGSIZE == v && (v * PGSIZE + n * PGSIZE - 1) / PGSIZE == v + n - 1
  {
  }

  /** Storing the entry of an unmapped page. */
  lemma MapStore(mem: Memory, free: seq<nat>, pg: nat, all: set<nat>, hand: set<nat>, v: nat, p: nat, perm: nat,
                 w: nat, mem': Memory)
    requires Space(mem, free, pg, all, hand) && v < NVIRT && HasTable(mem, pg, v / NENT) && !Mapped(mem, pg, v)
    requires WithP(perm) < PGSIZE && (v < USERPAGES ==> p in hand && p < NPAGES) && w == Entry(p, WithP(perm))
    requires TableOf(mem, pg, v / NENT) < NPAGES && mem' == WithPte(mem, pg, v, w)
    ensures Space(mem', free, pg, all, HandAfter(hand, v, p)) && Extended(mem, mem', pg, all, hand, v, v + 1)
    ensures Pte(mem', pg, v) == w && mem'[pg] == mem[pg]
  {
    StorePte(mem, free, pg, all, hand, v, w);
    PteExtended(mem, free, pg, all, hand, v, w);
    if v < USERPAGES {
      StoreUser(mem, free, pg, all, hand, v, p, WithP(perm));
    } else {
      StoreKernel(mem, free, pg, all, hand, v, w);
    }
  }

  /** One more page mapped at the end of a range. */
  lemma MapsOn(mem: Memory, m1: Memory, m2: Memory, pg: nat, all: set<nat>, hand: set<nat>,
               lo: nat, a: nat, next: nat, p: nat, pa: nat, perm: nat)
    requires lo <= a && next == a + 1 <= NVIRT && pa == p + (a - lo) && WithP(perm) < PGSIZE
    requires Extended(mem, m1, pg, all, hand, lo, a) && Extended(m1, m2, pg, all, hand, a, next)
    requires NoneMapped(mem, pg, lo, a) && MapsTo(m1, pg, lo, a, p, perm)
    requires !Mapped(m1, pg, a) && Pte(m2, pg, a) == Entry(pa, WithP(perm))
    ensures Extended(mem, m2, pg, all, hand, lo, next) && NoneMapped(mem, pg, lo, next) &&
            MapsTo(m2, pg, lo, next, p, perm)
  {
    ExtendedTwice(mem, m1, m2, pg, all, hand, lo, a, next);
    forall u: nat | lo <= u < next ensures Pte(m2, pg, u) == Entry(p + (u - lo), WithP(perm)) {
      if u < a { EntryParts(p + (u - lo), WithP(perm)); }
    }
  }

  /** The effect of unmapping user pages lo..hi-1: their entries are 0, every other entry is as it was, the user pages
      that stay hold what they held, and pages outside `all` are untouched. */
  ghost predicate Cleared(mem: Memory, mem': Memory, pg: nat, all: set<nat>, lo: nat, hi: nat) {
    var cleared := pg < NPAGES && (forall p: nat :: p < NPAGES && p !in all ==> mem'[p] == mem[p]) &&
                   (forall u: nat :: u < NVIRT ==>
                     Pte(mem', pg, u) == if lo <= u < hi && Mapped(mem, pg, u) then 0 else Pte(mem, pg, u)) &&
                   (forall u: nat :: u < USERPAGES && Mapped(mem, pg, u) && !(lo <= u < hi) ==>
                     Frame(Pte(mem, pg, u)) < NPAGES ==>
                     mem'[Frame(Pte(mem, pg, u))] == mem[Frame(Pte(mem, pg, u))]);
    cleared
  }

  lemma ClearedOn(mem: Memory, m1: Memory, m2: Memory, pg: nat, all: set<nat>, lo: nat, a: nat, hi: nat)
    requires lo <= a <= hi && Cleared(mem, m1, pg, all, lo, a) && Cleared(m1, m2, pg, all, a, hi)
    ensures Cleared(mem, m2, pg, all, lo, hi)
  {
  }

  /** Pages that are not mapped can be passed over. */
  lemma ClearedSkip(mem: Memory, m1: Memory, pg: nat, all: set<nat>, lo: nat, a: nat, hi: nat)
    requires lo <= a <= hi <= NVIRT && Cleared(mem, m1, pg, all, lo, a) && NoneMapped(m1, pg, a, hi)
    ensures Cleared(mem, m1, pg, all, lo, hi)
  {
    forall u: nat | a <= u < hi ensures !Mapped(mem, pg, u) {
      assert !Mapped(m1, pg, u) && Pte(m1, pg, u) == Pte(mem, pg, u);
    }
  }

  /** Where there is no table nothing is mapped, up to the end of what the table would cover. */
  lemma NoTable(mem: Memory, pg: nat, a: nat)
    requires pg < NPAGES && a < NVIRT && !HasTable(mem, pg, a / NENT)
    ensures (a / NENT + 1) * NENT <= NVIRT && NoneMapped(mem, pg, a, (a / NENT + 1) * NENT)
  {
    forall u: nat | a <= u < (a / NENT + 1) * NENT ensures u < NVIRT && !Mapped(mem, pg, u) {
      assert u / NENT == a / NENT;
    }
  }

  /** deallocuvm at a mapped page: kfree it, then clear its entry. */
  lemma Unmapped(mem: Memory, free: seq<nat>, pg: nat, all: set<nat>, hand: set<nat>, v: nat, p: nat, t: nat,
                 mem': Memory)
    requires Space(mem, free, pg, all, hand) && v < USERPAGES && Mapped(mem, pg, v) && p == Frame(Pte(mem, pg, v)) &&
             p < NPAGES
    requires t == TableOf(mem, pg, v / NENT) < NPAGES && t != p
    requires var m1 := mem[p := Filled(JUNK)]; mem' == m1[t := m1[t][v % NENT := 0]]
    ensures Space(mem', [p] + free, pg, all, hand) && Cleared(mem, mem', pg, all, v, v + 1)
  {
    ClearUser(mem, free, pg, all, hand, v);
    var m1 := WithPte(mem, pg, v, 0);
    WriteHand(m1, free, pg, all, hand + {p}, p, Filled(JUNK));
    assert m1[p := Filled(JUNK)] == mem';
    PutPage(mem', free, pg, all, hand + {p}, p);
    assert hand + {p} - {p} == hand;
    StorePte(mem, free, pg, all, hand, v, 0);
    assert Keeps(mem, pg, Table(v / NENT), t) && Keeps(mem, pg, User(v), p);
    forall u: nat | u < USERPAGES && u != v && Mapped(mem, pg, u)
      ensures Frame(Pte(mem, pg, u)) != p && Frame(Pte(mem, pg, u)) != t
    {
      assert Keeps(mem, pg, User(u), Frame(Pte(mem, pg, u)));
      Apart(mem, free, pg, all, hand, User(v), User(u), p);
      Apart(mem, free, pg, all, hand, Table(v / NENT), User(u), t);
    }
  }

  /** Virtual pages lo..hi-1 are mapped for the user, writable, to zeroed pages. */
  ghost predicate ZeroPages(mem: Memory, pg: nat, lo: nat, hi: nat)
    requires pg < NPAGES && hi <= USERPAGES
  {
    forall u: nat :: lo <= u < hi ==> ZeroPage(mem, pg, u)
  }

  ghost predicate ZeroPage(mem: Memory, pg: nat, u: nat)
    requires pg < NPAGES && u < USERPAGES
  {
    var w := Pte(mem, pg, u);
    Present(w) && w == Entry(Frame(w), PTE_P + PTE_W + PTE_U) && Frame(w) < NPAGES && mem[Frame(w)] == Filled(0)
  }

  /** User code may read and write virtual pages lo..hi-1. */
  ghost predicate UserPages(mem: Memory, pg: nat, lo: nat, hi: nat)
    requires pg < NPAGES && hi <= USERPAGES
  {
    forall u: nat :: lo <= u < hi ==> Rights(mem, pg, u) == Access(Frame(Pte(mem, pg, u)), true, true)
  }

  lemma ZeroRights(mem: Memory, pg: nat, lo: nat, hi: nat)
    requires pg < NPAGES && hi <= USERPAGES && OpenTables(mem, pg) && ZeroPages(mem, pg, lo, hi)
    ensures UserPages(mem, pg, lo, hi)
  {
    forall u: nat | lo <= u < hi ensures Rights(mem, pg, u) == Access(Frame(Pte(mem, pg, u)), true, true) {
      assert ZeroPage(mem, pg, u);
      RightsOpen(mem, pg, u);
      EntryBits(Frame(Pte(mem, pg, u)), PTE_P + PTE_W + PTE_U);
    }
  }

  /** Nothing is mapped in virtual pages lo..hi-1; otherwise all is as it was. */
  ghost predicate GaveBack(mem: Memory, mem': Memory, pg: nat, all: set<nat>, lo: nat, hi: nat) {
    var back := pg < NPAGES && hi <= NVIRT && (forall p: nat :: p < NPAGES && p !in all ==> mem'[p] == mem[p]) &&
                NoneMapped(mem', pg, lo, hi) &&
                (forall u: nat :: u < NVIRT && !(lo <= u < hi) ==> Pte(mem', pg, u) == Pte(mem, pg, u)) &&
                (forall u: nat :: u < USERPAGES && Mapped(mem, pg, u) && !(lo <= u < hi) ==>
                  Frame(Pte(mem, pg, u)) < NPAGES ==>
                  mem'[Frame(Pte(mem, pg, u))] == mem[Frame(Pte(mem, pg, u))]);
    back
  }

  lemma AllBack(mem: Memory, m1: Memory, m2: Memory, pg: nat, all: set<nat>, lo: nat, a: nat, hi: nat)
    requires lo <= a <= hi <= NVIRT && Extended(mem, m1, pg, all, {}, lo, a) && Cleared(m1, m2, pg, all, lo, hi)
    ensures GaveBack(mem, m2, pg, all, lo, hi)
  {
  }

  /** ... also once the page in hand is given back. */
  lemma HandBack(mem: Memory, m1: Memory, free: seq<nat>, pg: nat, all: set<nat>, lo: nat, hi: nat, p: nat, data: Page)
    requires GaveBack(mem, m1, pg, all, lo, hi) && Space(m1, free, pg, all, {p}) && p < NPAGES
    ensures GaveBack(mem, m1[p := data], pg, all, lo, hi) && Space(m1[p := data], [p] + free, pg, all, {})
  {
    var m2: Memory := m1[p := data];
    WriteHand(m1, free, pg, all, {p}, p, data);
    PutPage(m2, free, pg, all, {p}, p);
    assert {p} - {p} == {};
    forall u: nat | lo <= u < hi ensures !Mapped(m2, pg, u) { assert !Mapped(m1, pg, u); }
    forall u: nat | u < USERPAGES && !(lo <= u < hi) && Mapped(mem, pg, u) ensures Frame(Pte(mem, pg, u)) != p {
      assert Pte(m1, pg, u) == Pte(mem, pg, u);
      assert Keeps(m1, pg, User(u), Frame(Pte(m1, pg, u)));
    }
    assert GaveBack(mem, m2, pg, all, lo, hi);
  }

  /** allocuvm's loop at page a: zeroed pages are mapped from lo up to there, where there were none. */
  ghost predicate Grows(mem: Memory, mem': Memory, pg: nat, all: set<nat>, lo: nat, a: nat) {
    var grows := lo <= a && pg < NPAGES && Extended(mem, mem', pg, all, {}, lo, a) &&
                 (a <= USERPAGES ==> NoneMapped(mem, pg, lo, a) && ZeroPages(mem', pg, lo, a));
    grows
  }

  lemma GrewOn(mem: Memory, m1: Memory, m2: Memory, pg: nat, all: set<nat>, lo: nat, a: nat, next: nat)
    requires next == a + 1 <= USERPAGES && Grows(mem, m1, pg, all, lo, a)
    requires Extended(m1, m2, pg, all, {}, a, next) && !Mapped(m1, pg, a) && ZeroPage(m2, pg, a)
    ensures Grows(mem, m2, pg, all, lo, next)
  {
    ExtendedTwice(mem, m1, m2, pg, all, {}, lo, a, next);
    forall u: nat | lo <= u < next ensures ZeroPage(m2, pg, u) {
      if u < a { assert ZeroPage(m1, pg, u) && Mapped(m1, pg, u); }
    }
  }

  lemma PgUpLess(a: nat, sz: nat)
    ensures a * PGSIZE < sz <==> a < PgUp(sz)
    ensures sz <= KERNBASE ==> PgUp(sz) <= USERPAGES
  {
  }

  /** One page mapped. */
  lemma FirstPage(mem: Memory, pg: nat, a: nat, p: nat)
    requires pg < NPAGES && a < USERPAGES && MapsTo(mem, pg, a, a + 1, p, PTE_W + PTE_U) && p < NPAGES &&
             mem[p] == Filled(0)
    ensures ZeroPage(mem, pg, a)
  {
    assert Pte(mem, pg, a) == Entry(p + (a - a), WithP(PTE_W + PTE_U));
    EntryParts(p, PTE_P + PTE_W + PTE_U);
  }

  lemma MappedBefore(mem: Memory, m1: Memory, pg: nat, all: set<nat>, lo: nat, a: nat, hi: nat)
    requires lo <= a < hi <= NVIRT && Extended(mem, m1, pg, all, {}, lo, a) && Mapped(m1, pg, a)
    ensures !NoneMapped(mem, pg, lo, hi)
  {
    assert Mapped(mem, pg, a);
  }

  function WithP(perm: nat): nat { if Present(perm) then perm else perm + PTE_P }

  /** Part way through freevm: besides the pages free in f, those of the first i tables are free, each once. */
  ghost predicate TablesFreed(mem: Memory, f: seq<nat>, pg: nat, i: nat, free: seq<nat>) {
    var freed := pg < NPAGES && i <= NENT && NoDup(free) &&
                 forall p: nat :: p in free <==> p in f || TableBelow(mem, pg, i, p);
    freed
  }

  ghost predicate TableBelow(mem: Memory, pg: nat, i: nat, p: nat)
    requires pg < NPAGES && i <= NENT
  {
    exists k: nat :: k < i && Keeps(mem, pg, Table(k), p)
  }

  lemma FreeTable(mem: Memory, f: seq<nat>, pg: nat, all: set<nat>, i: nat, free: seq<nat>)
    requires Space(mem, f, pg, all, {}) && i < NENT && TablesFreed(mem, f, pg, i, free)
    ensures HasTable(mem, pg, i) ==> TablesFreed(mem, f, pg, i + 1, [TableOf(mem, pg, i)] + free)
    ensures !HasTable(mem, pg, i) ==> TablesFreed(mem, f, pg, i + 1, free)
  {
    forall p: nat ensures TableBelow(mem, pg, i + 1, p) <==> TableBelow(mem, pg, i, p) || Keeps(mem, pg, Table(i), p) {
    }
    if HasTable(mem, pg, i) {
      var t := TableOf(mem, pg, i);
      assert Keeps(mem, pg, Table(i), t);
      if k: nat :| k < i && Keeps(mem, pg, Table(k), t) { Apart(mem, f, pg, all, {}, Table(i), Table(k), t); }
    }
  }

  /** With no user page left, the tables and the directory are all that the space owned. */
  lemma AllFreed(mem: Memory, f: seq<nat>, pg: nat, all: set<nat>, free: seq<nat>)
    requires Space(mem, f, pg, all, {}) && NoneMapped(mem, pg, 0, USERPAGES) && TablesFreed(mem, f, pg, NENT, free)
    ensures NoDup([pg] + free) && forall p: nat :: p in [pg] + free <==> p in all
  {
    assert Keeps(mem, pg, Dir, pg);
    if k: nat :| k < NENT && Keeps(mem, pg, Table(k), pg) { Apart(mem, f, pg, all, {}, Dir, Table(k), pg); }
    forall p: nat | p in all ensures p in [pg] + free {
      if p !in f {
        var l :| IsPlace(l) && Keeps(mem, pg, l, p);
        if l.Table? { assert TableBelow(mem, pg, NENT, p); }
      }
    }
    forall p: nat | TableBelow(mem, pg, NENT, p) ensures p in all {
      var k: nat :| k < NENT && Keeps(mem, pg, Table(k), p);
    }
  }

  /** The kernel's first page is mapped to physical page 0. */
  ghost predicate KernelStart(mem: Memory, pg: nat) {
    pg < NPAGES && Mapped(mem, pg, USERPAGES) && Frame(Pte(mem, pg, USERPAGES)) == 0
  }

  class Kernel {
    const first: nat      // first page after the kernel
    var mem: Memory
    var free: seq<nat>

    ghost predicate Valid(pg: nat, all: set<nat>, hand: set<nat>)
      reads this
    {
      InPool(first, all) && Space(mem, free, pg, all, hand)
    }

    /** kfree; false is the panic, for a page that is not in the pool. */
    method Kfree(p: nat) returns (ok: bool)
      modifies this`mem, this`free
      ensures ok <==> first <= p < NPAGES
      ensures ok ==> free == [p] + old(free) && mem == old(mem)[p := Filled(JUNK)]
      ensures !ok ==> free == old(free) && mem == old(mem)
    {
      if p < first || p >= NPAGES { return false; }
      mem := mem[p := Filled(JUNK)];
      free := [p] + free;
      ok := true;
    }

    /** freerange: the whole pages between two addresses become free; false is kfree's panic. */
    method Freerange(start: nat, end: nat) returns (ok: bool)
      requires NoDup(free) && forall p: nat :: p in free ==> !(PgUp(start) <= p && (p + 1) * PGSIZE <= end)
      modifies this`mem, this`free
      ensures ok <==> (PgUp(start) + 1) * PGSIZE > end || (first <= PgUp(start) && end / PGSIZE <= NPAGES)
      ensures ok ==> NoDup(free)
      ensures ok ==> forall p: nat :: p in free <==> p in old(free) || (PgUp(start) <= p && (p + 1) * PGSIZE <= end)
    {
      var p := PgUp(start);
      while (p + 1) * PGSIZE <= end
        invariant PgUp(start) <= p && (p == PgUp(start) || p * PGSIZE <= end)
        invariant p == PgUp(start) || (first <= PgUp(start) && p <= NPAGES)
        invariant NoDup(free) && forall q: nat :: q in free <==> q in old(free) || PgUp(start) <= q < p
        decreases end - p * PGSIZE
      {
        assert p !in old(free);
        var freed := Kfree(p);
        if !freed { return false; }
        p := p + 1;
      }
      ok := true;
    }

    method Kalloc() returns (r: Option<nat>)
      modifies this`free
      ensures old(free) == [] ==> r.None? && free == []
      ensures old(free) != [] ==> r == Some(old(free)[0]) && free == old(free)[1..]
    {
      if free == [] { return None; }
      r := Some(free[0]);
      free := free[1..];
    }

    /** kalloc, and memset or memmove; the page is then in hand. */
    method Fresh(pg: nat, data: Page, ghost at: nat, ghost all: set<nat>) returns (r: Option<nat>)
      requires Valid(pg, all, {})
      modifies this`mem, this`free
      ensures r.None? ==> old(free) == [] && mem == old(mem) && free == old(free)
      ensures r.Some? ==> |free| + 1 == |old(free)|
      ensures r.Some? ==> r.value < NPAGES && r.value in all && Valid(pg, all, {r.value}) && mem[r.value] == data
      ensures Extended(old(mem), mem, pg, all, {}, at, at)
    {
      ghost var f := free;
      r := Kalloc();
      if r.Some? {
        TakePage(mem, f, pg, all, {});
        assert {} + {f[0]} == {r.value};
        WriteHand(mem, free, pg, all, {r.value}, r.value, data);
        forall u: nat | u < USERPAGES && Mapped(mem, pg, u) ensures Frame(Pte(mem, pg, u)) != r.value {
          assert Keeps(mem, pg, User(u), Frame(Pte(mem, pg, u)));
        }
        mem := mem[r.value := data];
      }
    }

    /** walkpgdir: the table for virtual page v, made if asked for and absent. */
    method Walkpgdir(pg: nat, v: nat, alloc: bool, ghost all: set<nat>, ghost hand: set<nat>) returns (t: Option<nat>)
      requires Valid(pg, all, hand) && v < NVIRT
      modifies this`mem, this`free
      ensures Valid(pg, all, hand) && Extended(old(mem), mem, pg, all, hand, v, v)
      ensures t.None? ==> !HasTable(mem, pg, v / NENT) && mem == old(mem) && free == old(free) && (alloc ==> free == [])
      ensures t.Some? ==> HasTable(mem, pg, v / NENT) && t.value == TableOf(mem, pg, v / NENT) < NPAGES
      ensures !alloc ==> mem == old(mem) && free == old(free)
      ensures Paid(old(mem), old(free), mem, free, pg, v / NENT, v / NENT + 1)
    {
      var i := v / NENT;
      PaidNone(mem, free, mem, pg, i, i + 1);
      if Present(mem[pg][i]) {
        assert Keeps(mem, pg, Table(i), TableOf(mem, pg, i));
        return Some(Frame(mem[pg][i]));
      }
      if !alloc { return None; }
      ghost var f := free;
      t := Kalloc();
      if t.None? { return None; }
      var q := t.value;
      TakePage(mem, f, pg, all, hand);
      AddTable(mem, free, pg, all, hand + {q}, i, q);
      assert hand + {q} - {q} == hand;
      TableExtended(mem, f, pg, all, hand, i, q);
      TablePaid(mem, f, pg, i, q);
      mem := mem[q := Filled(0)];
      mem := mem[pg := mem[pg][i := Entry(q, PTE_P + PTE_W + PTE_U)]];
    }

    /** One turn of mappages' loop: page p at virtual page v. A user page comes from the pages in hand. */
    method MapOne(pg: nat, v: nat, p: nat, perm: nat, ghost all: set<nat>, ghost hand: set<nat>) returns (r: MapResult)
      requires Valid(pg, all, hand) && v < NVIRT && WithP(perm) < PGSIZE && (v < USERPAGES ==> p in hand && p < NPAGES)
      modifies this`mem, this`free
      ensures Valid(pg, all, if r.Ok? then HandAfter(hand, v, p) else hand)
      ensures Extended(old(mem), mem, pg, all, hand, v, if r.Ok? then v + 1 else v)
      ensures r.Ok? ==> !Mapped(old(mem), pg, v) && Pte(mem, pg, v) == Entry(p, WithP(perm))
      ensures r.Remap? <==> Mapped(old(mem), pg, v)
      ensures r.NoPage? ==> free == [] && !HasTable(mem, pg, v / NENT)
      ensures Paid(old(mem), old(free), mem, free, pg, v / NENT, v / NENT + 1)
    {
      var t := Walkpgdir(pg, v, true, all, hand);
      if t.None? { return NoPage; }
      var pgtab := t.value;
      if Present(mem[pgtab][v % NENT]) { return Remap; }
      var w := Entry(p, WithP(perm));
      ghost var mem1 := mem;
      mem := mem[pgtab := mem[pgtab][v % NENT := w]];
      MapStore(mem1, free, pg, all, hand, v, p, perm, w, mem);
      PaidNone(mem1, free, mem, pg, v / NENT, v / NENT + 1);
      PaidTwice(old(mem), old(free), mem1, free, mem, free, pg, v / NENT, v / NENT + 1);
      ExtendedTwice(old(mem), mem1, mem, pg, all, hand, v, v, v + 1);
      r := Ok;
    }

    /** mappages' loop, over virtual pages v..last. User pages come from the pages in hand. */
    method MapRange(pg: nat, v: nat, last: nat, p: nat, perm: nat, ghost all: set<nat>, ghost hand: set<nat>)
        returns (r: MapResult, ghost end: nat)
      requires Valid(pg, all, hand) && v <= last < NVIRT && WithP(perm) < PGSIZE && InHand(hand, v, last, p)
      modifies this`mem, this`free
      ensures v <= end <= last + 1 && (r.Ok? <==> end == last + 1)
      ensures Valid(pg, all, HandAt(hand, v, end, p)) && Extended(old(mem), mem, pg, all, hand, v, end)
      ensures NoneMapped(old(mem), pg, v, end) && MapsTo(mem, pg, v, end, p, perm)
      ensures r.Remap? ==> Mapped(old(mem), pg, end)
      ensures r.NoPage? ==> free == [] && !HasTable(mem, pg, end / NENT)
      ensures Paid(old(mem), old(free), mem, free, pg, v / NENT, last / NENT + 1)
    {
      var a, pa := v, p;
      end := v;
      ghost var lo, hi := v / NENT, last / NENT + 1;
      PaidNone(mem, free, mem, pg, lo, hi);
      assert HandAt(hand, v, v, p) == hand;
      while true
        invariant v <= a == end <= last && pa == p + (a - v)
        invariant Valid(pg, all, HandAt(hand, v, a, p)) && Extended(old(mem), mem, pg, all, hand, v, a)
        invariant NoneMapped(old(mem), pg, v, a) && MapsTo(mem, pg, v, a, p, perm)
        invariant Paid(old(mem), old(free), mem, free, pg, lo, hi)
        decreases last - a
      {
        ghost var mem1, f1, hand1 := mem, free, HandAt(hand, v, a, p);
        assert a < USERPAGES ==> PageInHand(hand, v, p, a);
        r := MapOne(pg, a, pa, perm, all, hand1);
        PaidWider(mem1, f1, mem, free, pg, a / NENT, lo, hi);
        PaidTwice(old(mem), old(free), mem1, f1, mem, free, pg, lo, hi);
        ExtendedHand(mem1, mem, pg, all, hand, v, last, a, p, perm, if r.Ok? then a + 1 else a);
        if !r.Ok? {
          ExtendedTwice(old(mem), mem1, mem, pg, all, hand, v, a, a);
          return;
        }
        var next := a + 1;
        HandNext(hand, v, a, next, p, pa);
        MapsOn(old(mem), mem1, mem, pg, all, hand, v, a, next, p, pa, perm);
        end := next;
        if a == last { return; }
        a, pa := next, pa + 1;
      }
    }

    /** mappages: every virtual page that the bytes va..va+size-1 touch, v..last, is mapped, to consecutive physical
        pages. */
    method Mappages(pg: nat, va: nat, size: nat, p: nat, perm: nat, ghost v: nat, ghost last: nat,
                    ghost all: set<nat>, ghost hand: set<nat>)
        returns (r: MapResult, ghost end: nat)
      requires Valid(pg, all, hand) && 0 < size && va + size <= NVIRT * PGSIZE && WithP(perm) < PGSIZE
      requires v == va / PGSIZE && last == (va + size - 1) / PGSIZE && InHand(hand, v, last, p)
      modifies this`mem, this`free
      ensures v <= end <= last + 1 && (r.Ok? <==> end == last + 1)
      ensures Valid(pg, all, HandAt(hand, v, end, p)) && Extended(old(mem), mem, pg, all, hand, v, end)
      ensures last < NVIRT && NoneMapped(old(mem), pg, v, end) && MapsTo(mem, pg, v, end, p, perm)
      ensures r.Remap? ==> Mapped(old(mem), pg, end)
      ensures r.NoPage? ==> free == [] && !HasTable(mem, pg, end / NENT)
      ensures Paid(old(mem), old(free), mem, free, pg, v / NENT, last / NENT + 1)
    {
      var a, z := va / PGSIZE, (va + size - 1) / PGSIZE;
      r, end := MapRange(pg, a, z, p, perm, all, hand);
    }

    /** mappages for one user page. */
    method MapPage(pg: nat, a: nat, p: nat, perm: nat, ghost all: set<nat>) returns (r: MapResult)
      requires Valid(pg, all, {p}) && a < USERPAGES && p < NPAGES && WithP(perm) < PGSIZE
      modifies this`mem, this`free
      ensures Valid(pg, all, if r.Ok? then {} else {p})
      ensures Extended(old(mem), mem, pg, all, {p}, a, if r.Ok? then a + 1 else a)
      ensures r.Ok? ==> !Mapped(old(mem), pg, a) && MapsTo(mem, pg, a, a + 1, p, perm)
      ensures r.Remap? ==> Mapped(old(mem), pg, a)
      ensures r.NoPage? ==> free == [] && !HasTable(mem, pg, a / NENT)
      ensures Paid(old(mem), old(free), mem, free, pg, a / NENT, a / NENT + 1)
    {
      PageBytes(a, 1);
      assert PageInHand({p}, a, p, a);
      ghost var end;
      r, end := Mappages(pg, a * PGSIZE, PGSIZE, p, perm, a, a, all, {p});
      assert HandAt({p}, a, end, p) == if r.Ok? then {} else {p};
    }

    /** deallocuvm at virtual page a, whose table is t: a mapped page is freed and its entry cleared. */
    method DropPage(pg: nat, a: nat, t: nat, ghost all: set<nat>, ghost hand: set<nat>)
      requires Valid(pg, all, hand) && a < USERPAGES && HasTable(mem, pg, a / NENT) &&
               t == TableOf(mem, pg, a / NENT) < NPAGES
      modifies this`mem, this`free
      ensures Valid(pg, all, hand) && Cleared(old(mem), mem, pg, all, a, a + 1) && |old(free)| <= |free|
    {
      if Present(mem[t][a % NENT]) {
        ghost var mem1, f := mem, free;
        var p := Frame(mem[t][a % NENT]);
        assert Keeps(mem, pg, User(a), p) && Keeps(mem, pg, Table(a / NENT), t);
        Apart(mem, free, pg, all, hand, User(a), Table(a / NENT), p);
        var ok := Kfree(p);
        assert ok && p != 0;
        mem := mem[t := mem[t][a % NENT := 0]];
        Unmapped(mem1, f, pg, all, hand, a, p, t, mem);
      }
    }

    /** One turn of deallocuvm's loop at virtual page a: where the next turn is, or the panic for physical page 0. */
    method DropAt(pg: nat, a: nat, ghost hi: nat, ghost all: set<nat>, ghost hand: set<nat>) returns (r: Option<nat>)
      requires Valid(pg, all, hand) && a <= USERPAGES && a < NVIRT && (a == USERPAGES ==> KernelStart(mem, pg))
      requires a < USERPAGES ==> a < hi <= USERPAGES
      modifies this`mem, this`free
      ensures r.None? <==> a == USERPAGES
      ensures Valid(pg, all, hand) && |old(free)| <= |free|
      ensures r.Some? ==> a < r.value <= USERPAGES && Cleared(old(mem), mem, pg, all, a, Min(r.value, hi))
    {
      var t := Walkpgdir(pg, a, false, all, hand);
      if t.None? {
        NoTable(mem, pg, a);
        r := Some((a / NENT + 1) * NENT - 1 + 1);
        ClearedSkip(mem, mem, pg, all, a, a, Min(r.value, hi));
      } else {
        var w := mem[t.value][a % NENT];
        if Present(w) && Frame(w) == 0 {
          if a < USERPAGES { assert Keeps(mem, pg, User(a), 0); }
          return None;
        }
        DropPage(pg, a, t.value, all, hand);
        r := Some(a + 1);
      }
    }

    /** deallocuvm: the jump over absent tables has the effect of visiting every page from newsz up to oldsz; each
        mapped page is freed once, and the panic for page 0 is not reached, except at the kernel's first page by an
        oldsz beyond it. */
    method Deallocuvm(pg: nat, oldsz: nat, newsz: nat, ghost all: set<nat>, ghost hand: set<nat>)
        returns (sz: Option<nat>)
      requires Valid(pg, all, hand)
      requires KERNBASE < oldsz && newsz < oldsz ==> newsz <= KERNBASE && KernelStart(mem, pg)
      modifies this`mem, this`free
      ensures sz.None? <==> KERNBASE < oldsz && newsz < oldsz
      ensures sz.Some? ==> Valid(pg, all, hand) && sz.value == (if newsz >= oldsz then oldsz else newsz)
      ensures sz.Some? ==> Cleared(old(mem), mem, pg, all, PgUp(sz.value), PgUp(oldsz)) && |old(free)| <= |free|
    {
      if newsz >= oldsz { return Some(oldsz); }
      ghost var lo, hi := PgUp(newsz), Min(PgUp(oldsz), USERPAGES);
      PgUpLess(USERPAGES, oldsz);
      PgUpLess(lo, newsz);
      var a := PgUp(newsz);
      while a * PGSIZE < oldsz
        invariant lo <= a <= USERPAGES && Valid(pg, all, hand) && |old(free)| <= |free|
        invariant Cleared(old(mem), mem, pg, all, lo, Min(a, hi))
        decreases USERPAGES - a
      {
        PgUpLess(a, oldsz);
        ghost var mem1 := mem;
        if a == USERPAGES { assert Pte(mem, pg, a) == Pte(old(mem), pg, a); }
        var next := DropAt(pg, a, hi, all, hand);
        if next.None? { return None; }
        ClearedOn(old(mem), mem1, mem, pg, all, lo, a, Min(next.value, hi));
        a := next.value;
      }
      PgUpLess(a, oldsz);
      return Some(newsz);
    }

    /** allocuvm at virtual page a: a zeroed page is mapped there. If there is no page for a table, the page taken
        for the user is still in hand. */
    method GrowPage(pg: nat, a: nat, ghost all: set<nat>) returns (r: MapResult, p: Option<nat>)
      requires Valid(pg, all, {}) && a < USERPAGES
      modifies this`mem, this`free
      ensures r.Ok? ==> Valid(pg, all, {}) && Extended(old(mem), mem, pg, all, {}, a, a + 1) && ZeroPage(mem, pg, a)
      ensures r.Remap? ==> Mapped(old(mem), pg, a)
      ensures r.Ok? ==> !Mapped(old(mem), pg, a)
      ensures r.NoPage? ==> Extended(old(mem), mem, pg, all, {}, a, a) &&
                            (p.Some? ==> p.value < NPAGES && p.value in all)
      ensures r.NoPage? ==> Valid(pg, all, if p.Some? then {p.value} else {}) && |old(free)| < 2
      ensures r.Ok? ==> |old(free)| <= |free| + 2
    {
      p := Fresh(pg, Filled(0), a, all);
      if p.None? { return NoPage, None; }
      ghost var m1, f1 := mem, free;
      assert Pte(m1, pg, a) == Pte(old(mem), pg, a);
      r := MapPage(pg, a, p.value, PTE_W + PTE_U, all);
      PaidOne(m1, f1, mem, free, pg, a / NENT);
      ghost var end := if r.Ok? then a + 1 else a;
      assert Extended(m1, mem, pg, all, {}, a, end);
      ExtendedTwice(old(mem), m1, mem, pg, all, {}, a, a, end);
      if r.Ok? { FirstPage(mem, pg, a, p.value); }
    }

    /** allocuvm: zeroed pages from oldsz up to newsz, or, for lack of memory, all of them given back. */
    method Allocuvm(pg: nat, oldsz: nat, newsz: nat, ghost all: set<nat>) returns (r: Grown)
      requires Valid(pg, all, {})
      modifies this`mem, this`free
      ensures r.TooBig? <==> newsz >= KERNBASE
      ensures newsz < oldsz && newsz < KERNBASE ==> r.Size?
      ensures r.Stopped? ==> !NoneMapped(old(mem), pg, PgUp(oldsz), PgUp(newsz))
      ensures !r.Stopped? ==> Valid(pg, all, {})
      ensures r.TooBig? || (r.Size? && newsz < oldsz) ==> mem == old(mem) && free == old(free)
      ensures r.Size? ==> r.n == (if newsz < oldsz then oldsz else newsz)
      ensures r.Size? && newsz >= oldsz ==>
                && NoneMapped(old(mem), pg, PgUp(oldsz), PgUp(newsz)) && ZeroPages(mem, pg, PgUp(oldsz), PgUp(newsz))
                && Extended(old(mem), mem, pg, all, {}, PgUp(oldsz), PgUp(newsz))
                && UserPages(mem, pg, PgUp(oldsz), PgUp(newsz))
      ensures r.NoMemory? ==> GaveBack(old(mem), mem, pg, all, PgUp(oldsz), PgUp(newsz))
      ensures r.NoMemory? ==> |old(free)| < 2 * (PgUp(newsz) - PgUp(oldsz))
      ensures r.Size? && newsz >= oldsz ==> |old(free)| <= |free| + 2 * (PgUp(newsz) - PgUp(oldsz))
    {
      if newsz >= KERNBASE { return TooBig; }
      if newsz < oldsz { return Size(oldsz); }
      ghost var lo, hi, cost := PgUp(oldsz), PgUp(newsz), 0;
      PgUpLess(lo, newsz);
      var a := PgUp(oldsz);
      while a * PGSIZE < newsz
        invariant lo <= a <= hi && Valid(pg, all, {}) && Grows(old(mem), mem, pg, all, lo, a)
        invariant |old(free)| <= |free| + cost && cost == 2 * (a - lo)
      {
        PgUpLess(a, newsz);
        ghost var m1 := mem;
        var res, p := GrowPage(pg, a, all);
        if res.Remap? {
          MappedBefore(old(mem), m1, pg, all, lo, a, hi);
          return Stopped;
        }
        if res.NoPage? {
          ExtendedTwice(old(mem), m1, mem, pg, all, {}, lo, a, a);
          GiveUp(pg, oldsz, newsz, p, old(mem), a, all);
          return NoMemory;
        }
        var next := a + 1;
        GrewOn(old(mem), m1, mem, pg, all, lo, a, next);
        a, cost := next, cost + 2;
      }
      PgUpLess(a, newsz);
      ZeroRights(mem, pg, lo, hi);
      return Size(newsz);
    }

    /** allocuvm out of memory: what was mapped is unmapped, and a page in hand freed. */
    method GiveUp(pg: nat, oldsz: nat, newsz: nat, p: Option<nat>, ghost mem0: Memory, ghost a: nat,
                  ghost all: set<nat>)
      requires Valid(pg, all, if p.Some? then {p.value} else {}) && (p.Some? ==> p.value in all && p.value < NPAGES)
      requires oldsz <= newsz < KERNBASE && PgUp(oldsz) <= a <= PgUp(newsz)
      requires Extended(mem0, mem, pg, all, {}, PgUp(oldsz), a)
      modifies this`mem, this`free
      ensures Valid(pg, all, {}) && GaveBack(mem0, mem, pg, all, PgUp(oldsz), PgUp(newsz))
    {
      ghost var m1 := mem;
      var sz := Deallocuvm(pg, newsz, oldsz, all, if p.Some? then {p.value} else {});
      AllBack(mem0, m1, mem, pg, all, PgUp(oldsz), a, PgUp(newsz));
      if p.Some? {
        HandBack(mem0, mem, free, pg, all, PgUp(oldsz), PgUp(newsz), p.value, Filled(JUNK));
        var ok := Kfree(p.value);
      }
    }
  
    /** freevm: every page of the space, and none twice, goes back to the free list. */
    method Freevm(pg: nat, ghost all: set<nat>)
      requires Valid(pg, all, {})
      modifies this`mem, this`free
      ensures NoDup(free) && forall p: nat :: p in free <==> p in all
      ensures forall p: nat :: p < NPAGES && p !in all ==> mem[p] == old(mem)[p]
    {
      var sz := Deallocuvm(pg, KERNBASE, 0, all, {});
      ghost var m1, f1 := mem, free;
      NothingMapped(old(mem), m1, pg, all);
      assert Keeps(m1, pg, Dir, pg);
      var i := 0;
      while i < NENT
        invariant 0 <= i <= NENT && TablesFreed(m1, f1, pg, i, free) && mem[pg] == m1[pg]
        invariant forall p: nat :: p < NPAGES && p !in all ==> mem[p] == m1[p]
      {
        FreeTable(m1, f1, pg, all, i, free);
        if Present(mem[pg][i]) {
          assert Keeps(m1, pg, Table(i), TableOf(m1, pg, i));
          Apart(m1, f1, pg, all, {}, Dir, Table(i), pg);
          var ok := Kfree(Frame(mem[pg][i]));
          assert ok;
        }
        i := i + 1;
      }
      AllFreed(m1, f1, pg, all, free);
      var ok := Kfree(pg);
      assert ok;
    }
  }

  lemma NothingMapped(mem: Memory, m1: Memory, pg: nat, all: set<nat>)
    requires Cleared(mem, m1, pg, all, 0, USERPAGES)
    ensures NoneMapped(m1, pg, 0, USERPAGES)
  {
  }
}
