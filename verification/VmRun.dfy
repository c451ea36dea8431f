/** setupkvm and copyuvm of vm.c, and the life of an address space. */
module VmRun {
  import opened Common
  import opened VmSpec
  import opened VmImpl

  const KERNPAGE: nat := USERPAGES      // KERNBASE
  const EXTPAGE: nat := 0x100           // EXTMEM
  const DEVPAGE: nat := 0xF_E000        // DEVSPACE

  /** A row of kmap: virtual page, number of pages, physical page, permissions. */
  datatype Row = Row(virt: nat, n: nat, phys: nat, perm: nat)

  const NROWS: nat := 4

  /** kmap, where the kernel's data starts at physical page `data`. */
  function Kmap(k: nat, data: nat): Row
    requires k < NROWS && EXTPAGE < data < NPAGES
  {
    if k == 0 then Row(KERNPAGE, EXTPAGE, 0, PTE_W)
    else if k == 1 then Row(KERNPAGE + EXTPAGE, data - EXTPAGE, EXTPAGE, 0)
    else if k == 2 then Row(KERNPAGE + data, NPAGES - data, data, PTE_W)
    else Row(DEVPAGE, NVIRT - DEVPAGE, DEVPAGE, PTE_W)
  }

  /** The pages of the kernel's half that the first k rows map: the first three rows follow each other. */
  predicate InRows(u: nat, k: nat, data: nat) {
    || KERNPAGE <= u < KERNPAGE + (if k == 0 then 0 else if k == 1 then EXTPAGE else if k == 2 then data else NPAGES)
    || (k == NROWS && DEVPAGE <= u < NVIRT)
  }

  /** In the kernel's half the first k rows of kmap are mapped, and nothing else. */
  ghost predicate KernelHalf(mem: Memory, pg: nat, k: nat, data: nat)
    requires pg < NPAGES && k <= NROWS && EXTPAGE < data < NPAGES
  {
    && (forall i: nat :: i < k ==> RowMapped(mem, pg, i, data))
    && (forall u: nat :: USERPAGES <= u < NVIRT && !InRows(u, k, data) ==> !Mapped(mem, pg, u))
  }

  ghost predicate RowMapped(mem: Memory, pg: nat, i: nat, data: nat)
    requires pg < NPAGES && i < NROWS && EXTPAGE < data < NPAGES
  {
    var r := Kmap(i, data);
    MapsTo(mem, pg, r.virt, r.virt + r.n, r.phys, r.perm)
  }

  /** ... and no user page is mapped. */
  ghost predicate KernelMapped(mem: Memory, pg: nat, k: nat, data: nat)
    requires pg < NPAGES && k <= NROWS && EXTPAGE < data < NPAGES
  {
    KernelHalf(mem, pg, k, data) && NoneMapped(mem, pg, 0, USERPAGES)
  }

  /** What an access to a page of the kernel's half must meet: never open to user code; the first NPAGES pages are
      physical memory, writable but for the kernel's text and read-only data; the last ones are devices. */
  function KernelAccess(u: nat, data: nat): Access
    requires KERNPAGE <= u
  {
    var p := u - KERNPAGE;
    if p < NPAGES then Access(p, false, !(EXTPAGE <= p < data))
    else if DEVPAGE <= u then Access(u, false, true) else Fault
  }

  ghost predicate KernelRights(mem: Memory, pg: nat, data: nat)
    requires pg < NPAGES
  {
    forall u: nat :: KERNPAGE <= u < NVIRT ==> Rights(mem, pg, u) == KernelAccess(u, data)
  }

  /** The row that maps u. */
  lemma RowRights(mem: Memory, pg: nat, k: nat, data: nat, u: nat)
    requires pg < NPAGES && k < NROWS && EXTPAGE < data < NPAGES && RowMapped(mem, pg, k, data) && OpenTables(mem, pg)
    requires var r := Kmap(k, data); r.virt <= u < r.virt + r.n
    ensures Rights(mem, pg, u) == KernelAccess(u, data)
  {
    var r := Kmap(k, data);
    var p := r.phys + (u - r.virt);
    RightsOpen(mem, pg, u);
    EntryParts(p, WithP(r.perm));
    EntryBits(p, WithP(r.perm));
    assert Pte(mem, pg, u) == Entry(p, WithP(r.perm));
  }

  lemma HalfRights(mem: Memory, pg: nat, data: nat)
    requires pg < NPAGES && EXTPAGE < data < NPAGES && KernelHalf(mem, pg, NROWS, data) && OpenTables(mem, pg)
    ensures KernelRights(mem, pg, data)
  {
    forall u: nat | KERNPAGE <= u < NVIRT ensures Rights(mem, pg, u) == KernelAccess(u, data) {
      if InRows(u, NROWS, data) {
        var k := if u >= DEVPAGE then 3
                 else if u >= KERNPAGE + data then 2 else if u >= KERNPAGE + EXTPAGE then 1 else 0;
        RowRights(mem, pg, k, data, u);
      } else {
        RightsOpen(mem, pg, u);
      }
    }
  }

  lemma HalfKept(mem: Memory, mem': Memory, pg: nat, data: nat)
    requires pg < NPAGES && EXTPAGE < data < NPAGES && KernelHalf(mem, pg, NROWS, data)
    requires forall u: nat :: USERPAGES <= u < NVIRT ==> Pte(mem', pg, u) == Pte(mem, pg, u)
    ensures KernelHalf(mem', pg, NROWS, data)
  {
    forall i: nat | i < NROWS ensures RowMapped(mem', pg, i, data) { assert RowMapped(mem, pg, i, data); }
    forall u: nat | USERPAGES <= u < NVIRT && !InRows(u, NROWS, data) ensures !Mapped(mem', pg, u) {
      assert !Mapped(mem, pg, u);
    }
  }

  lemma HalfStart(mem: Memory, pg: nat, data: nat)
    requires pg < NPAGES && EXTPAGE < data < NPAGES && KernelHalf(mem, pg, NROWS, data)
    ensures KernelStart(mem, pg)
  {
    assert RowMapped(mem, pg, 0, data);
    assert Pte(mem, pg, KERNPAGE) == Entry(0 + (KERNPAGE - KERNPAGE), WithP(PTE_W));
    EntryParts(0, WithP(PTE_W));
  }

  /** The directory entries under which the kernel's mappings are. */
  predicate KernelEntry(i: nat) { 512 <= i < 568 || 1016 <= i < NENT }

  const KERNTABLES: nat := 64

  ghost function Range(lo: nat, hi: nat): (r: set<nat>)
    requires lo <= hi
    ensures |r| == hi - lo && forall i :: i in r <==> lo <= i < hi
    decreases hi - lo
  {
    if lo == hi then {} else Range(lo + 1, hi) + {lo}
  }

  lemma TwoRanges(a: nat, b: nat, c: nat, d: nat) returns (all: set<nat>)
    requires a <= b <= c <= d
    ensures |all| == b - a + (d - c) && forall i :: i in all <==> a <= i < b || c <= i < d
  {
    assert Range(a, b) !! Range(c, d);
    all := Range(a, b) + Range(c, d);
  }

  lemma KernelEntries() returns (all: set<nat>)
    ensures |all| == KERNTABLES && forall i :: i in all <==> KernelEntry(i)
  {
    all := TwoRanges(512, 568, 1016, NENT);
  }

  /** A row needs tables for kernel entries only. */
  lemma RowEntries(k: nat, data: nat, i: nat)
    requires k < NROWS && EXTPAGE < data < NPAGES
    requires var r := Kmap(k, data); r.virt / NENT <= i < (r.virt + r.n - 1) / NENT + 1
    ensures KernelEntry(i)
  {
  }

  /** With all rows mapped, all of them have a table. */
  lemma AllEntries(mem: Memory, pg: nat, data: nat, i: nat)
    requires pg < NPAGES && EXTPAGE < data < NPAGES && KernelMapped(mem, pg, NROWS, data) && KernelEntry(i)
    ensures HasTable(mem, pg, i)
  {
    var u := i * NENT;
    assert u / NENT == i;
    var k := if u >= DEVPAGE then 3 else if u >= KERNPAGE + data then 2 else if u >= KERNPAGE + EXTPAGE then 1 else 0;
    var r := Kmap(k, data);
    assert RowMapped(mem, pg, k, data);
    EntryParts(r.phys + (u - r.virt), WithP(r.perm));
    assert Pte(mem, pg, u) == Entry(r.phys + (u - r.virt), WithP(r.perm)) && Mapped(mem, pg, u);
  }

  /** The free list holds exactly the pages `all`, each once. */
  ghost predicate AllFree(free: seq<nat>, all: set<nat>) {
    NoDup(free) && forall p: nat :: p in free <==> p in all
  }

  lemma NewSpace(mem: Memory, free: seq<nat>, all: set<nat>, pg: nat, data: nat)
    requires AllFree(free, all) && free != [] && pg == free[0] && pg < NPAGES && EXTPAGE < data < NPAGES
    ensures Space(mem[pg := Filled(0)], free[1..], pg, all, {}) && KernelMapped(mem[pg := Filled(0)], pg, 0, data)
  {
    var mem' := mem[pg := Filled(0)];
    forall i: nat | i < NENT ensures !HasTable(mem', pg, i) { assert mem'[pg][i] == 0; }
    forall l, p: nat | IsPlace(l) ensures Keeps(mem', pg, l, p) <==> l == Dir && p == pg {}
    assert Keeps(mem', pg, Dir, pg);
    forall p: nat | p in all ensures p in free[1..] || Owns(mem', pg, p) {
      if p in free && p != pg {
        var j :| 0 <= j < |free| && free[j] == p;
        assert free[1..][j - 1] == p;
      }
    }
  }

  /** One more row. */
  lemma NextRow(mem: Memory, mem': Memory, pg: nat, all: set<nat>, k: nat, data: nat, next: nat)
    requires k < NROWS && next == k + 1 && EXTPAGE < data < NPAGES && pg < NPAGES && KernelMapped(mem, pg, k, data)
    requires RowMapped(mem', pg, k, data)
    requires var r := Kmap(k, data); Extended(mem, mem', pg, all, {}, r.virt, r.virt + r.n)
    ensures KernelMapped(mem', pg, next, data)
  {
    forall i: nat | i < k ensures RowMapped(mem', pg, i, data) {
      assert RowMapped(mem, pg, i, data);
      assert Kmap(i, data).virt + Kmap(i, data).n <= Kmap(k, data).virt;
    }
    forall u: nat | u < USERPAGES || (u < NVIRT && !InRows(u, next, data)) ensures !Mapped(mem', pg, u) {
      assert !Mapped(mem, pg, u) && Pte(mem', pg, u) == Pte(mem, pg, u);
    }
  }

  /** So far the space has cost one page and its tables. */
  ghost predicate Cost(mem: Memory, free: seq<nat>, pg: nat, f: seq<nat>) {
    pg < NPAGES && |f| == |free| + 1 + |Tables(mem, pg)| && forall i :: i in Tables(mem, pg) ==> KernelEntry(i)
  }

  lemma CostRow(mem: Memory, free: seq<nat>, mem': Memory, free': seq<nat>, pg: nat, f: seq<nat>, k: nat, data: nat)
    requires k < NROWS && EXTPAGE < data < NPAGES && Cost(mem, free, pg, f)
    requires var r := Kmap(k, data); Paid(mem, free, mem', free', pg, r.virt / NENT, (r.virt + r.n - 1) / NENT + 1)
    ensures Cost(mem', free', pg, f)
  {
    var r := Kmap(k, data);
    forall i | i in Tables(mem', pg) && i !in Tables(mem, pg) ensures KernelEntry(i) { RowEntries(k, data, i); }
  }

  /** A table is missing: fewer than 65 pages. */
  lemma CostShort(mem: Memory, pg: nat, f: seq<nat>, i: nat)
    requires Cost(mem, [], pg, f) && i < NENT && KernelEntry(i) && !HasTable(mem, pg, i)
    ensures |f| <= KERNTABLES
  {
    var all := KernelEntries();
    SubsetSize(Tables(mem, pg), all);
  }

  /** Complete: exactly 65 pages. */
  lemma CostAll(mem: Memory, free: seq<nat>, pg: nat, f: seq<nat>, data: nat)
    requires EXTPAGE < data < NPAGES && Cost(mem, free, pg, f) && KernelMapped(mem, pg, NROWS, data)
    ensures |f| == |free| + KERNTABLES + 1
  {
    var all := KernelEntries();
    forall i | i in all ensures i in Tables(mem, pg) { AllEntries(mem, pg, data, i); }
    assert Tables(mem, pg) == all;
  }

  /** setupkvm: a space with the kernel's mappings and no user page, if there are 65 free pages; otherwise all that was
      taken is given back. */
  method Setupkvm(m: Kernel, data: nat, ghost all: set<nat>) returns (pg: Option<nat>)
    requires AllFree(m.free, all) && InPool(m.first, all) && EXTPAGE < data < NPAGES
    modifies m
    ensures pg.Some? <==> |old(m.free)| > KERNTABLES
    ensures pg.None? ==> AllFree(m.free, all)
    ensures pg.Some? ==> |old(m.free)| == |m.free| + KERNTABLES + 1
    ensures pg.Some? ==> pg.value < NPAGES && m.Valid(pg.value, all, {}) && KernelMapped(m.mem, pg.value, NROWS, data)
    ensures pg.Some? ==> KernelRights(m.mem, pg.value, data)
    ensures forall p: nat :: p < NPAGES && p !in all ==> m.mem[p] == old(m.mem)[p]
  {
    ghost var f := m.free;
    pg := m.Kalloc();
    if pg.None? { return None; }
    var d := pg.value;
    assert d in f;
    NewSpace(m.mem, f, all, d, data);
    m.mem := m.mem[d := Filled(0)];
    assert Tables(m.mem, d) == {};
    var k := 0;
    while k < NROWS
      invariant 0 <= k <= NROWS && m.Valid(d, all, {}) && KernelMapped(m.mem, d, k, data) && Cost(m.mem, m.free, d, f)
      invariant forall p: nat :: p < NPAGES && p !in all ==> m.mem[p] == old(m.mem)[p]
    {
      var row := Kmap(k, data);
      ghost var mem1, f1 := m.mem, m.free;
      ghost var last := row.virt + row.n - 1;
      PageBytes(row.virt, row.n);
      var r, end := m.Mappages(d, row.virt * PGSIZE, row.n * PGSIZE, row.phys, row.perm, row.virt, last, all, {});
      assert HandAt({}, row.virt, end, row.phys) == {};
      CostRow(mem1, f1, m.mem, m.free, d, f, k, data);
      if !r.Ok? {
        assert !Mapped(mem1, d, row.virt + (end - row.virt)) && !r.Remap?;
        RowEntries(k, data, end / NENT);
        CostShort(m.mem, d, f, end / NENT);
        m.Freevm(d, all);
        return None;
      }
      var next := k + 1;
      NextRow(mem1, m.mem, d, all, k, data, next);
      k := next;
    }
    CostAll(m.mem, m.free, d, f, data);
    HalfRights(m.mem, d, data);
  }

  // ---- growing and shrinking ----

  /** growproc's two uses of the space. */
  datatype Op = Grow(sz: nat) | Shrink(sz: nat)

  lemma AboveGrown(mem: Memory, mem': Memory, pg: nat, all: set<nat>, lo: nat, hi: nat)
    requires lo <= hi && Extended(mem, mem', pg, all, {}, lo, hi) && NoneMapped(mem, pg, lo, USERPAGES)
    ensures NoneMapped(mem', pg, hi, USERPAGES)
  {
    forall u: nat | hi <= u < USERPAGES ensures !Mapped(mem', pg, u) { assert !Mapped(mem, pg, u); }
  }

  lemma AboveBack(mem: Memory, mem': Memory, pg: nat, all: set<nat>, lo: nat, hi: nat)
    requires lo <= hi && GaveBack(mem, mem', pg, all, lo, hi) && NoneMapped(mem, pg, lo, USERPAGES)
    ensures NoneMapped(mem', pg, lo, USERPAGES)
  {
    forall u: nat | lo <= u < USERPAGES ensures !Mapped(mem', pg, u) { assert !Mapped(mem, pg, u); }
  }

  lemma AboveCleared(mem: Memory, mem': Memory, pg: nat, all: set<nat>, lo: nat, hi: nat)
    requires lo <= hi && Cleared(mem, mem', pg, all, lo, hi) && NoneMapped(mem, pg, hi, USERPAGES)
    ensures NoneMapped(mem', pg, lo, USERPAGES)
  {
    forall u: nat | lo <= u < USERPAGES ensures !Mapped(mem', pg, u) { assert u >= hi ==> !Mapped(mem, pg, u); }
  }

  /** The user pages below hi and the kernel's half are as they were, contents included. */
  ghost predicate KeptBelow(mem: Memory, mem': Memory, pg: nat, hi: nat) {
    var kept := pg < NPAGES &&
                (forall u: nat :: u < hi || USERPAGES <= u ==> u < NVIRT ==> Pte(mem', pg, u) == Pte(mem, pg, u)) &&
                (forall u: nat :: u < hi && u < USERPAGES && Mapped(mem, pg, u) && Frame(Pte(mem, pg, u)) < NPAGES ==>
                  mem'[Frame(Pte(mem, pg, u))] == mem[Frame(Pte(mem, pg, u))]);
    kept
  }

  lemma GrownKept(mem: Memory, mem': Memory, pg: nat, all: set<nat>, lo: nat, hi: nat)
    requires lo <= hi <= USERPAGES && (Extended(mem, mem', pg, all, {}, lo, hi) || GaveBack(mem, mem', pg, all, lo, hi))
    ensures KeptBelow(mem, mem', pg, lo)
  {
  }

  lemma ShrunkKept(mem: Memory, mem': Memory, pg: nat, all: set<nat>, lo: nat, hi: nat)
    requires lo <= hi <= USERPAGES && Cleared(mem, mem', pg, all, lo, hi)
    ensures KeptBelow(mem, mem', pg, lo)
  {
  }

  /** growproc: a failed allocation leaves the size as it was, and so does a return of 0 from deallocuvm. */
  method Growproc(m: Kernel, pg: nat, sz: nat, op: Op, ghost all: set<nat>) returns (sz': nat)
    requires m.Valid(pg, all, {}) && sz <= KERNBASE && NoneMapped(m.mem, pg, PgUp(sz), USERPAGES)
    modifies m
    ensures m.Valid(pg, all, {}) && sz' <= KERNBASE && NoneMapped(m.mem, pg, PgUp(sz'), USERPAGES)
    ensures op.Shrink? ==> sz' == (if op.sz >= sz || op.sz == 0 then sz else op.sz)
    ensures op.Grow? ==> sz' == sz || sz' == op.sz
    ensures op.Grow? && sz <= op.sz < KERNBASE && |old(m.free)| >= 2 * (PgUp(op.sz) - PgUp(sz)) ==> sz' == op.sz
    ensures KeptBelow(old(m.mem), m.mem, pg, PgUp(if op.Shrink? then Min(op.sz, sz) else sz))
    ensures sz' > sz ==> ZeroPages(m.mem, pg, PgUp(sz), PgUp(sz')) && UserPages(m.mem, pg, PgUp(sz), PgUp(sz'))
  {
    PgUpLess(0, sz);
    PgUpLess(0, op.sz);
    if op.Grow? {
      var r := m.Allocuvm(pg, sz, op.sz, all);
      if r.Stopped? {
        assert false;
      } else if r.Size? {
        if op.sz >= sz {
          AboveGrown(old(m.mem), m.mem, pg, all, PgUp(sz), PgUp(op.sz));
          GrownKept(old(m.mem), m.mem, pg, all, PgUp(sz), PgUp(op.sz));
        }
        sz' := r.n;
      } else {
        if r.NoMemory? {
          AboveBack(old(m.mem), m.mem, pg, all, PgUp(sz), PgUp(op.sz));
          GrownKept(old(m.mem), m.mem, pg, all, PgUp(sz), PgUp(op.sz));
        }
        sz' := sz;
      }
    } else {
      var r := m.Deallocuvm(pg, sz, op.sz, all, {});
      sz' := r.value;
      AboveCleared(old(m.mem), m.mem, pg, all, PgUp(sz'), PgUp(sz));
      ShrunkKept(old(m.mem), m.mem, pg, all, PgUp(sz'), PgUp(sz));
      if sz' == 0 { sz' := sz; }
    }
  }

  /** A process from setupkvm to freevm, growing and shrinking in between: it never meets the remap panic, and the free
      list ends with the same pages, none twice. */
  method ProcessLife(m: Kernel, data: nat, ops: seq<Op>, ghost all: set<nat>)
    requires AllFree(m.free, all) && InPool(m.first, all) && EXTPAGE < data < NPAGES
    modifies m
    ensures AllFree(m.free, all)
  {
    var pg := Setupkvm(m, data, all);
    if pg.None? { return; }
    var sz: nat, i: nat := 0, 0;
    while i < |ops|
      invariant 0 <= i <= |ops| && m.Valid(pg.value, all, {}) && sz <= KERNBASE
      invariant NoneMapped(m.mem, pg.value, PgUp(sz), USERPAGES)
    {
      sz := Growproc(m, pg.value, sz, ops[i], all);
      i := i + 1;
    }
    m.Freevm(pg.value, all);
  }

  // ---- any calls, with any sizes ----

  datatype Call = Alloc(oldsz: nat, newsz: nat) | Dealloc(oldsz: nat, newsz: nat)

  /** The call looks at virtual page u. */
  predicate Touches(c: Call, u: nat) {
    match c
    case Alloc(oldsz, newsz) => newsz < KERNBASE && PgUp(oldsz) <= u < PgUp(newsz)
    case Dealloc(oldsz, newsz) => PgUp(newsz) <= u < PgUp(oldsz)
  }

  /** The last of the calls to touch virtual page u was an allocuvm. */
  ghost predicate Claimed(calls: seq<Call>, u: nat) {
    calls != [] &&
    var c := calls[|calls| - 1];
    if Touches(c, u) then c.Alloc? else Claimed(calls[..|calls| - 1], u)
  }

  /** An allocuvm of a page that is claimed, or a deallocuvm that goes on into the kernel's half. */
  ghost predicate Clash(calls: seq<Call>, k: nat) {
    && k < |calls|
    && match calls[k]
       case Alloc(oldsz, newsz) => exists u: nat :: Touches(calls[k], u) && Claimed(calls[..k], u)
       case Dealloc(oldsz, newsz) => newsz < oldsz && KERNBASE < oldsz
  }

  /** Two free pages for each page asked for. */
  function Cost2(c: Call): nat {
    if c.Alloc? && c.newsz < KERNBASE && c.oldsz <= c.newsz then 2 * (PgUp(c.newsz) - PgUp(c.oldsz)) else 0
  }

  function Demand(calls: seq<Call>): nat {
    if calls == [] then 0 else Demand(calls[..|calls| - 1]) + Cost2(calls[|calls| - 1])
  }

  lemma {:induction false} DemandGrows(calls: seq<Call>, i: nat, next: nat)
    requires i < |calls| && next == i + 1
    ensures Demand(calls[..next]) == Demand(calls[..i]) + Cost2(calls[i]) && Demand(calls[..next]) <= Demand(calls)
    decreases |calls|
  {
    assert calls[..next][..i] == calls[..i];
    if next == |calls| {
      assert calls[..next] == calls;
    } else {
      var rest := calls[..|calls| - 1];
      DemandGrows(rest, i, next);
      assert rest[..next] == calls[..next] && rest[..i] == calls[..i];
    }
  }

  lemma ClaimedNext(calls: seq<Call>, i: nat, next: nat, u: nat)
    requires i < |calls| && next == i + 1
    ensures Claimed(calls[..next], u) <==> if Touches(calls[i], u) then calls[i].Alloc? else Claimed(calls[..i], u)
  {
    assert calls[..next][..i] == calls[..i];
  }

  /** Only claimed pages are mapped. */
  ghost predicate Within(mem: Memory, pg: nat, calls: seq<Call>) {
    pg < NPAGES && forall u: nat :: u < USERPAGES && Mapped(mem, pg, u) ==> Claimed(calls, u)
  }

  /** All claimed pages are mapped. */
  ghost predicate Complete(mem: Memory, pg: nat, calls: seq<Call>) {
    pg < NPAGES && forall u: nat :: u < USERPAGES && Claimed(calls, u) ==> Mapped(mem, pg, u)
  }

  lemma GrownClaims(mem: Memory, mem': Memory, pg: nat, all: set<nat>, calls: seq<Call>, i: nat, next: nat)
    requires i < |calls| && next == i + 1 && calls[i].Alloc? && calls[i].newsz < KERNBASE &&
             calls[i].oldsz <= calls[i].newsz
    requires var lo, hi := PgUp(calls[i].oldsz), PgUp(calls[i].newsz);
             lo <= hi <= USERPAGES && Extended(mem, mem', pg, all, {}, lo, hi) && ZeroPages(mem', pg, lo, hi)
    ensures Within(mem, pg, calls[..i]) ==> Within(mem', pg, calls[..next])
    ensures Complete(mem, pg, calls[..i]) ==> Complete(mem', pg, calls[..next])
  {
    var lo, hi := PgUp(calls[i].oldsz), PgUp(calls[i].newsz);
    forall u: nat | u < USERPAGES
      ensures Mapped(mem', pg, u) <==> lo <= u < hi || Mapped(mem, pg, u)
    {
      if lo <= u < hi { assert ZeroPage(mem', pg, u); }
    }
    forall u: nat ensures Claimed(calls[..next], u) <==> lo <= u < hi || Claimed(calls[..i], u) {
      ClaimedNext(calls, i, next, u);
    }
  }

  lemma ClearedClaims(mem: Memory, mem': Memory, pg: nat, all: set<nat>, calls: seq<Call>, i: nat, next: nat, lo: nat,
                      hi: nat)
    requires i < |calls| && next == i + 1 && Cleared(mem, mem', pg, all, lo, hi)
    requires calls[i].Dealloc? && forall u: nat :: Touches(calls[i], u) <==> lo <= u < hi
    ensures Within(mem, pg, calls[..i]) ==> Within(mem', pg, calls[..next])
    ensures Complete(mem, pg, calls[..i]) ==> Complete(mem', pg, calls[..next])
  {
    forall u: nat ensures Claimed(calls[..next], u) <==> !(lo <= u < hi) && Claimed(calls[..i], u) {
      ClaimedNext(calls, i, next, u);
    }
  }

  lemma BackClaims(mem: Memory, mem': Memory, pg: nat, all: set<nat>, calls: seq<Call>, i: nat, next: nat)
    requires i < |calls| && next == i + 1 && calls[i].Alloc? && Within(mem, pg, calls[..i])
    requires GaveBack(mem, mem', pg, all, PgUp(calls[i].oldsz), PgUp(calls[i].newsz))
    ensures Within(mem', pg, calls[..next])
  {
    forall u: nat | u < USERPAGES && Mapped(mem', pg, u) ensures Claimed(calls[..next], u) {
      ClaimedNext(calls, i, next, u);
      assert Pte(mem', pg, u) == Pte(mem, pg, u);
    }
  }

  lemma NoClaims(mem: Memory, pg: nat, calls: seq<Call>, i: nat, next: nat)
    requires i < |calls| && next == i + 1 && forall u: nat :: !Touches(calls[i], u)
    ensures Within(mem, pg, calls[..i]) ==> Within(mem, pg, calls[..next])
    ensures Complete(mem, pg, calls[..i]) ==> Complete(mem, pg, calls[..next])
  {
    forall u: nat ensures Claimed(calls[..next], u) <==> Claimed(calls[..i], u) { ClaimedNext(calls, i, next, u); }
  }

  lemma RemapClashes(mem: Memory, pg: nat, calls: seq<Call>, i: nat)
    requires i < |calls| && calls[i].Alloc? && Within(mem, pg, calls[..i]) && calls[i].newsz < KERNBASE
    requires PgUp(calls[i].newsz) <= USERPAGES && !NoneMapped(mem, pg, PgUp(calls[i].oldsz), PgUp(calls[i].newsz))
    ensures Clash(calls, i)
  {
    var u: nat :| PgUp(calls[i].oldsz) <= u < PgUp(calls[i].newsz) && Mapped(mem, pg, u);
    assert Touches(calls[i], u) && Claimed(calls[..i], u);
  }

  lemma GrownNoClash(mem: Memory, pg: nat, calls: seq<Call>, i: nat)
    requires i < |calls| && calls[i].Alloc? && Complete(mem, pg, calls[..i])
    requires PgUp(calls[i].newsz) <= USERPAGES && NoneMapped(mem, pg, PgUp(calls[i].oldsz), PgUp(calls[i].newsz))
    ensures !Clash(calls, i)
  {
    forall u: nat | Touches(calls[i], u) ensures !Claimed(calls[..i], u) { assert !Mapped(mem, pg, u); }
  }

  /** A call of allocuvm, seen as the next of the calls. With free pages for it, it stops exactly on a clash. */
  method AllocNext(m: Kernel, pg: nat, data: nat, calls: seq<Call>, i: nat, ghost all: set<nat>) returns (ok: bool)
    requires i < |calls| && calls[i].Alloc? && m.Valid(pg, all, {}) && Within(m.mem, pg, calls[..i])
    requires EXTPAGE < data < NPAGES && KernelHalf(m.mem, pg, NROWS, data)
    modifies m
    ensures !ok ==> Clash(calls, i)
    ensures ok ==> m.Valid(pg, all, {}) && Within(m.mem, pg, calls[..i + 1]) && KernelHalf(m.mem, pg, NROWS, data)
    ensures ok && Complete(old(m.mem), pg, calls[..i]) && |old(m.free)| >= Cost2(calls[i]) ==>
              && Complete(m.mem, pg, calls[..i + 1]) && !Clash(calls, i) && |old(m.free)| <= |m.free| + Cost2(calls[i])
  {
    var c, next := calls[i], i + 1;
    PgUpLess(0, c.newsz);
    var r := m.Allocuvm(pg, c.oldsz, c.newsz, all);
    if r.Stopped? {
      RemapClashes(old(m.mem), pg, calls, i);
      return false;
    }
    ok := true;
    if r.Size? && c.newsz >= c.oldsz {
      GrownClaims(old(m.mem), m.mem, pg, all, calls, i, next);
      if Complete(old(m.mem), pg, calls[..i]) { GrownNoClash(old(m.mem), pg, calls, i); }
    } else if r.NoMemory? {
      BackClaims(old(m.mem), m.mem, pg, all, calls, i, next);
    } else {
      NoClaims(m.mem, pg, calls, i, next);
    }
    HalfKept(old(m.mem), m.mem, pg, data);
  }

  /** A call of deallocuvm. */
  method DeallocNext(m: Kernel, pg: nat, data: nat, calls: seq<Call>, i: nat, ghost all: set<nat>) returns (ok: bool)
    requires m.Valid(pg, all, {}) && i < |calls| && calls[i].Dealloc?
    requires calls[i].newsz < calls[i].oldsz ==> calls[i].newsz <= KERNBASE
    requires EXTPAGE < data < NPAGES && KernelHalf(m.mem, pg, NROWS, data)
    modifies m
    ensures !ok <==> Clash(calls, i)
    ensures ok ==> m.Valid(pg, all, {}) && |old(m.free)| <= |m.free| && KernelHalf(m.mem, pg, NROWS, data)
    ensures ok && Within(old(m.mem), pg, calls[..i]) ==> Within(m.mem, pg, calls[..i + 1])
    ensures ok && Complete(old(m.mem), pg, calls[..i]) ==> Complete(m.mem, pg, calls[..i + 1])
  {
    var c, next := calls[i], i + 1;
    HalfStart(m.mem, pg, data);
    var sz := m.Deallocuvm(pg, c.oldsz, c.newsz, all, {});
    ok := sz.Some?;
    if ok {
      PgUpLess(0, c.oldsz);
      ClearedClaims(old(m.mem), m.mem, pg, all, calls, i, next, PgUp(sz.value), PgUp(c.oldsz));
      HalfKept(old(m.mem), m.mem, pg, data);
    }
  }

  /** setupkvm, any sequence of allocuvm and deallocuvm with any sizes, with or without running out of memory, then
      freevm: the free list holds the same pages as before, none twice. The only ways not to get there are the
      panics, at a call that clashes with those before it; with memory for all calls, it stops at the first clash. */
  method Lifetime(m: Kernel, data: nat, calls: seq<Call>, ghost all: set<nat>) returns (stop: Option<nat>)
    requires AllFree(m.free, all) && InPool(m.first, all) && EXTPAGE < data < NPAGES
    requires forall i :: 0 <= i < |calls| && calls[i].Dealloc? && calls[i].newsz < calls[i].oldsz ==>
             calls[i].newsz <= KERNBASE
    modifies m
    ensures stop.None? ==> AllFree(m.free, all)
    ensures stop.Some? ==> Clash(calls, stop.value)
    ensures |old(m.free)| > KERNTABLES + Demand(calls) ==>
              forall k: nat :: Clash(calls, k) ==> stop.Some? && stop.value <= k
  {
    var pg := Setupkvm(m, data, all);
    if pg.None? { return None; }
    ghost var rich := |old(m.free)| > KERNTABLES + Demand(calls);
    var i := 0;
    assert calls[..0] == [];
    while i < |calls|
      invariant 0 <= i <= |calls| && m.Valid(pg.value, all, {}) && Within(m.mem, pg.value, calls[..i])
      invariant KernelHalf(m.mem, pg.value, NROWS, data)
      invariant rich ==> Complete(m.mem, pg.value, calls[..i]) && forall k: nat :: k < i ==> !Clash(calls, k)
      invariant rich ==> |old(m.free)| <= |m.free| + KERNTABLES + 1 + Demand(calls[..i])
    {
      var next := i + 1;
      DemandGrows(calls, i, next);
      var ok;
      if calls[i].Alloc? {
        ok := AllocNext(m, pg.value, data, calls, i, all);
      } else {
        ok := DeallocNext(m, pg.value, data, calls, i, all);
      }
      if !ok { return Some(i); }
      i := next;
    }
    m.Freevm(pg.value, all);
    stop := None;
  }

  /** The size that growproc keeps after calls that find the memory they need: as it was after a refusal, and after a
      return of 0. An allocuvm that runs out of memory leaves it as it was, too; ProcessLife covers that. */
  function SizeAfter(calls: seq<Call>): nat {
    if calls == [] then 0
    else
      var c := calls[|calls| - 1];
      match c
      case Alloc(oldsz, newsz) => if newsz >= KERNBASE || newsz < oldsz then oldsz else newsz
      case Dealloc(oldsz, newsz) => if newsz >= oldsz || newsz == 0 then oldsz else newsz
  }

  /** Each call starts from the size that the calls before it left, as growproc's do while its allocations succeed. */
  ghost predicate Chained(calls: seq<Call>) {
    forall i :: 0 <= i < |calls| ==> calls[i].oldsz == SizeAfter(calls[..i])
  }

  lemma {:induction false} ChainedClaims(calls: seq<Call>, i: nat)
    requires Chained(calls) && i <= |calls|
    ensures SizeAfter(calls[..i]) <= KERNBASE
    ensures forall u: nat :: Claimed(calls[..i], u) ==> u < PgUp(SizeAfter(calls[..i]))
  {
    if i > 0 {
      var k := i - 1;
      ChainedClaims(calls, k);
      assert calls[..i][k] == calls[k];
      forall u: nat | Claimed(calls[..i], u) ensures u < PgUp(SizeAfter(calls[..i])) {
        ClaimedNext(calls, k, i, u);
        PgUpLess(u, SizeAfter(calls[..i]));
        PgUpLess(u, calls[k].oldsz);
      }
    }
  }

  /** So a process that only uses growproc, with memory for what it asks, never reaches either panic, and the condition
      of Lifetime holds. */
  lemma ChainedNeverClash(calls: seq<Call>, k: nat)
    requires Chained(calls)
    ensures !Clash(calls, k)
  {
    if k < |calls| {
      ChainedClaims(calls, k);
    }
  }

  /** Two calls that do stop: the same page asked for twice. */
  lemma SamePageTwice()
    ensures var calls := [Alloc(0, PGSIZE), Alloc(0, PGSIZE)]; Clash(calls, 1) && Demand(calls) == 4
  {
    var calls := [Alloc(0, PGSIZE), Alloc(0, PGSIZE)];
    assert calls[..1] == [Alloc(0, PGSIZE)] && calls[..1][..0] == [];
    assert Touches(calls[1], 0) && Claimed(calls[..1], 0);
    assert Cost2(calls[0]) == Cost2(calls[1]) == 2;
    assert Demand(calls[..1]) == Demand(calls[..1][..0]) + Cost2(calls[..1][0]) == 2;
  }

  // ---- copying a space ----

  /** A space none of whose pages is among `all`. */
  ghost predicate Foreign(mem: Memory, src: nat, all: set<nat>) {
    src < NPAGES && forall l, p: nat :: IsPlace(l) && Keeps(mem, src, l, p) ==> p < NPAGES && p !in all
  }

  /** It does not notice what happens to those. */
  lemma ForeignSame(mem: Memory, mem': Memory, src: nat, all: set<nat>)
    requires Foreign(mem, src, all) && forall p: nat :: p < NPAGES && p !in all ==> mem'[p] == mem[p]
    ensures Foreign(mem', src, all) && SameTables(mem, mem', src) && DataSame(mem, mem', src)
    ensures forall u: nat :: u < NVIRT ==> Pte(mem', src, u) == Pte(mem, src, u)
  {
    assert Keeps(mem, src, Dir, src);
    forall i: nat | i < NENT && HasTable(mem, src, i) ensures TableOf(mem, src, i) !in all {
      assert Keeps(mem, src, Table(i), TableOf(mem, src, i));
    }
    SameKeeps(mem, mem', src);
    forall u: nat | u < USERPAGES && Mapped(mem, src, u) ensures Frame(Pte(mem, src, u)) !in all {
      assert Keeps(mem, src, User(u), Frame(Pte(mem, src, u)));
    }
  }

  /** Virtual page u of space d has the contents and flags that it has in space src of mem0. */
  ghost predicate CopiedPage(mem0: Memory, src: nat, mem: Memory, d: nat, u: nat)
    requires src < NPAGES && d < NPAGES && u < USERPAGES
  {
    var w0, w := Pte(mem0, src, u), Pte(mem, d, u);
    && Present(w0) && Present(w) && w == Entry(Frame(w), w0 % PGSIZE) && Frame(w0) < NPAGES && Frame(w) < NPAGES
    && mem[Frame(w)] == mem0[Frame(w0)]
  }

  ghost predicate CopiedPages(mem0: Memory, src: nat, mem: Memory, d: nat, hi: nat)
    requires src < NPAGES && d < NPAGES && hi <= USERPAGES
  {
    forall u: nat :: u < hi ==> CopiedPage(mem0, src, mem, d, u)
  }

  lemma CopiedOn(mem0: Memory, src: nat, m1: Memory, m2: Memory, d: nat, all: set<nat>, a: nat, next: nat)
    requires src < NPAGES && next == a + 1 <= USERPAGES && Extended(m1, m2, d, all, {}, a, next)
    requires CopiedPages(mem0, src, m1, d, a) && CopiedPage(mem0, src, m2, d, a) && NoneMapped(m1, d, a, USERPAGES)
    ensures CopiedPages(mem0, src, m2, d, next) && NoneMapped(m2, d, next, USERPAGES)
  {
    forall u: nat | u < next ensures CopiedPage(mem0, src, m2, d, u) {
      if u < a { assert CopiedPage(mem0, src, m1, d, u) && Mapped(m1, d, u); }
    }
    AboveGrown(m1, m2, d, all, a, next);
  }

  lemma FlagsPresent(w: nat)
    requires Present(w)
    ensures Present(w % PGSIZE) && w % PGSIZE < PGSIZE && WithP(w % PGSIZE) == w % PGSIZE
  {
  }

  /** The page just mapped is the copy. */
  lemma CopyMapped(mem0: Memory, src: nat, mem: Memory, d: nat, i: nat, p: nat)
    requires src < NPAGES && d < NPAGES && i < USERPAGES && p < NPAGES && Mapped(mem0, src, i) &&
             Frame(Pte(mem0, src, i)) < NPAGES
    requires MapsTo(mem, d, i, i + 1, p, Pte(mem0, src, i) % PGSIZE) && mem[p] == mem0[Frame(Pte(mem0, src, i))]
    ensures CopiedPage(mem0, src, mem, d, i)
  {
    FlagsPresent(Pte(mem0, src, i));
    assert Pte(mem, d, i) == Entry(p + (i - i), WithP(Pte(mem0, src, i) % PGSIZE));
    EntryParts(p, Pte(mem0, src, i) % PGSIZE);
  }

  /** copyuvm at virtual page i, whose entry in the source is w. */
  method CopyPage(m: Kernel, ghost src: nat, d: nat, i: nat, w: nat, ghost all: set<nat>) returns (ok: bool)
    requires m.Valid(d, all, {}) && Foreign(m.mem, src, all) && i < USERPAGES && !Mapped(m.mem, d, i)
    requires Mapped(m.mem, src, i) && w == Pte(m.mem, src, i) && Frame(w) < NPAGES && Frame(w) !in all
    modifies m
    ensures m.Valid(d, all, {}) && Extended(old(m.mem), m.mem, d, all, {}, i, if ok then i + 1 else i)
    ensures ok ==> CopiedPage(old(m.mem), src, m.mem, d, i)
    ensures if ok then |old(m.free)| <= |m.free| + 2 else |old(m.free)| < 2
  {
    ghost var m0 := m.mem;
    FlagsPresent(w);
    var p := m.Fresh(d, m.mem[Frame(w)], i, all);
    if p.None? { return false; }
    ghost var m1, f1 := m.mem, m.free;
    assert Pte(m1, d, i) == Pte(m0, d, i);
    var r := m.MapPage(d, i, p.value, w % PGSIZE, all);
    PaidOne(m1, f1, m.mem, m.free, d, i / NENT);
    ghost var end := if r.Ok? then i + 1 else i;
    assert Extended(m1, m.mem, d, all, {}, i, end);
    ExtendedTwice(m0, m1, m.mem, d, all, {}, i, i, end);
    if !r.Ok? {
      HandFreed(m0, m.mem, m.free, d, all, i, p.value, Filled(JUNK));
      ok := m.Kfree(p.value);
      return false;
    }
    CopyMapped(m0, src, m.mem, d, i, p.value);
    ok := true;
  }

  /** Giving back the page in hand moves nothing. */
  lemma HandFreed(mem: Memory, m1: Memory, free: seq<nat>, d: nat, all: set<nat>, a: nat, p: nat, data: Page)
    requires Extended(mem, m1, d, all, {}, a, a) && Space(m1, free, d, all, {p}) && p < NPAGES
    ensures Extended(mem, m1[p := data], d, all, {}, a, a) && Space(m1[p := data], [p] + free, d, all, {})
  {
    var m2: Memory := m1[p := data];
    WriteHand(m1, free, d, all, {p}, p, data);
    PutPage(m2, free, d, all, {p}, p);
    assert {p} - {p} == {};
    forall u: nat | u < USERPAGES && Mapped(mem, d, u) ensures Frame(Pte(mem, d, u)) != p {
      assert Pte(m1, d, u) == Pte(mem, d, u);
      assert Keeps(m1, d, User(u), Frame(Pte(m1, d, u)));
    }
    assert Extended(mem, m2, d, all, {}, a, a);
  }

  /** copyuvm: the new space, no memory, or a panic for a page that is not there. */
  datatype CopyResult = Copied(pg: nat) | OutOfMemory | Absent

  /** copyuvm: every page below sz has a copy with the same contents and flags; the source is untouched. For lack of
      memory everything taken is given back. */
  method Copyuvm(m: Kernel, src: nat, sz: nat, data: nat, ghost all: set<nat>) returns (r: CopyResult)
    requires AllFree(m.free, all) && InPool(m.first, all) && EXTPAGE < data < NPAGES && Foreign(m.mem, src, all) &&
             sz <= KERNBASE
    modifies m
    ensures forall p: nat :: p < NPAGES && p !in all ==> m.mem[p] == old(m.mem)[p]
    ensures r.Absent? ==> exists u: nat :: u < PgUp(sz) && !Mapped(old(m.mem), src, u)
    ensures r.OutOfMemory? ==> AllFree(m.free, all) && |old(m.free)| <= KERNTABLES + 2 * PgUp(sz)
    ensures r.Copied? ==> m.Valid(r.pg, all, {}) && r.pg < NPAGES && KernelHalf(m.mem, r.pg, NROWS, data)
    ensures r.Copied? ==> CopiedPages(old(m.mem), src, m.mem, r.pg, PgUp(sz)) &&
                          NoneMapped(m.mem, r.pg, PgUp(sz), USERPAGES)
    ensures r.Copied? ==> KernelRights(m.mem, r.pg, data)
    ensures r.Copied? && OpenTables(old(m.mem), src) ==> SameRights(old(m.mem), src, m.mem, r.pg, PgUp(sz))
  {
    ghost var m0 := m.mem;
    var pg := Setupkvm(m, data, all);
    if pg.None? { return OutOfMemory; }
    var d := pg.value;
    var i := 0;
    while i * PGSIZE < sz
      invariant 0 <= i <= PgUp(sz) && m.Valid(d, all, {}) && CopiedPages(m0, src, m.mem, d, i) &&
                NoneMapped(m.mem, d, i, USERPAGES)
      invariant forall p: nat :: p < NPAGES && p !in all ==> m.mem[p] == m0[p]
      invariant |old(m.free)| <= |m.free| + KERNTABLES + 1 + 2 * i && KernelHalf(m.mem, d, NROWS, data)
    {
      PgUpLess(i, sz);
      ForeignSame(m0, m.mem, src, all);
      if !Present(m.mem[src][i / NENT]) {
        assert !Mapped(m0, src, i);
        return Absent;
      }
      assert Keeps(m.mem, src, Table(i / NENT), TableOf(m.mem, src, i / NENT));
      var w := m.mem[Frame(m.mem[src][i / NENT])][i % NENT];
      if !Present(w) {
        assert !Mapped(m0, src, i);
        return Absent;
      }
      assert Keeps(m.mem, src, User(i), Frame(w));
      ghost var m1 := m.mem;
      var ok := CopyPage(m, src, d, i, w, all);
      if !ok {
        m.Freevm(d, all);
        return OutOfMemory;
      }
      var next := i + 1;
      CopiedFrom(m0, m1, m.mem, src, d, i);
      HalfKept(m1, m.mem, d, data);
      CopiedOn(m0, src, m1, m.mem, d, all, i, next);
      i := next;
    }
    PgUpLess(i, sz);
    HalfRights(m.mem, d, data);
    if OpenTables(m0, src) { CopiedRights(m0, src, m.mem, d, i); }
    return Copied(d);
  }

  /** User code may do with the first pages of space d what it may do with those of space src of mem0. */
  ghost predicate SameRights(mem0: Memory, src: nat, mem: Memory, d: nat, hi: nat)
    requires src < NPAGES && d < NPAGES && hi <= USERPAGES
  {
    forall u: nat :: u < hi ==> RightsLike(Rights(mem0, src, u), Rights(mem, d, u))
  }

  predicate RightsLike(a: Access, b: Access) { a.Access? && b.Access? && a.user == b.user && a.write == b.write }

  lemma CopiedRights(mem0: Memory, src: nat, mem: Memory, d: nat, hi: nat)
    requires src < NPAGES && d < NPAGES && hi <= USERPAGES && OpenTables(mem0, src) && OpenTables(mem, d)
    requires CopiedPages(mem0, src, mem, d, hi)
    ensures SameRights(mem0, src, mem, d, hi)
  {
    forall u: nat | u < hi ensures RightsLike(Rights(mem0, src, u), Rights(mem, d, u)) {
      assert CopiedPage(mem0, src, mem, d, u);
      RightsOpen(mem0, src, u);
      RightsOpen(mem, d, u);
      var w0, w := Pte(mem0, src, u), Pte(mem, d, u);
      assert w0 == Entry(Frame(w0), w0 % PGSIZE);
      EntryBits(Frame(w0), w0 % PGSIZE);
      EntryBits(Frame(w), w0 % PGSIZE);
    }
  }

  lemma CopiedFrom(m0: Memory, m1: Memory, m2: Memory, src: nat, d: nat, u: nat)
    requires src < NPAGES && d < NPAGES && u < USERPAGES && CopiedPage(m1, src, m2, d, u)
    requires Pte(m1, src, u) == Pte(m0, src, u) && DataSame(m0, m1, src)
    ensures CopiedPage(m0, src, m2, d, u)
  {
  }
}
