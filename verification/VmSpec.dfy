/** Address spaces of vm.c: two-level page tables in physical memory, and who owns which page. Addresses are page
    numbers; a table entry is a page number times 4096 plus flags. */
module VmSpec {
  const NENT: nat := 1024            // entries in a directory or table
  const NPAGES: nat := 0xE000        // physical pages, up to PHYSTOP
  const NVIRT: nat := 0x10_0000      // virtual pages
  const USERPAGES: nat := 0x8_0000   // virtual pages below KERNBASE
  const PGSIZE: nat := 4096
  const PTE_P: nat := 1
  const PTE_W: nat := 2
  const PTE_U: nat := 4

  type Page = p: seq<nat> | |p| == NENT witness seq<nat>(NENT, _ => 0)
  type Memory = m: seq<Page> | |m| == NPAGES witness seq<Page>(NPAGES, _ => seq<nat>(NENT, _ => 0))

  function Filled(w: nat): Page { seq(NENT, _ => w) }

  predicate Present(w: nat) { w % 2 == PTE_P }

  function Frame(w: nat): nat { w / PGSIZE }

  function Entry(p: nat, flags: nat): nat { p * PGSIZE + flags }

  lemma EntryParts(p: nat, flags: nat)
    requires flags < PGSIZE
    ensures Frame(Entry(p, flags)) == p && (Present(Entry(p, flags)) <==> Present(flags))
  {
  }

  /** The table that entry i of the directory leads to. */
  function TableOf(mem: Memory, pg: nat, i: nat): nat
    requires pg < NPAGES && i < NENT
  {
    Frame(mem[pg][i])
  }

  predicate HasTable(mem: Memory, pg: nat, i: nat)
    requires pg < NPAGES && i < NENT
  {
    Present(mem[pg][i])
  }

  /** The entry of virtual page v, 0 if it has no table. */
  function Pte(mem: Memory, pg: nat, v: nat): nat
    requires pg < NPAGES && v < NVIRT
  {
    var i := v / NENT;
    if HasTable(mem, pg, i) && TableOf(mem, pg, i) < NPAGES then mem[TableOf(mem, pg, i)][v % NENT] else 0
  }

  predicate Mapped(mem: Memory, pg: nat, v: nat)
    requires pg < NPAGES && v < NVIRT
  {
    Present(Pte(mem, pg, v))
  }

  // ---- what the processor allows ----

  predicate UserBit(w: nat) { w / PTE_U % 2 == 1 }

  predicate WriteBit(w: nat) { w / PTE_W % 2 == 1 }

  /** What an access to a virtual page meets: a fault, or a physical page that user code may use or not, and that may
      be written or not. */
  datatype Access = Fault | Access(page: nat, user: bool, write: bool)

  /** The processor's own rule: an access is allowed what the entries of both levels allow. */
  function Rights(mem: Memory, pg: nat, v: nat): Access
    requires pg < NPAGES && v < NVIRT
  {
    var e, w := mem[pg][v / NENT], Pte(mem, pg, v);
    if Present(e) && Present(w) then Access(Frame(w), UserBit(e) && UserBit(w), WriteBit(e) && WriteBit(w)) else Fault
  }

  /** The directory leaves it to the tables what is allowed. */
  ghost predicate OpenTables(mem: Memory, pg: nat)
    requires pg < NPAGES
  {
    forall i: nat :: i < NENT && HasTable(mem, pg, i) ==> OpenEntry(mem[pg][i])
  }

  predicate OpenEntry(e: nat) { UserBit(e) && WriteBit(e) }

  lemma RightsOpen(mem: Memory, pg: nat, v: nat)
    requires pg < NPAGES && v < NVIRT && OpenTables(mem, pg)
    ensures var w := Pte(mem, pg, v);
            Rights(mem, pg, v) == if Present(w) then Access(Frame(w), UserBit(w), WriteBit(w)) else Fault
  {
    assert Present(Pte(mem, pg, v)) ==> HasTable(mem, pg, v / NENT);
  }

  lemma EntryBits(p: nat, flags: nat)
    requires flags < PGSIZE
    ensures (UserBit(Entry(p, flags)) <==> UserBit(flags)) && (WriteBit(Entry(p, flags)) <==> WriteBit(flags))
  {
    BitOf(p * 512, 4, flags);
    BitOf(p * 1024, 2, flags);
  }

  /** Adding a multiple of 2 * k does not change the bit that counts k. */
  lemma BitOf(m: nat, k: nat, flags: nat)
    requires k == 4 || k == 2
    ensures (2 * k * m + flags) / k % 2 == flags / k % 2
  {
    var q := flags / k;
    if k == 4 {
      assert (8 * m + flags) / 4 == 2 * m + q;
    } else {
      assert (4 * m + flags) / 2 == 2 * m + q;
    }
  }

  // ---- ownership ----

  /** Where a space keeps a page: the directory, a table, or a user page. */
  datatype Place = Dir | Table(i: nat) | User(v: nat)

  predicate IsPlace(l: Place) { (l.Table? ==> l.i < NENT) && (l.User? ==> l.v < USERPAGES) }

  predicate Keeps(mem: Memory, pg: nat, l: Place, p: nat)
    requires pg < NPAGES && IsPlace(l)
  {
    match l
    case Dir => p == pg
    case Table(i) => HasTable(mem, pg, i) && p == TableOf(mem, pg, i)
    case User(v) => Mapped(mem, pg, v) && p == Frame(Pte(mem, pg, v))
  }

  ghost predicate Owns(mem: Memory, pg: nat, p: nat)
    requires pg < NPAGES
  {
    exists l :: IsPlace(l) && Keeps(mem, pg, l, p)
  }

  ghost predicate NoDup(free: seq<nat>) {
    forall i, j :: 0 <= i < j < |free| ==> free[i] != free[j]
  }

  /** Pages that kalloc hands out and kfree takes: those above the kernel and below PHYSTOP. */
  ghost predicate InPool(first: nat, all: set<nat>) {
    0 < first && forall p :: p in all ==> first <= p < NPAGES
  }

  /** The pages `all` are split between the free list, the pages in hand and the space, which keeps each in one place
      only. */
  ghost predicate Space(mem: Memory, free: seq<nat>, pg: nat, all: set<nat>, hand: set<nat>) {
    && pg < NPAGES && NoDup(free) && OpenTables(mem, pg)
    && (forall p :: p in free ==> p in all && p !in hand)
    && (forall p :: p in hand ==> p in all)
    && (forall l, p: nat :: IsPlace(l) && Keeps(mem, pg, l, p) ==> p in all && p !in free && p !in hand && p < NPAGES)
    && (forall l, m, p: nat :: IsPlace(l) && IsPlace(m) && Keeps(mem, pg, l, p) && Keeps(mem, pg, m, p) ==> l == m)
    && (forall p: nat :: p in all ==> p in free || p in hand || Owns(mem, pg, p))
  }

  /** Changing pages that are neither the directory nor a table changes no entry. */
  ghost predicate SameTables(mem: Memory, mem': Memory, pg: nat)
    requires pg < NPAGES
  {
    && mem'[pg] == mem[pg]
    && forall i: nat :: i < NENT && HasTable(mem, pg, i) && TableOf(mem, pg, i) < NPAGES ==>
         mem'[TableOf(mem, pg, i)] == mem[TableOf(mem, pg, i)]
  }

  lemma SameKeeps(mem: Memory, mem': Memory, pg: nat)
    requires pg < NPAGES && SameTables(mem, mem', pg)
    ensures forall v: nat :: v < NVIRT ==> Pte(mem', pg, v) == Pte(mem, pg, v)
    ensures forall l, p :: IsPlace(l) ==> (Keeps(mem', pg, l, p) <==> Keeps(mem, pg, l, p))
  {
  }

  /** Two places, two pages. */
  lemma Apart(mem: Memory, free: seq<nat>, pg: nat, all: set<nat>, hand: set<nat>, l: Place, m: Place, p: nat)
    requires Space(mem, free, pg, all, hand) && IsPlace(l) && IsPlace(m) && l != m && Keeps(mem, pg, l, p)
    ensures !Keeps(mem, pg, m, p)
  {
  }

  // ---- counting tables ----

  /** The entries of the directory that lead to a table. */
  ghost function Tables(mem: Memory, pg: nat): set<nat>
    requires pg < NPAGES
  {
    set i: nat | i < NENT && HasTable(mem, pg, i)
  }

  /** Pages go from the free list to tables of the entries lo..hi-1 and nowhere else. */
  ghost predicate Paid(mem: Memory, free: seq<nat>, mem': Memory, free': seq<nat>, pg: nat, lo: nat, hi: nat) {
    var paid := pg < NPAGES && |free'| + |Tables(mem', pg)| == |free| + |Tables(mem, pg)| &&
                Tables(mem, pg) <= Tables(mem', pg) &&
                forall i :: i in Tables(mem', pg) ==> i in Tables(mem, pg) || lo <= i < hi;
    paid
  }

  lemma PaidNone(mem: Memory, free: seq<nat>, mem': Memory, pg: nat, lo: nat, hi: nat)
    requires pg < NPAGES && mem'[pg] == mem[pg]
    ensures Paid(mem, free, mem', free, pg, lo, hi)
  {
    assert Tables(mem', pg) == Tables(mem, pg);
  }

  lemma PaidWider(mem: Memory, free: seq<nat>, mem': Memory, free': seq<nat>, pg: nat, i: nat, lo: nat, hi: nat)
    requires Paid(mem, free, mem', free', pg, i, i + 1) && lo <= i < hi
    ensures Paid(mem, free, mem', free', pg, lo, hi)
  {
  }

  /** At most one table, and none if it is still missing. */
  lemma PaidOne(mem: Memory, free: seq<nat>, mem': Memory, free': seq<nat>, pg: nat, i: nat)
    requires Paid(mem, free, mem', free', pg, i, i + 1) && i < NENT
    ensures |free'| <= |free| <= |free'| + 1
    ensures !HasTable(mem', pg, i) ==> |free'| == |free|
  {
    var s, t := Tables(mem, pg), Tables(mem', pg);
    if i in t && i !in s {
      assert t == s + {i};
    } else {
      assert t == s;
    }
  }

  lemma PaidTwice(mem: Memory, free: seq<nat>, m1: Memory, f1: seq<nat>, m2: Memory, f2: seq<nat>, pg: nat, lo: nat,
                  hi: nat)
    requires Paid(mem, free, m1, f1, pg, lo, hi) && Paid(m1, f1, m2, f2, pg, lo, hi)
    ensures Paid(mem, free, m2, f2, pg, lo, hi)
  {
  }

  // ---- kalloc and kfree ----

  /** kalloc: the first free page is in hand. */
  lemma TakePage(mem: Memory, free: seq<nat>, pg: nat, all: set<nat>, hand: set<nat>)
    requires Space(mem, free, pg, all, hand) && free != []
    ensures Space(mem, free[1..], pg, all, hand + {free[0]}) && free[0] !in hand
  {
  }

  /** A page in hand can be written at will. */
  lemma WriteHand(mem: Memory, free: seq<nat>, pg: nat, all: set<nat>, hand: set<nat>, p: nat, data: Page)
    requires Space(mem, free, pg, all, hand) && p in hand && p < NPAGES
    ensures Space(mem[p := data], free, pg, all, hand)
    ensures forall v: nat :: v < NVIRT ==> Pte(mem[p := data], pg, v) == Pte(mem, pg, v)
    ensures forall i: nat :: i < NENT ==> mem[p := data][pg][i] == mem[pg][i]
  {
    assert Keeps(mem, pg, Dir, pg);
    forall i: nat | i < NENT && HasTable(mem, pg, i) ensures TableOf(mem, pg, i) != p {
      assert Keeps(mem, pg, Table(i), TableOf(mem, pg, i));
    }
    SameKeeps(mem, mem[p := data], pg);
    forall q | q in all ensures q in free || q in hand || Owns(mem[p := data], pg, q) {
      if q !in free && q !in hand {
        var l :| IsPlace(l) && Keeps(mem, pg, l, q);
        assert Keeps(mem[p := data], pg, l, q);
      }
    }
  }

  /** kfree of a page in hand. */
  lemma PutPage(mem: Memory, free: seq<nat>, pg: nat, all: set<nat>, hand: set<nat>, p: nat)
    requires Space(mem, free, pg, all, hand) && p in hand
    ensures Space(mem, [p] + free, pg, all, hand - {p})
  {
  }

  // ---- page tables ----

  /** walkpgdir's new table: the page t, zeroed, for entry i of the directory. */
  function WithTable(mem: Memory, pg: nat, i: nat, t: nat): Memory
    requires pg < NPAGES && i < NENT && t < NPAGES && t != pg
  {
    mem[t := Filled(0)][pg := mem[pg][i := Entry(t, PTE_P + PTE_W + PTE_U)]]
  }

  lemma AddTable(mem: Memory, free: seq<nat>, pg: nat, all: set<nat>, hand: set<nat>, i: nat, t: nat)
    requires Space(mem, free, pg, all, hand) && i < NENT && !HasTable(mem, pg, i) && t in hand && t < NPAGES
    ensures t != pg && Space(WithTable(mem, pg, i, t), free, pg, all, hand - {t})
    ensures forall v: nat :: v < NVIRT ==> Pte(WithTable(mem, pg, i, t), pg, v) == Pte(mem, pg, v)
    ensures HasTable(WithTable(mem, pg, i, t), pg, i) && TableOf(WithTable(mem, pg, i, t), pg, i) == t
  {
    assert Keeps(mem, pg, Dir, pg);
    var mem' := WithTable(mem, pg, i, t);
    EntryParts(t, PTE_P + PTE_W + PTE_U);
    EntryBits(t, PTE_P + PTE_W + PTE_U);
    forall k: nat | k < NENT && HasTable(mem, pg, k) ensures TableOf(mem, pg, k) != t && TableOf(mem, pg, k) != pg {
      assert Keeps(mem, pg, Table(k), TableOf(mem, pg, k));
      Apart(mem, free, pg, all, hand, Dir, Table(k), pg);
    }
    assert forall k: nat :: k < NENT && k != i ==> mem'[pg][k] == mem[pg][k];
    forall v: nat | v < NVIRT ensures Pte(mem', pg, v) == Pte(mem, pg, v) {
      if v / NENT == i { assert mem'[t][v % NENT] == 0; }
    }
    forall l, p: nat | IsPlace(l) ensures Keeps(mem', pg, l, p) <==> Keeps(mem, pg, l, p) || (l == Table(i) && p == t) {
    }
    Rekeep(mem, mem', pg, all, free, hand, hand - {t}, t, Table(i));
  }

  lemma TablePaid(mem: Memory, free: seq<nat>, pg: nat, i: nat, t: nat)
    requires pg < NPAGES && i < NENT && t < NPAGES && t != pg && !HasTable(mem, pg, i) && free != []
    ensures Paid(mem, free, WithTable(mem, pg, i, t), free[1..], pg, i, i + 1)
  {
    var mem' := WithTable(mem, pg, i, t);
    EntryParts(t, PTE_P + PTE_W + PTE_U);
    assert forall k: nat :: k < NENT && k != i ==> mem'[pg][k] == mem[pg][k];
    assert Tables(mem', pg) == Tables(mem, pg) + {i};
  }

  /** Whatever was owned still is, and page t, until now in hand, is kept at l. */
  lemma Rekeep(mem: Memory, mem': Memory, pg: nat, all: set<nat>, free: seq<nat>, hand: set<nat>, hand': set<nat>,
               t: nat, l: Place)
    requires Space(mem, free, pg, all, hand) && hand' == hand - {t} && IsPlace(l) && Keeps(mem', pg, l, t)
    requires forall k, p: nat :: IsPlace(k) && Keeps(mem, pg, k, p) ==> Keeps(mem', pg, k, p)
    ensures forall p: nat :: p in all ==> p in free || p in hand' || Owns(mem', pg, p)
  {
    forall p: nat | p in all ensures p in free || p in hand' || Owns(mem', pg, p) {
      if p !in free && p !in hand {
        var k :| IsPlace(k) && Keeps(mem, pg, k, p);
        assert Keeps(mem', pg, k, p);
      }
    }
  }

  /** The entry of page v set to w, in a table that is there. */
  function WithPte(mem: Memory, pg: nat, v: nat, w: nat): Memory
    requires pg < NPAGES && v < NVIRT && TableOf(mem, pg, v / NENT) < NPAGES
  {
    var t := TableOf(mem, pg, v / NENT);
    mem[t := mem[t][v % NENT := w]]
  }

  /** No other entry changes. */
  lemma StorePte(mem: Memory, free: seq<nat>, pg: nat, all: set<nat>, hand: set<nat>, v: nat, w: nat)
    requires Space(mem, free, pg, all, hand) && v < NVIRT && HasTable(mem, pg, v / NENT)
    ensures TableOf(mem, pg, v / NENT) < NPAGES && WithPte(mem, pg, v, w)[pg] == mem[pg]
    ensures forall u: nat :: u < NVIRT ==> Pte(WithPte(mem, pg, v, w), pg, u) == if u == v then w else Pte(mem, pg, u)
  {
    var i := v / NENT;
    var t := TableOf(mem, pg, i);
    assert Keeps(mem, pg, Table(i), t) && Keeps(mem, pg, Dir, pg);
    Apart(mem, free, pg, all, hand, Dir, Table(i), pg);
    forall u: nat | u < NVIRT && u != v && HasTable(mem, pg, u / NENT)
      ensures Pte(WithPte(mem, pg, v, w), pg, u) == Pte(mem, pg, u)
    {
      if u / NENT != i {
        assert Keeps(mem, pg, Table(u / NENT), TableOf(mem, pg, u / NENT));
        Apart(mem, free, pg, all, hand, Table(i), Table(u / NENT), t);
      }
    }
  }

  /** An entry of the kernel's half, whose pages no space owns. */
  lemma StoreKernel(mem: Memory, free: seq<nat>, pg: nat, all: set<nat>, hand: set<nat>, v: nat, w: nat)
    requires Space(mem, free, pg, all, hand) && USERPAGES <= v < NVIRT && HasTable(mem, pg, v / NENT)
    ensures TableOf(mem, pg, v / NENT) < NPAGES && Space(WithPte(mem, pg, v, w), free, pg, all, hand)
  {
    StorePte(mem, free, pg, all, hand, v, w);
    var mem' := WithPte(mem, pg, v, w);
    forall l, p: nat | IsPlace(l) ensures Keeps(mem', pg, l, p) <==> Keeps(mem, pg, l, p) {
    }
    forall p: nat | p in all ensures p in free || p in hand || Owns(mem', pg, p) {
      if p !in free && p !in hand {
        var k :| IsPlace(k) && Keeps(mem, pg, k, p);
        assert Keeps(mem', pg, k, p);
      }
    }
  }

  /** Mapping page p, in hand, at user page v. */
  lemma StoreUser(mem: Memory, free: seq<nat>, pg: nat, all: set<nat>, hand: set<nat>, v: nat, p: nat, flags: nat)
    requires Space(mem, free, pg, all, hand) && v < USERPAGES && HasTable(mem, pg, v / NENT) && !Mapped(mem, pg, v)
    requires p in hand && p < NPAGES && flags < PGSIZE && Present(flags)
    ensures TableOf(mem, pg, v / NENT) < NPAGES
    ensures Space(WithPte(mem, pg, v, Entry(p, flags)), free, pg, all, hand - {p})
  {
    StorePte(mem, free, pg, all, hand, v, Entry(p, flags));
    EntryParts(p, flags);
    var mem' := WithPte(mem, pg, v, Entry(p, flags));
    forall l, q: nat | IsPlace(l) ensures Keeps(mem', pg, l, q) <==> Keeps(mem, pg, l, q) || (l == User(v) && q == p) {
    }
    Rekeep(mem, mem', pg, all, free, hand, hand - {p}, p, User(v));
  }

  /** Unmapping user page v: its page is in hand. */
  lemma ClearUser(mem: Memory, free: seq<nat>, pg: nat, all: set<nat>, hand: set<nat>, v: nat)
    requires Space(mem, free, pg, all, hand) && v < USERPAGES && Mapped(mem, pg, v)
    ensures TableOf(mem, pg, v / NENT) < NPAGES && Frame(Pte(mem, pg, v)) !in hand
    ensures Space(WithPte(mem, pg, v, 0), free, pg, all, hand + {Frame(Pte(mem, pg, v))})
  {
    var p := Frame(Pte(mem, pg, v));
    assert Keeps(mem, pg, User(v), p);
    StorePte(mem, free, pg, all, hand, v, 0);
    var mem' := WithPte(mem, pg, v, 0);
    forall l, q: nat | IsPlace(l) ensures Keeps(mem', pg, l, q) <==> Keeps(mem, pg, l, q) && l != User(v) {
    }
    forall q: nat | q in all ensures q in free || q in hand + {p} || Owns(mem', pg, q) {
      if q !in free && q !in hand && q != p {
        var k :| IsPlace(k) && Keeps(mem, pg, k, q);
        assert Keeps(mem', pg, k, q);
      }
    }
  }
}
