/** The free list of umalloc.c as a list of blocks in address order, the static header first. Addresses and sizes are
    in header units. */
module FreeList {
  datatype Block = Block(addr: nat, size: nat)

  function End(b: Block): nat { b.addr + b.size }

  predicate Has(b: Block, u: nat) { b.addr <= u < End(b) }

  /** In address order, disjoint and never adjacent; only the first block, the static header, is empty. */
  predicate Apart(bs: seq<Block>) {
    && |bs| > 0 && bs[0].size == 0
    && (forall i :: 0 < i < |bs| ==> bs[i].size > 0)
    && (forall i, j :: 0 <= i < j < |bs| ==> End(bs[i]) < bs[j].addr)
  }

  predicate IsFree(bs: seq<Block>, u: nat) { exists i :: 0 <= i < |bs| && Has(bs[i], u) }

  /** Position k is where a block at address a belongs: after bs[k] and before the next. */
  predicate Fits(bs: seq<Block>, k: nat, a: nat) {
    k < |bs| && bs[k].addr < a && (k + 1 < |bs| ==> a < bs[k + 1].addr)
  }

  /** There is exactly one such position for any address above the static header that is no block's. */
  lemma {:induction false} PositionOf(bs: seq<Block>, a: nat) returns (k: nat)
    requires Apart(bs) && bs[0].addr < a && forall i :: 0 <= i < |bs| ==> bs[i].addr != a
    ensures Fits(bs, k, a)
    ensures forall i :: 0 <= i < |bs| ==> (bs[i].addr < a <==> i <= k)
  {
    k := 0;
    while k + 1 < |bs| && bs[k + 1].addr < a
      invariant k < |bs| && bs[k].addr < a
    {
      k := k + 1;
    }
  }

  // ---- giving a block back ----

  predicate JoinsNext(bs: seq<Block>, k: nat, b: Block)
    requires k < |bs|
  {
    k + 1 < |bs| && End(b) == bs[k + 1].addr
  }

  predicate JoinsPrev(bs: seq<Block>, k: nat, b: Block)
    requires k < |bs|
  {
    End(bs[k]) == b.addr
  }

  /** The list with blocks i..j-1 replaced by m. */
  function Splice(bs: seq<Block>, i: nat, j: nat, m: Block): seq<Block>
    requires i <= j <= |bs|
  {
    bs[..i] + [m] + bs[j..]
  }

  /** b joined with its neighbours where they touch. */
  function Joined(bs: seq<Block>, k: nat, b: Block): Block
    requires k < |bs|
  {
    var size := if JoinsNext(bs, k, b) then b.size + bs[k + 1].size else b.size;
    if JoinsPrev(bs, k, b) then Block(bs[k].addr, bs[k].size + size) else Block(b.addr, size)
  }

  /** The blocks that the joined block takes the place of. */
  function From(bs: seq<Block>, k: nat, b: Block): nat
    requires k < |bs|
  {
    if JoinsPrev(bs, k, b) then k else k + 1
  }

  function Upto(bs: seq<Block>, k: nat, b: Block): nat
    requires k < |bs|
  {
    if JoinsNext(bs, k, b) then k + 2 else k + 1
  }

  /** The list after free put block b in at position k. */
  function Insert(bs: seq<Block>, k: nat, b: Block): seq<Block>
    requires k < |bs|
  {
    Splice(bs, From(bs, k, b), Upto(bs, k, b), Joined(bs, k, b))
  }

  lemma SpliceApart(bs: seq<Block>, i: nat, j: nat, m: Block)
    requires Apart(bs) && 0 < i <= j <= |bs| && m.size > 0
    requires End(bs[i - 1]) < m.addr && (j < |bs| ==> End(m) < bs[j].addr)
    ensures Apart(Splice(bs, i, j, m)) && Splice(bs, i, j, m)[0] == bs[0]
  {
    var s := Splice(bs, i, j, m);
    forall x, y | 0 <= x < y < |s| ensures End(s[x]) < s[y].addr {
      var x', y' := x - i - 1 + j, y - i - 1 + j;
      assert x < i ==> s[x] == bs[x];
      assert x > i ==> s[x] == bs[x'];
      assert y < i ==> s[y] == bs[y];
      assert y > i ==> s[y] == bs[y'];
      if x < i && y == i && x < i - 1 { assert End(bs[x]) < bs[i - 1].addr; }
      if x == i && y' > j { assert End(bs[j]) < bs[y'].addr; }
    }
  }

  lemma SpliceUnits(bs: seq<Block>, i: nat, j: nat, m: Block, u: nat)
    requires i <= j <= |bs|
    ensures IsFree(Splice(bs, i, j, m), u) <==>
              Has(m, u) || exists x :: 0 <= x < |bs| && (x < i || j <= x) && Has(bs[x], u)
  {
    var s := Splice(bs, i, j, m);
    assert s[i] == m;
    if x :| 0 <= x < |bs| && (x < i || j <= x) && Has(bs[x], u) {
      assert s[if x < i then x else x - j + i + 1] == bs[x];
    }
    if IsFree(s, u) && !Has(m, u) {
      var y :| 0 <= y < |s| && Has(s[y], u);
      assert s[y] == bs[if y < i then y else y - i - 1 + j];
    }
  }

  /** None of block b's units is free. */
  predicate Taken(bs: seq<Block>, b: Block) {
    forall u :: b.addr <= u < End(b) ==> !IsFree(bs, u)
  }

  /** A taken block does not run into the next free one, nor out of the one before. */
  lemma TakenBetween(bs: seq<Block>, k: nat, b: Block)
    requires Apart(bs) && Fits(bs, k, b.addr) && b.size > 0 && Taken(bs, b)
    ensures End(bs[k]) <= b.addr && (k + 1 < |bs| ==> End(b) <= bs[k + 1].addr)
  {
    assert !IsFree(bs, b.addr);
    if k + 1 < |bs| && End(b) > bs[k + 1].addr {
      assert Has(bs[k + 1], bs[k + 1].addr);
      assert IsFree(bs, bs[k + 1].addr);
    }
  }

  lemma InsertApart(bs: seq<Block>, k: nat, b: Block)
    requires Apart(bs) && Fits(bs, k, b.addr) && b.size > 0 && Taken(bs, b)
    ensures Apart(Insert(bs, k, b)) && Insert(bs, k, b)[0] == bs[0]
  {
    TakenBetween(bs, k, b);
    SpliceApart(bs, From(bs, k, b), Upto(bs, k, b), Joined(bs, k, b));
  }

  /** The block it went into is at least as large. */
  lemma JoinedSize(bs: seq<Block>, k: nat, b: Block)
    requires k < |bs|
    ensures From(bs, k, b) < |Insert(bs, k, b)| && Insert(bs, k, b)[From(bs, k, b)].size >= b.size
  {
  }

  /** Exactly the units of b have become free. */
  lemma InsertUnits(bs: seq<Block>, k: nat, b: Block, u: nat)
    requires Apart(bs) && Fits(bs, k, b.addr) && b.size > 0 && Taken(bs, b)
    ensures IsFree(Insert(bs, k, b), u) <==> IsFree(bs, u) || Has(b, u)
  {
    TakenBetween(bs, k, b);
    SpliceUnits(bs, From(bs, k, b), Upto(bs, k, b), Joined(bs, k, b), u);
    assert Has(Joined(bs, k, b), u) <==>
           Has(b, u) || (JoinsPrev(bs, k, b) && Has(bs[k], u)) || (JoinsNext(bs, k, b) && Has(bs[k + 1], u));
  }

  // ---- taking a block out ----

  /** The block malloc takes from block i: all of it, or its tail. */
  function Cut(bs: seq<Block>, i: nat, n: nat): Block
    requires i < |bs| && n <= bs[i].size
  {
    Block(End(bs[i]) - n, n)
  }

  function Without(bs: seq<Block>, i: nat): seq<Block>
    requires i < |bs|
  {
    bs[..i] + bs[i + 1..]
  }

  function Carve(bs: seq<Block>, i: nat, n: nat): seq<Block>
    requires i < |bs| && n <= bs[i].size
  {
    if bs[i].size == n then Without(bs, i) else Splice(bs, i, i + 1, Block(bs[i].addr, bs[i].size - n))
  }

  lemma CarveApart(bs: seq<Block>, i: nat, n: nat)
    requires Apart(bs) && 0 < i < |bs| && 0 < n <= bs[i].size
    ensures Apart(Carve(bs, i, n)) && Carve(bs, i, n)[0] == bs[0]
  {
    if bs[i].size != n { SpliceApart(bs, i, i + 1, Block(bs[i].addr, bs[i].size - n)); }
  }

  lemma WithoutUnits(bs: seq<Block>, i: nat, u: nat)
    requires i < |bs|
    ensures IsFree(Without(bs, i), u) <==> exists x :: 0 <= x < |bs| && x != i && Has(bs[x], u)
  {
    var s := Without(bs, i);
    if x :| 0 <= x < |bs| && x != i && Has(bs[x], u) {
      assert s[if x < i then x else x - 1] == bs[x];
    }
    if y :| 0 <= y < |s| && Has(s[y], u) {
      assert s[y] == bs[if y < i then y else y + 1];
    }
  }

  /** Exactly the units of the block taken are free no more. */
  lemma CarveUnits(bs: seq<Block>, i: nat, n: nat, u: nat)
    requires Apart(bs) && 0 < i < |bs| && 0 < n <= bs[i].size
    ensures IsFree(Carve(bs, i, n), u) <==> IsFree(bs, u) && !Has(Cut(bs, i, n), u)
  {
    if bs[i].size == n {
      WithoutUnits(bs, i, u);
    } else {
      SpliceUnits(bs, i, i + 1, Block(bs[i].addr, bs[i].size - n), u);
    }
    forall x | 0 <= x < |bs| && x != i && Has(bs[x], u) ensures !Has(bs[i], u) {
      if x < i { assert End(bs[x]) < bs[i].addr; } else { assert End(bs[i]) < bs[x].addr; }
    }
  }

  // ---- the ring of pointers ----

  /** Headers in memory: the ptr and size fields by address. */
  type Fields = map<nat, nat>

  function Next(bs: seq<Block>, i: nat): nat
    requires i < |bs|
  {
    if i + 1 < |bs| then i + 1 else 0
  }

  /** Block i's header: its size, and a pointer to the next block's. */
  ghost predicate LinkAt(bs: seq<Block>, ptr: Fields, size: Fields, i: nat)
    requires i < |bs|
  {
    && bs[i].addr in ptr && bs[i].addr in size && size[bs[i].addr] == bs[i].size
    && ptr[bs[i].addr] == bs[Next(bs, i)].addr
  }

  /** The headers in memory form one ring through the blocks in address order, with a single wrap. */
  ghost predicate Linked(bs: seq<Block>, ptr: Fields, size: Fields) {
    forall i: nat :: i < |bs| ==> LinkAt(bs, ptr, size, i)
  }

  /** Where the pointer of the last of the first i blocks leads once blocks i..j-1 are gone. */
  function AddrAt(bs: seq<Block>, j: nat): nat
    requires 0 < |bs| && j <= |bs|
  {
    if j < |bs| then bs[j].addr else bs[0].addr
  }

  /** The headers of the blocks that stay are as before, except the pointer into the gap. */
  ghost predicate StayLinked(bs: seq<Block>, i: nat, j: nat, ptr: Fields, size: Fields, ptr': Fields, size': Fields)
    requires Linked(bs, ptr, size)
  {
    forall x: nat :: x < |bs| && (x < i || j <= x) ==> StayLink(bs, ptr, size, ptr', size', i, x)
  }

  ghost predicate StayLink(bs: seq<Block>, ptr: Fields, size: Fields, ptr': Fields, size': Fields, i: nat, x: nat)
    requires x < |bs| && Linked(bs, ptr, size)
  {
    assert LinkAt(bs, ptr, size, x);
    var a := bs[x].addr;
    a in ptr' && a in size' && size'[a] == size[a] && (x + 1 != i ==> ptr'[a] == ptr[a])
  }

  /** The header of the new block m leads on, and the one before it leads to m. */
  ghost predicate Joint(bs: seq<Block>, i: nat, j: nat, m: Block, ptr': Fields, size': Fields) {
    && 0 < i <= j <= |bs| && m.addr in ptr' && m.addr in size' && size'[m.addr] == m.size
    && ptr'[m.addr] == AddrAt(bs, j) && bs[i - 1].addr in ptr' && ptr'[bs[i - 1].addr] == m.addr
  }

  lemma SpliceBefore(bs: seq<Block>, i: nat, j: nat, m: Block, ptr: Fields, size: Fields, ptr': Fields, size': Fields,
                     y: nat)
    requires Linked(bs, ptr, size) && Joint(bs, i, j, m, ptr', size') &&
             StayLinked(bs, i, j, ptr, size, ptr', size') && y < i
    ensures LinkAt(Splice(bs, i, j, m), ptr', size', y)
  {
    var s := Splice(bs, i, j, m);
    assert LinkAt(bs, ptr, size, y) && StayLink(bs, ptr, size, ptr', size', i, y);
    assert s[y] == bs[y] && Next(s, y) == y + 1;
    if y + 1 < i { assert s[y + 1] == bs[y + 1]; } else { assert s[y + 1] == m; }
  }

  lemma SpliceAt(bs: seq<Block>, i: nat, j: nat, m: Block, ptr': Fields, size': Fields)
    requires Joint(bs, i, j, m, ptr', size')
    ensures LinkAt(Splice(bs, i, j, m), ptr', size', i)
  {
    var s := Splice(bs, i, j, m);
    assert s[i] == m && s[Next(s, i)] == if j < |bs| then bs[j] else bs[0];
  }

  lemma SpliceAfter(bs: seq<Block>, i: nat, j: nat, m: Block, ptr: Fields, size: Fields, ptr': Fields, size': Fields,
                    y: nat, x: nat)
    requires Linked(bs, ptr, size) && Joint(bs, i, j, m, ptr', size') && StayLinked(bs, i, j, ptr, size, ptr', size')
    requires j <= x < |bs| && y == x - j + i + 1
    ensures LinkAt(Splice(bs, i, j, m), ptr', size', y)
  {
    var s := Splice(bs, i, j, m);
    assert LinkAt(bs, ptr, size, x) && StayLink(bs, ptr, size, ptr', size', i, x);
    assert s[y] == bs[x];
    if x + 1 < |bs| {
      assert s[y + 1] == bs[x + 1] && Next(s, y) == y + 1;
    } else {
      assert s[0] == bs[0] && Next(s, y) == 0;
    }
  }

  lemma SpliceLinked(bs: seq<Block>, i: nat, j: nat, m: Block, ptr: Fields, size: Fields, ptr': Fields, size': Fields)
    requires Linked(bs, ptr, size) && Joint(bs, i, j, m, ptr', size') && StayLinked(bs, i, j, ptr, size, ptr', size')
    ensures Linked(Splice(bs, i, j, m), ptr', size')
  {
    var s := Splice(bs, i, j, m);
    forall y: nat | y < |s| ensures LinkAt(s, ptr', size', y) {
      if y < i {
        SpliceBefore(bs, i, j, m, ptr, size, ptr', size', y);
      } else if y == i {
        SpliceAt(bs, i, j, m, ptr', size');
      } else {
        SpliceAfter(bs, i, j, m, ptr, size, ptr', size', y, y - i - 1 + j);
      }
    }
  }

  lemma WithoutLinked(bs: seq<Block>, i: nat, ptr: Fields, size: Fields)
    requires Apart(bs) && Linked(bs, ptr, size) && 0 < i < |bs|
    ensures LinkAt(bs, ptr, size, i) && Linked(Without(bs, i), ptr[bs[i - 1].addr := ptr[bs[i].addr]], size)
  {
    assert LinkAt(bs, ptr, size, i);
    var s, ptr' := Without(bs, i), ptr[bs[i - 1].addr := ptr[bs[i].addr]];
    forall y: nat | y < |s| ensures LinkAt(s, ptr', size, y) {
      var x := if y < i then y else y + 1;
      assert s[y] == bs[x] && LinkAt(bs, ptr, size, x);
      if x < i - 1 { assert End(bs[x]) < bs[i - 1].addr; }
      if x > i { assert End(bs[i - 1]) < bs[x].addr; }
      assert s[Next(s, y)] == if y == i - 1 then bs[Next(bs, i)] else bs[Next(bs, x)];
    }
  }

  /** free's two steps on the headers around position k. */
  function FreePtr(bs: seq<Block>, k: nat, b: Block, ptr: Fields): Fields
    requires k < |bs|
  {
    var next := AddrAt(bs, Upto(bs, k, b));
    if JoinsPrev(bs, k, b) then ptr[b.addr := next][bs[k].addr := next] else ptr[b.addr := next][bs[k].addr := b.addr]
  }

  function FreeSize(bs: seq<Block>, k: nat, b: Block, size: Fields): Fields
    requires k < |bs|
  {
    var n := if JoinsNext(bs, k, b) then b.size + bs[k + 1].size else b.size;
    if JoinsPrev(bs, k, b) then size[b.addr := n][bs[k].addr := bs[k].size + n] else size[b.addr := n]
  }

  lemma InsertStays(bs: seq<Block>, k: nat, b: Block, ptr: Fields, size: Fields)
    requires Apart(bs) && Linked(bs, ptr, size) && Fits(bs, k, b.addr) && b.size > 0 && Taken(bs, b)
    ensures StayLinked(bs, From(bs, k, b), Upto(bs, k, b), ptr, size, FreePtr(bs, k, b, ptr), FreeSize(bs, k, b, size))
  {
    var i, j, ptr', size' := From(bs, k, b), Upto(bs, k, b), FreePtr(bs, k, b, ptr), FreeSize(bs, k, b, size);
    forall x: nat | x < |bs| && (x < i || j <= x) ensures StayLink(bs, ptr, size, ptr', size', i, x) {
      assert LinkAt(bs, ptr, size, x);
      if x < k { assert End(bs[x]) < bs[k].addr; }
      if x > k { assert End(bs[k]) < bs[x].addr; }
      if x > k + 1 { assert End(bs[k + 1]) < bs[x].addr; }
    }
  }

  lemma InsertLinked(bs: seq<Block>, k: nat, b: Block, ptr: Fields, size: Fields)
    requires Apart(bs) && Linked(bs, ptr, size) && Fits(bs, k, b.addr) && b.size > 0 && Taken(bs, b)
    ensures Linked(Insert(bs, k, b), FreePtr(bs, k, b, ptr), FreeSize(bs, k, b, size))
  {
    InsertStays(bs, k, b, ptr, size);
    TakenBetween(bs, k, b);
    assert LinkAt(bs, ptr, size, k);
    if k > 0 { assert LinkAt(bs, ptr, size, k - 1) && End(bs[k - 1]) < bs[k].addr; }
    SpliceLinked(bs, From(bs, k, b), Upto(bs, k, b), Joined(bs, k, b), ptr, size,
                 FreePtr(bs, k, b, ptr), FreeSize(bs, k, b, size));
  }
}
