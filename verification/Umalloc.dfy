/** malloc, free and morecore of umalloc.c. */
module Umalloc {
  import opened Common
  import Blocks
  import opened FreeList

  const UINT: nat := Blocks.UINT
  const UNIT: nat := 8            // bytes in a header
  const MINUNITS: nat := 4096     // the least morecore asks for
  const INTMAX: nat := 0x8000_0000

  /** The units malloc needs for nbytes, in 32-bit arithmetic. */
  function Units(nbytes: nat): (n: nat)
    ensures n > 0
  {
    (nbytes + UNIT - 1) % UINT / UNIT + 1
  }

  /** The block malloc looks for is large enough exactly when the sum in Units does not wrap, and then none smaller
      would be. */
  lemma UnitsSuffice(nbytes: nat)
    requires nbytes < UINT
    ensures UNIT * (Units(nbytes) - 1) >= nbytes <==> nbytes <= UINT - UNIT
    ensures nbytes <= UINT - UNIT ==> UNIT * (Units(nbytes) - 2) < nbytes
  {
  }

  // ---- who owns what ----

  /** Live allocations: their sizes by address. */
  ghost predicate IsLive(live: map<nat, nat>, u: nat) {
    exists a :: a in live && Has(Block(a, live[a]), u)
  }

  /** Every unit obtained from sbrk is either in one free block or in one live allocation. */
  ghost predicate Parted(bs: seq<Block>, live: map<nat, nat>, owned: set<nat>) {
    var parted := (forall u :: u in owned <==> IsFree(bs, u) || IsLive(live, u)) &&
                  (forall u :: !(IsFree(bs, u) && IsLive(live, u)));
    parted
  }

  /** Live allocations are disjoint from each other, above the static header, and their headers are intact. */
  ghost predicate LiveOk(live: map<nat, nat>, size: Fields, base: nat) {
    && (forall a :: a in live ==> base < a && 0 < live[a] && a in size && size[a] == live[a])
    && (forall a, b :: a in live && b in live && a < b ==> a + live[a] <= b)
  }

  lemma LiveUnit(live: map<nat, nat>, size: Fields, base: nat, a: nat)
    requires LiveOk(live, size, base) && a in live
    ensures IsLive(live, a)
  {
    assert Has(Block(a, live[a]), a);
  }

  lemma LiveTaken(bs: seq<Block>, live: map<nat, nat>, owned: set<nat>, a: nat)
    requires Parted(bs, live, owned) && a in live
    ensures Taken(bs, Block(a, live[a]))
  {
    forall u | a <= u < a + live[a] ensures !IsFree(bs, u) {
      assert Has(Block(a, live[a]), u);
      assert IsLive(live, u);
    }
  }

  lemma LessLive(live: map<nat, nat>, size: Fields, base: nat, a: nat, u: nat)
    requires LiveOk(live, size, base) && a in live
    ensures IsLive(live - {a}, u) <==> IsLive(live, u) && !Has(Block(a, live[a]), u)
  {
    var less := live - {a};
    if c :| c in live && c != a && Has(Block(c, live[c]), u) { assert c in less && less[c] == live[c]; }
    if c :| c in less && Has(Block(c, less[c]), u) { assert c in live && c != a; }
  }

  lemma MoreLive(live: map<nat, nat>, a: nat, n: nat, u: nat)
    requires a !in live
    ensures IsLive(live[a := n], u) <==> IsLive(live, u) || Has(Block(a, n), u)
  {
    var more := live[a := n];
    if c :| c in live && Has(Block(c, live[c]), u) { assert c in more && more[c] == live[c]; }
    if Has(Block(a, n), u) { assert a in more && more[a] == n; }
  }

  /** The headers of live allocations are no free block's. */
  lemma LiveNotFree(bs: seq<Block>, live: map<nat, nat>, owned: set<nat>, size: Fields, i: nat, a: nat)
    requires Apart(bs) && Parted(bs, live, owned) && LiveOk(live, size, bs[0].addr) && i < |bs| && a in live
    ensures bs[i].addr != a
  {
    LiveUnit(live, size, bs[0].addr, a);
    assert !IsFree(bs, a) && !Has(bs[i], a);
  }

  /** free: the units of the block go from live to free. */
  lemma FreeParted(bs: seq<Block>, k: nat, live: map<nat, nat>, owned: set<nat>, size: Fields, a: nat)
    requires Apart(bs) && Parted(bs, live, owned) && LiveOk(live, size, bs[0].addr) && a in live && Fits(bs, k, a)
    ensures Taken(bs, Block(a, live[a]))
    ensures Parted(Insert(bs, k, Block(a, live[a])), live - {a}, owned)
    ensures LiveOk(live - {a}, FreeSize(bs, k, Block(a, live[a]), size), bs[0].addr)
  {
    LiveTaken(bs, live, owned, a);
    forall u: nat
      ensures IsFree(Insert(bs, k, Block(a, live[a])), u) <==> IsFree(bs, u) || Has(Block(a, live[a]), u)
      ensures IsLive(live - {a}, u) <==> IsLive(live, u) && !Has(Block(a, live[a]), u)
    {
      InsertUnits(bs, k, Block(a, live[a]), u);
      LessLive(live, size, bs[0].addr, a, u);
    }
    forall c | c in live && c != a ensures bs[k].addr != c { LiveNotFree(bs, live, owned, size, k, c); }
  }

  /** The units of a stretch of addresses. */
  ghost function Stretch(b: Block): set<nat> { set u: nat | u < End(b) && Has(b, u) }

  /** morecore: the units granted by sbrk are free. */
  lemma GrantParted(bs: seq<Block>, k: nat, live: map<nat, nat>, owned: set<nat>, b: Block)
    requires Apart(bs) && Parted(bs, live, owned) && Fits(bs, k, b.addr) && b.size > 0 && Stretch(b) !! owned
    ensures Taken(bs, b) && Parted(Insert(bs, k, b), live, owned + Stretch(b))
  {
    forall u | b.addr <= u < End(b) ensures !IsFree(bs, u) && !IsLive(live, u) { assert u in Stretch(b); }
    forall u: nat ensures IsFree(Insert(bs, k, b), u) <==> IsFree(bs, u) || Has(b, u) {
      InsertUnits(bs, k, b, u);
    }
  }

  /** malloc: the units of the block taken go from free to live. */
  lemma TakeParted(bs: seq<Block>, i: nat, n: nat, live: map<nat, nat>, owned: set<nat>, size: Fields)
    requires Apart(bs) && Parted(bs, live, owned) && LiveOk(live, size, bs[0].addr) && 0 < i < |bs| &&
             0 < n <= bs[i].size
    ensures var c := Cut(bs, i, n); c.addr !in live && Parted(Carve(bs, i, n), live[c.addr := n], owned)
  {
    var c := Cut(bs, i, n);
    CutFree(bs, i, n, c.addr);
    if c.addr in live { LiveUnit(live, size, bs[0].addr, c.addr); }
    forall u: nat
      ensures IsFree(Carve(bs, i, n), u) <==> IsFree(bs, u) && !Has(c, u)
      ensures IsLive(live[c.addr := n], u) <==> IsLive(live, u) || Has(c, u)
      ensures Has(c, u) ==> IsFree(bs, u)
    {
      CarveUnits(bs, i, n, u);
      MoreLive(live, c.addr, n, u);
      CutFree(bs, i, n, u);
    }
  }

  lemma CutFree(bs: seq<Block>, i: nat, n: nat, u: nat)
    requires i < |bs| && n <= bs[i].size
    ensures Has(Cut(bs, i, n), u) ==> IsFree(bs, u)
  {
    assert Has(Cut(bs, i, n), u) ==> Has(bs[i], u);
  }

  /** ... which leaves the live allocations disjoint. */
  lemma TakeLive(bs: seq<Block>, i: nat, n: nat, live: map<nat, nat>, owned: set<nat>, size: Fields, size': Fields)
    requires Apart(bs) && Parted(bs, live, owned) && LiveOk(live, size, bs[0].addr) && 0 < i < |bs| &&
             0 < n <= bs[i].size
    requires forall x :: x in size && x != bs[i].addr && x != Cut(bs, i, n).addr ==> x in size' && size'[x] == size[x]
    requires Cut(bs, i, n).addr in size' && size'[Cut(bs, i, n).addr] == n
    ensures LiveOk(live[Cut(bs, i, n).addr := n], size', bs[0].addr)
  {
    var c := Cut(bs, i, n);
    assert End(bs[0]) < bs[i].addr;
    CutFree(bs, i, n, c.addr);
    forall a | a in live
      ensures a != bs[i].addr && a != c.addr && (a < c.addr ==> a + live[a] <= c.addr) && (c.addr < a ==> End(c) <= a)
    {
      LiveNotFree(bs, live, owned, size, i, a);
      LiveUnit(live, size, bs[0].addr, a);
      assert !IsLive(live, c.addr) && !Has(Block(a, live[a]), c.addr);
      CutFree(bs, i, n, a);
    }
  }

  // ---- the allocator ----

  /** How malloc ends: with a payload address, with 0, or by asking sbrk for a count that is no positive int. */
  datatype Outcome = Got(ap: nat) | NoMemory | Overflow

  /** Steps along a ring of n from just after f to x. */
  function Dist(f: nat, x: nat, n: nat): int { if x > f then x - f - 1 else x + n - f - 1 }

  /** What asking sbrk for nu units, at least 4096, leads to: grant is its answer. */
  ghost predicate SbrkResult(res: Outcome, nu: nat, grant: Option<nat>, owned: set<nat>, owned': set<nat>) {
    var n := Max(nu, MINUNITS);
    if n * UNIT >= INTMAX then res.Overflow? && owned' == owned
    else if grant.None? then res.NoMemory? && owned' == owned
    else res.Got? && owned' == owned + Stretch(Block(grant.value, n))
  }

  class Heap {
    const base: nat           // address of the static header
    var ptr: Fields
    var size: Fields
    var freep: nat            // 0 before the first call of malloc
    ghost var blocks: seq<Block>
    ghost var at: nat         // freep is block at's address
    ghost var live: map<nat, nat>
    ghost var owned: set<nat>

    /** The free list is set up and freep points into it. */
    ghost predicate Shape()
      reads this
    {
      var shape := 0 < base && Apart(blocks) && blocks[0].addr == base && Linked(blocks, ptr, size) &&
                   at < |blocks| && freep == blocks[at].addr;
      shape
    }

    ghost predicate Valid()
      reads this
    {
      var valid := 0 < base && Apart(blocks) && blocks[0].addr == base &&
                   Parted(blocks, live, owned) && LiveOk(live, size, base) &&
                   (if freep == 0 then blocks == [Block(base, 0)] && live == map[] else Shape());
      valid
    }

    constructor (base: nat)
      requires 0 < base
      ensures Valid() && this.base == base && live == map[] && owned == {}
    {
      this.base := base;
      ptr, size, freep := map[], map[], 0;
      blocks, at, live, owned := [Block(base, 0)], 0, map[], {};
    }

    /** free's search for the block's place, from freep around the ring: it ends after at most one round. */
    method FindPlace(bp: nat, ghost k: nat) returns (p: nat)
      requires Shape() && base < bp && Fits(blocks, k, bp)
      requires forall i :: 0 <= i < |blocks| ==> (blocks[i].addr < bp <==> i <= k) && blocks[i].addr != bp
      ensures p == blocks[k].addr
    {
      p := freep;
      ghost var x := at;
      assert LinkAt(blocks, ptr, size, x);
      while !(bp > p && bp < ptr[p])
        invariant 0 <= x < |blocks| && p == blocks[x].addr && LinkAt(blocks, ptr, size, x)
        decreases if x <= k then k - x else k + |blocks| - x
      {
        if p >= ptr[p] && (bp > p || bp < ptr[p]) { break; }
        x := Next(blocks, x);
        p := ptr[p];
        assert LinkAt(blocks, ptr, size, x);
      }
    }
  
    /** free's pointer work at p, which is block k. */
    method Link(bp: nat, p: nat, ghost k: nat)
      requires k < |blocks| && p == blocks[k].addr && bp in size && p != bp && AddrAt(blocks, k + 1) != bp
      requires LinkAt(blocks, ptr, size, k) && LinkAt(blocks, ptr, size, Next(blocks, k)) && blocks[0].addr < bp
      modifies this`ptr, this`size
      ensures ptr == FreePtr(blocks, k, Block(bp, old(size)[bp]), old(ptr))
      ensures size == FreeSize(blocks, k, Block(bp, old(size)[bp]), old(size))
    {
      ghost var b := Block(bp, size[bp]);
      assert bp + size[bp] == ptr[p] <==> JoinsNext(blocks, k, b);
      if bp + size[bp] == ptr[p] {
        size := size[bp := size[bp] + size[ptr[p]]];
        ptr := ptr[bp := ptr[ptr[p]]];
      } else {
        ptr := ptr[bp := ptr[p]];
      }
      if p + size[p] == bp {
        size := size[p := size[p] + size[bp]];
        ptr := ptr[p := ptr[bp]];
      } else {
        ptr := ptr[p := bp];
      }
    }

    /** free, for a block whose units are in no free block. */
    method GiveBack(bp: nat) returns (ghost k: nat)
      requires Shape() && base < bp && bp in size && size[bp] > 0 && Taken(blocks, Block(bp, size[bp]))
      modifies this`ptr, this`size, this`freep, this`blocks, this`at
      ensures Fits(old(blocks), k, bp) && blocks == Insert(old(blocks), k, Block(bp, old(size)[bp]))
      ensures Shape() && size == FreeSize(old(blocks), k, Block(bp, old(size)[bp]), old(size)) && at == k
      ensures freep == old(blocks)[k].addr
    {
      ghost var b, bs := Block(bp, size[bp]), blocks;
      NotABlock(bs, b);
      k := PositionOf(bs, bp);
      var p := FindPlace(bp, k);
      InsertLinked(bs, k, b, ptr, size);
      InsertApart(bs, k, b);
      Link(bp, p, k);
      freep := p;
      blocks, at := Insert(bs, k, b), k;
      assert blocks[k].addr == p;
    }

    /** free: the allocation's units become free, joined with the free blocks they touch. */
    method Free(ap: nat) returns (ghost k: nat)
      requires Valid() && ap > 0 && ap - 1 in live
      modifies this`ptr, this`size, this`freep, this`blocks, this`at, this`live
      ensures Valid() && live == old(live) - {ap - 1} && freep != 0
      ensures Fits(old(blocks), k, ap - 1) && freep == old(blocks)[k].addr
    {
      var bp := ap - 1;
      LiveTaken(blocks, live, owned, bp);
      ghost var bs, size0 := blocks, size;
      k := GiveBack(bp);
      FreeParted(bs, k, live, owned, size0, bp);
      live := live - {bp};
    }

    /** morecore: at least 4096 units from sbrk, whose answer is given, become a free block. */
    method Morecore(nu: nat, grant: Option<nat>) returns (res: Outcome, ghost y: nat)
      requires Valid() && freep != 0 && 0 < nu
      requires grant.Some? ==> base < grant.value && Stretch(Block(grant.value, Max(nu, MINUNITS))) !! owned
      modifies this`ptr, this`size, this`freep, this`blocks, this`at, this`owned
      ensures Valid() && freep != 0 && SbrkResult(res, nu, grant, old(owned), owned)
      ensures !res.Got? ==> blocks == old(blocks)
      ensures res.Got? ==> res.ap == freep && y < |blocks| && blocks[y].size >= nu
    {
      y := 0;
      var n := if nu < MINUNITS then MINUNITS else nu;
      if n * UNIT >= INTMAX { return Overflow, 0; }
      if grant.None? { return NoMemory, 0; }
      var hp := grant.value;
      ghost var b, bs := Block(hp, n), blocks;
      ghost var k := GrantAll(bs, live, owned, ptr, size, b);
      size := size[hp := n];
      ghost var k2 := GiveBack(hp);
      FitsOnce(bs, k, k2, hp);
      owned := owned + Stretch(b);
      JoinedSize(bs, k, b);
      y := From(bs, k, b);
      res := Got(freep);
    }

    /** malloc's header work for taking n units from block x, found at p: the whole block, or its tail. */
    method Unlink(prevp: nat, p: nat, n: nat, ghost x: nat) returns (q: nat)
      requires Apart(blocks) && Linked(blocks, ptr, size)
      requires 0 < x < |blocks| && prevp == blocks[x - 1].addr && p == blocks[x].addr && 0 < n <= blocks[x].size
      modifies this`ptr, this`size
      ensures Linked(Carve(blocks, x, n), ptr, size) && q == Cut(blocks, x, n).addr && q in size && size[q] == n
      ensures forall a :: a in old(size) && a != p && a != q ==> a in size && size[a] == old(size)[a]
    {
      q := p;
      assert LinkAt(blocks, ptr, size, x);
      if size[p] == n {
        WithoutLinked(blocks, x, ptr, size);
        ptr := ptr[prevp := ptr[p]];
        assert Carve(blocks, x, n) == Without(blocks, x);
      } else {
        TailLinked(blocks, x, n, ptr, size);
        size := size[p := size[p] - n];
        q := q + size[p];
        size := size[q := n];
        assert Linked(Carve(blocks, x, n), ptr, size);
      }
    }

    /** ... and the block it makes live. */
    method TakeFrom(prevp: nat, p: nat, n: nat, ghost x: nat) returns (q: nat)
      requires Valid() && freep != 0 && 0 < x < |blocks| && prevp == blocks[x - 1].addr && p == blocks[x].addr
      requires 0 < n <= blocks[x].size
      modifies this`ptr, this`size, this`freep, this`blocks, this`at, this`live
      ensures Valid() && freep != 0 && blocks == Carve(old(blocks), x, n)
      ensures q !in old(live) && live == old(live)[q := n] && q + n == End(old(blocks)[x]) && freep == prevp
    {
      ghost var bs, size0 := blocks, size;
      q := Unlink(prevp, p, n, x);
      ghost var s, live1, prev := Carve(bs, x, n), live[q := n], x - 1;
      Took(bs, x, n, live, owned, size0, size, q, s, live1, prev);
      freep := prevp;
      blocks, at, live := s, prev, live1;
    }

    /** malloc's loop for n units, with what was free, owned and live at the call: block x, at p, is next; big is a
        block that is large enough, once sbrk has been asked. */
    ghost predicate Looking(prevp: nat, p: nat, n: nat, grant: Option<nat>, x: nat, asked: bool, big: nat,
                            bs: seq<Block>, owned0: set<nat>, live0: map<nat, nat>)
      reads this
    {
      var looking := Valid() && freep != 0 && live == live0 && Cursor(prevp, p, x) &&
                     if asked then !Fitting(bs, n) && OneBig(blocks, at, x, n, big) &&
                       SbrkResult(Got(0), n, grant, owned0, owned)
                     else blocks == bs && owned == owned0 && AllSmall(blocks, at, x, n);
      looking
    }

    /** How malloc ends. */
    ghost predicate Allocated(res: Outcome, hp: nat, n: nat, grant: Option<nat>,
                              bs: seq<Block>, owned0: set<nat>, live0: map<nat, nat>)
      reads this
    {
      && (if Fitting(bs, n) then res.Got? && owned == owned0 else SbrkResult(res, n, grant, owned0, owned))
      && (if res.Got? then res.ap == hp + 1 && hp !in live0 && live == live0[hp := n]
          else live == live0 && blocks == bs)
    }

    /** malloc's loop at a block that is large enough: its tail is taken. */
    method Found(prevp: nat, p: nat, n: nat, grant: Option<nat>, ghost x: nat, ghost asked: bool, ghost big: nat,
                 ghost bs: seq<Block>, ghost owned0: set<nat>, ghost live0: map<nat, nat>)
        returns (res: Outcome, ghost hp: nat)
      requires 0 < n && Looking(prevp, p, n, grant, x, asked, big, bs, owned0, live0) && n <= blocks[x].size
      modifies this
      ensures Valid() && freep != 0 && Allocated(res, hp, n, grant, bs, owned0, live0)
      ensures Fitting(bs, n) ==> TailTaken(bs, old(at), n, x, blocks, hp, freep)
    {
      StepOn(blocks, at, x);
      assert x > 0;
      var q := TakeFrom(prevp, p, n, x);
      res, hp := Got(q + 1), q;
    }

    /** One turn of malloc's loop. */
    method Look(prevp: nat, p: nat, n: nat, grant: Option<nat>, ghost x: nat, ghost asked: bool, ghost big: nat,
                ghost bs: seq<Block>, ghost owned0: set<nat>, ghost live0: map<nat, nat>)
        returns (res: Option<Outcome>, ghost hp: nat, prevp': nat, p': nat, ghost x': nat, ghost asked': bool,
                 ghost big': nat)
      requires 0 < n && Looking(prevp, p, n, grant, x, asked, big, bs, owned0, live0)
      requires !asked && grant.Some? ==> base < grant.value && Stretch(Block(grant.value, Max(n, MINUNITS))) !! owned0
      modifies this
      ensures res.Some? ==> Valid() && freep != 0 && Allocated(res.value, hp, n, grant, bs, owned0, live0)
      ensures res.Some? && Fitting(bs, n) ==> x' == x && TailTaken(bs, old(at), n, x', blocks, hp, freep)
      ensures res.None? ==> Looking(prevp', p', n, grant, x', asked', big', bs, owned0, live0)
      ensures res.None? ==> (asked ==> asked') && 0 <= Dist(at, x', |blocks|) < |blocks|
      ensures res.None? && asked == asked' ==> blocks == old(blocks) && at == old(at)
      ensures res.None? && asked == asked' ==> Dist(at, x', |blocks|) == Dist(at, x, |blocks|) + 1
    {
      hp, prevp', p', x', asked', big' := 0, prevp, p, x, asked, big;
      assert LinkAt(blocks, ptr, size, x);
      StepOn(blocks, at, x);
      if size[p] >= n {
        var got;
        got, hp := Found(prevp, p, n, grant, x, asked, big, bs, owned0, live0);
        return Some(got), hp, prevp, p, x, asked, big;
      }
      if p == freep {
        AllSeen(blocks, at, x, n);
        var r;
        r, big' := Morecore(n, grant);
        if !r.Got? { return Some(r), 0, prevp, p, x, asked, big'; }
        p', asked', x' := r.ap, true, at;
        StartOver(blocks, at, n, big');
        StepOn(blocks, at, at);
      } else {
        PassOn(blocks, at, x, n, big);
      }
      assert LinkAt(blocks, ptr, size, x');
      prevp', p', x' := p', ptr[p'], Next(blocks, x');
      res := None;
    }

    /** malloc: a block of the units asked for, taken from a free block that is large enough; only if there is none is
        sbrk asked for more, once, and then the search ends within one more round. */
    method Malloc(nbytes: nat, grant: Option<nat>) returns (res: Outcome, ghost hp: nat, ghost fit: nat)
      requires Valid() && nbytes < UINT
      requires grant.Some? ==> base < grant.value && Stretch(Block(grant.value, Max(Units(nbytes), MINUNITS))) !! owned
      modifies this
      ensures Valid() && freep != 0
      ensures Allocated(res, hp, Units(nbytes), grant, old(blocks), old(owned), old(live))
      ensures var bs, n := old(blocks), Units(nbytes);
              Fitting(bs, n) ==> TailTaken(bs, old(at), n, fit, blocks, hp, freep)
    {
      fit := 0;
      var nunits := (nbytes + UNIT - 1) % UINT / UNIT + 1;
      ghost var bs, owned0, live0 := blocks, owned, live;
      var prevp := Begin();
      var p := ptr[prevp];
      ghost var asked, x: nat, big: nat, at0 := false, Next(blocks, at), 0, at;
      StepOn(blocks, at, at);
      while true
        invariant Looking(prevp, p, nunits, grant, x, asked, big, bs, owned0, live0) &&
                  0 <= Dist(at, x, |blocks|) < |blocks| && (!asked ==> at == at0)
        decreases !asked, |blocks| - Dist(at, x, |blocks|)
      {
        var r;
        r, hp, prevp, p, x, asked, big := Look(prevp, p, nunits, grant, x, asked, big, bs, owned0, live0);
        if r.Some? { return r.value, hp, x; }
      }
    }

    /** The start of malloc: the ring of the static header alone, the first time. */
    method Begin() returns (prevp: nat)
      requires Valid()
      modifies this`ptr, this`size, this`freep, this`at
      ensures Valid() && freep != 0 && prevp == freep && LinkAt(blocks, ptr, size, at)
      ensures at != old(at) ==> !exists i :: 0 <= i < |blocks| && blocks[i].size > 0
    {
      prevp := freep;
      if prevp == 0 {
        ptr, size, freep, prevp := ptr[base := base], size[base := 0], base, base;
        at := 0;
        assert LinkAt(blocks, ptr, size, 0);
        assert |blocks| == 1;
      } else {
        assert LinkAt(blocks, ptr, size, at);
      }
    }

    /** p is block x and prevp the one before it in the ring. */
    ghost predicate Cursor(prevp: nat, p: nat, x: nat)
      reads this
    {
      x < |blocks| && p == blocks[x].addr && prevp == blocks[Prev(blocks, x)].addr
    }
  }

  ghost predicate Fitting(bs: seq<Block>, n: nat) {
    exists i :: 0 <= i < |bs| && bs[i].size >= n
  }

  /** Block x is the first one large enough behind block f, around the ring. */
  ghost predicate NextFit(bs: seq<Block>, f: nat, n: nat, x: nat) {
    0 < x < |bs| && n <= bs[x].size && AllSmall(bs, f, x, n)
  }

  /** From that block the last n units were taken, from hp on, and the next search starts behind the block before. */
  ghost predicate TailTaken(bs: seq<Block>, f: nat, n: nat, x: nat, bs': seq<Block>, hp: nat, freep: nat) {
    var taken := NextFit(bs, f, n, x) && bs' == Carve(bs, x, n) && hp + n == End(bs[x]) && freep == bs[x - 1].addr;
    taken
  }

  function Prev(bs: seq<Block>, i: nat): nat
    requires i < |bs|
  {
    if i > 0 then i - 1 else |bs| - 1
  }

  /** The blocks from just after f up to x are too small. */
  ghost predicate AllSmall(bs: seq<Block>, f: nat, x: nat, n: nat) {
    forall y :: 0 <= y < |bs| && Dist(f, y, |bs|) < Dist(f, x, |bs|) ==> bs[y].size < n
  }

  /** Block y is large enough and still ahead. */
  ghost predicate OneBig(bs: seq<Block>, f: nat, x: nat, n: nat, y: nat) {
    y < |bs| && bs[y].size >= n && Dist(f, y, |bs|) >= Dist(f, x, |bs|)
  }

  /** One step around the ring; from f itself it starts a new round. */
  lemma StepOn(bs: seq<Block>, f: nat, x: nat)
    requires f < |bs| && x < |bs|
    ensures Prev(bs, Next(bs, x)) == x
    ensures 0 <= Dist(f, x, |bs|) < |bs| && (Dist(f, x, |bs|) == |bs| - 1 <==> x == f)
    ensures Dist(f, Next(bs, x), |bs|) == if x == f then 0 else Dist(f, x, |bs|) + 1
    ensures forall y: nat :: y < |bs| && Dist(f, y, |bs|) == Dist(f, x, |bs|) ==> y == x
    ensures forall y: nat :: y < |bs| ==> Dist(f, y, |bs|) >= 0
  {
  }

  /** A block that is too small is passed. */
  lemma PassOn(bs: seq<Block>, f: nat, x: nat, n: nat, y: nat)
    requires f < |bs| && x < |bs| && x != f && bs[x].size < n
    ensures AllSmall(bs, f, x, n) ==> AllSmall(bs, f, Next(bs, x), n)
    ensures OneBig(bs, f, x, n, y) ==> OneBig(bs, f, Next(bs, x), n, y)
  {
    StepOn(bs, f, x);
  }

  /** From freep on every block is ahead. */
  lemma StartOver(bs: seq<Block>, f: nat, n: nat, y: nat)
    requires f < |bs| && y < |bs| && bs[y].size >= n
    ensures OneBig(bs, f, Next(bs, f), n, y)
  {
    StepOn(bs, f, f);
  }

  lemma AllSeen(bs: seq<Block>, f: nat, x: nat, n: nat)
    requires f < |bs| && x == f && AllSmall(bs, f, x, n) && bs[x].size < n
    ensures !Fitting(bs, n)
  {
  }

  /** The state after malloc took n units from block x. */
  lemma Took(bs: seq<Block>, x: nat, n: nat, live: map<nat, nat>, owned: set<nat>, size: Fields, size': Fields,
             q: nat, s: seq<Block>, live': map<nat, nat>, prev: nat)
    requires prev + 1 == x && Apart(bs) && Parted(bs, live, owned) && LiveOk(live, size, bs[0].addr) && 0 < x < |bs| &&
             0 < n <= bs[x].size
    requires q == Cut(bs, x, n).addr && s == Carve(bs, x, n) && live' == live[q := n]
    requires forall a :: a in size && a != bs[x].addr && a != q ==> a in size' && size'[a] == size[a]
    requires q in size' && size'[q] == n
    ensures Apart(s) && s[0] == bs[0] && prev < |s| && s[prev] == bs[prev]
    ensures q !in live && Parted(s, live', owned) && LiveOk(live', size', bs[0].addr)
  {
    CarveApart(bs, x, n);
    TakeParted(bs, x, n, live, owned, size);
    TakeLive(bs, x, n, live, owned, size, size');
  }

  /** Units that sbrk has just granted are in no free block. */
  lemma FreshTaken(bs: seq<Block>, live: map<nat, nat>, owned: set<nat>, size: Fields, b: Block)
    requires Parted(bs, live, owned) && Stretch(b) !! owned
    ensures Taken(bs, b)
  {
    forall u | b.addr <= u < End(b) ensures !IsFree(bs, u) { assert u in Stretch(b); }
  }

  /** The state after morecore put the units granted, b, in the free list. */
  lemma GrantAll(bs: seq<Block>, live: map<nat, nat>, owned: set<nat>, ptr: Fields, size: Fields, b: Block)
      returns (k: nat)
    requires Apart(bs) && Parted(bs, live, owned) && LiveOk(live, size, bs[0].addr) && Linked(bs, ptr, size)
    requires bs[0].addr < b.addr && b.size > 0 && Stretch(b) !! owned
    ensures Taken(bs, b) && Fits(bs, k, b.addr) && Linked(bs, ptr, size[b.addr := b.size])
    ensures Parted(Insert(bs, k, b), live, owned + Stretch(b))
    ensures LiveOk(live, FreeSize(bs, k, b, size[b.addr := b.size]), bs[0].addr)
  {
    FreshTaken(bs, live, owned, size, b);
    NotABlock(bs, b);
    k := PositionOf(bs, b.addr);
    GrantParted(bs, k, live, owned, b);
    SizeLinked(bs, ptr, size, b.addr, b.size);
    GrantLive(bs, k, live, owned, size, b);
  }

  lemma FitsOnce(bs: seq<Block>, k: nat, k': nat, a: nat)
    requires Apart(bs) && Fits(bs, k, a) && Fits(bs, k', a)
    ensures k == k'
  {
  }

  lemma SizeLinked(bs: seq<Block>, ptr: Fields, size: Fields, a: nat, n: nat)
    requires Linked(bs, ptr, size) && forall i :: 0 <= i < |bs| ==> bs[i].addr != a
    ensures Linked(bs, ptr, size[a := n])
  {
    var size' := size[a := n];
    forall i: nat | i < |bs| ensures LinkAt(bs, ptr, size', i) { assert LinkAt(bs, ptr, size, i); }
  }

  lemma GrantLive(bs: seq<Block>, k: nat, live: map<nat, nat>, owned: set<nat>, size: Fields, b: Block)
    requires Apart(bs) && Parted(bs, live, owned) && k < |bs| && b.size > 0 && Stretch(b) !! owned
    requires LiveOk(live, size, bs[0].addr)
    ensures LiveOk(live, FreeSize(bs, k, b, size[b.addr := b.size]), bs[0].addr)
  {
    assert Has(b, b.addr);
    assert b.addr in Stretch(b);
    forall a | a in live ensures bs[k].addr != a && b.addr != a {
      LiveNotFree(bs, live, owned, size, k, a);
      LiveUnit(live, size, bs[0].addr, a);
    }
  }

  /** Cutting the tail off block x. */
  lemma TailLinked(bs: seq<Block>, x: nat, n: nat, ptr: Fields, size: Fields)
    requires Apart(bs) && Linked(bs, ptr, size) && 0 < x < |bs| && 0 < n < bs[x].size
    ensures Linked(Carve(bs, x, n), ptr, size[bs[x].addr := bs[x].size - n][Cut(bs, x, n).addr := n])
  {
    var c, m := Cut(bs, x, n), Block(bs[x].addr, bs[x].size - n);
    var size' := size[bs[x].addr := bs[x].size - n][c.addr := n];
    assert LinkAt(bs, ptr, size, x) && LinkAt(bs, ptr, size, x - 1);
    forall y: nat | y < |bs| && (y < x || x + 1 <= y) ensures StayLink(bs, ptr, size, ptr, size', x, y) {
      assert LinkAt(bs, ptr, size, y);
      if y < x { assert End(bs[y]) < bs[x].addr; } else { assert End(bs[x]) < bs[y].addr; }
    }
    SpliceLinked(bs, x, x + 1, m, ptr, size, ptr, size');
  }

  /** The address of a taken block is no free block's. */
  lemma NotABlock(bs: seq<Block>, b: Block)
    requires Apart(bs) && bs[0].addr < b.addr && b.size > 0 && Taken(bs, b)
    ensures forall i :: 0 <= i < |bs| ==> bs[i].addr != b.addr
  {
    assert !IsFree(bs, b.addr);
    forall i | 0 <= i < |bs| ensures bs[i].addr != b.addr { assert !Has(bs[i], b.addr); }
  }
}
