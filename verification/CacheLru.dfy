/** The buffer that bget recycles is the least recently used one. */
module CacheLru {
  import opened Common
  import opened LogSpec
  import opened BufCache
  import opened CacheRun

  /** The last reference to buffer i is given up between c and c'. */
  predicate LetGo(c: Option<Cache>, c': Option<Cache>, i: nat) {
    && c.Some? && c'.Some? && i < |c.value.bufs| && i < |c'.value.bufs|
    && c.value.bufs[i].refcnt > 0 && c'.value.bufs[i].refcnt == 0
  }

  /** When each buffer was last let go, as binit does with one after the other and brelse from then on. */
  function Stamps(d: Disk, es: seq<Event>): (r: seq<nat>)
    ensures |r| == NBUF && forall i :: 0 <= i < NBUF ==> r[i] < NBUF + |es|
  {
    if es == [] then seq(NBUF, i requires 0 <= i < NBUF => i)
    else
      var k := |es| - 1;
      var r, c, c' := Stamps(d, es[..k]), Run(d, es[..k]), Run(d, es);
      seq(NBUF, i requires 0 <= i < NBUF => if LetGo(c, c', i) then NBUF + k else r[i])
  }

  /** The list goes from the most recent to the least recent. */
  ghost predicate Recent(mru: seq<nat>, st: seq<nat>) {
    && (forall p :: 0 <= p < |mru| ==> mru[p] < |st|)
    && (forall p, q :: 0 <= p < q < |mru| ==> st[mru[p]] > st[mru[q]])
  }

  lemma RestRecent(mru: seq<nat>, st: seq<nat>, rest: seq<nat>)
    requires Recent(mru, st) && mru != [] && rest == mru[1..]
    ensures mru[0] < |st| && Recent(rest, st) && forall x :: x in rest ==> x < |st| && st[mru[0]] > st[x]
  {
    forall x | x in rest ensures x < |st| && st[mru[0]] > st[x] {
      var q :| 0 <= q < |rest| && rest[q] == x;
      assert mru[q + 1] == x;
    }
  }

  lemma ConsRecent(x: nat, w: seq<nat>, st: seq<nat>)
    requires Recent(w, st) && x < |st| && forall y :: y in w ==> y < |st| && st[x] > st[y]
    ensures Recent([x] + w, st)
  {
    forall p | 0 <= p < |w| ensures st[x] > st[w[p]] { assert w[p] in w; }
  }

  lemma {:induction false} WithoutRecent(mru: seq<nat>, st: seq<nat>, i: nat)
    requires Recent(mru, st)
    ensures Recent(Without(mru, i), st) && forall x :: x in Without(mru, i) ==> x in mru && x != i
  {
    if mru != [] {
      var rest := mru[1..];
      RestRecent(mru, st, rest);
      if mru[0] != i {
        WithoutRecent(rest, st, i);
        ConsRecent(mru[0], Without(rest, i), st);
      }
    }
  }

  lemma FrontRecent(mru: seq<nat>, st: seq<nat>, i: nat, t: nat)
    requires Recent(mru, st) && i < |st| && forall x :: 0 <= x < |st| ==> st[x] < t
    ensures Recent(MoveToFront(mru, i), st[i := t])
  {
    var w, st' := Without(mru, i), st[i := t];
    WithoutRecent(mru, st, i);
    forall p | 0 <= p < |w| ensures w[p] != i { assert w[p] in w; }
    assert Recent(w, st');
    ConsRecent(i, w, st');
  }

  /** Only brelse of the last reference lets a buffer go. */
  lemma StepLetsGo(c: Cache, e: Event, i: nat)
    requires Shaped(c) && Step(c, e).Some? && LetGo(Some(c), Step(c, e), i)
    ensures e.Release? && Held(c, e.b) == Some(i) && c.bufs[i].refcnt == 1
    ensures Step(c, e).value.mru == MoveToFront(c.mru, i)
  {
  }

  lemma StepSameList(c: Cache, e: Event)
    requires Shaped(c) && Step(c, e).Some? && forall i: nat :: !LetGo(Some(c), Step(c, e), i)
    ensures Step(c, e).value.mru == c.mru
  {
    if e.Release? { assert !LetGo(Some(c), Step(c, e), Held(c, e.b).value); }
  }

  lemma StepRecent(c: Cache, e: Event, st: seq<nat>, t: nat, st': seq<nat>)
    requires Shaped(c) && Step(c, e).Some? && Recent(c.mru, st) && |st| == |st'| == NBUF
    requires forall i :: 0 <= i < NBUF ==> st[i] < t && st'[i] == if LetGo(Some(c), Step(c, e), i) then t else st[i]
    ensures Recent(Step(c, e).value.mru, st')
  {
    if i: nat :| LetGo(Some(c), Step(c, e), i) {
      StepLetsGo(c, e, i);
      forall j: nat | LetGo(Some(c), Step(c, e), j) ensures j == i { StepLetsGo(c, e, j); }
      FrontRecent(c.mru, st, i, t);
      assert st' == st[i := t];
    } else {
      StepSameList(c, e);
      assert st' == st;
    }
  }

  lemma {:induction false} RunRecent(d: Disk, es: seq<Event>)
    requires Run(d, es).Some?
    ensures Shaped(Run(d, es).value) && Recent(Run(d, es).value.mru, Stamps(d, es))
  {
    CacheRefinesDisk(d, es);
    if es != [] {
      var k := |es| - 1;
      RunRecent(d, es[..k]);
      StepRecent(Run(d, es[..k]).value, es[k], Stamps(d, es[..k]), NBUF + k, Stamps(d, es));
    }
  }

  /** Where the second loop of bget stops. */
  lemma {:induction false} LastFreeAt(c: Cache, k: nat) returns (p: nat)
    requires Shaped(c) && k <= NBUF && LastFree(c, k).Some?
    ensures p < k && c.mru[p] == LastFree(c, k).value && forall q :: p < q < k ==> !Evictable(c.bufs[c.mru[q]])
  {
    if Evictable(c.bufs[c.mru[k - 1]]) { p := k - 1; } else { p := LastFreeAt(c, k - 1); }
  }

  /** In every run: for a block that is not cached, bget recycles, of the buffers nobody holds or has logged, the one
      that was let go longest ago. */
  lemma {:induction false} LeastRecent(d: Disk, es: seq<Event>, b: nat, j: nat)
    requires Run(d, es).Some? && b < |Run(d, es).value.disk| && Shaped(Run(d, es).value)
    requires FirstHit(Run(d, es).value, DISKDEV, b, 0).None? && Bread(Run(d, es).value, b).Some?
    requires j < NBUF && Run(d, es).value.bufs[j].refcnt == 0 && !Run(d, es).value.bufs[j].dirty
    ensures var c, i := Run(d, es).value, Bread(Run(d, es).value, b).value.1;
            && i < NBUF && c.bufs[i].refcnt == 0 && !c.bufs[i].dirty && Stamps(d, es)[i] <= Stamps(d, es)[j]
  {
    var c := Run(d, es).value;
    RunRecent(d, es);
    var p := LastFreeAt(c, NBUF);
    var q := Position(c.mru, NBUF, j);
    assert !(p < q);
  }
}
