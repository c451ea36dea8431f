/** pipe.c as it runs, each method one critical section; sleep and wakeup act on the thread table. */
module PipeImpl {
  import opened Common
  import opened Blocks
  import opened PipeSpec
  import opened PipeRun
  import opened PipeCalls

  class PipeDev {
    const data: array<Byte>
    var nread: nat
    var nwrite: nat
    var readopen: bool
    var writeopen: bool
    const threads: array<Thread>
    const killed: array<bool>
    ghost var accepted: seq<Byte>
    ghost var delivered: seq<Byte>

    ghost predicate Valid()
      reads this, data, threads, killed
    {
      && data.Length == PIPESIZE && nread < UINT && nwrite < UINT && IsState(Abs())
    }

    ghost function Now(): Ring
      reads this, data
    {
      Ring(data[..], nread, nwrite, readopen, writeopen)
    }

    ghost function Abs(): State
      reads this, data, threads, killed
    {
      State(Now(), threads[..], killed[..], accepted, delivered)
    }

    /** Thread t is awake in a call, and the ring holds what was put in and not taken out. */
    ghost predicate Runs(t: nat)
      reads this, data, threads, killed
      requires Valid()
    {
      Enabled(Abs(), Section(t)) && Stream(Now(), accepted, delivered)
    }

    /** pipealloc, on a page that holds anything. */
    constructor (page: array<Byte>, n: nat)
      requires page.Length == PIPESIZE
      ensures Valid() && data == page && fresh(threads) && fresh(killed) && Abs() == Start(page[..], n)
    {
      data := page;
      nread, nwrite, readopen, writeopen := 0, 0, true, true;
      threads, killed := new Thread[n](_ => Idle(0)), new bool[n](_ => false);
      accepted, delivered := [], [];
      new;
      assert threads[..] == seq(n, _ => Idle(0)) && killed[..] == seq(n, _ => false);
    }

    /** wakeup: every thread asleep on the channel becomes runnable. */
    method WakeAll(c: Chan)
      modifies threads
      ensures threads[..] == Wakeup(old(threads[..]), c)
    {
      var k := 0;
      while k < threads.Length
        invariant 0 <= k <= threads.Length
        invariant forall j :: 0 <= j < threads.Length ==>
                    threads[j] == if j < k then Wakeup(old(threads[..]), c)[j] else old(threads[..])[j]
      {
        if SleepsOn(threads[k], c) { threads[k] := Woken(threads[k]); }
        k := k + 1;
      }
    }

    /** One byte into the ring. */
    method PutOne(b: Byte)
      requires data.Length == PIPESIZE && IsRing(Now())
      modifies this`nwrite, data
      ensures nwrite < UINT && Now() == PutByte(old(Now()), b)
    {
      data[nwrite % PIPESIZE] := b;
      nwrite := (nwrite + 1) % UINT;
    }

    /** pipewrite's loop up to the point where it is done or has to wait. */
    method CopyIn(src: seq<Byte>, from: nat) returns (i: nat)
      requires Valid() && from <= |src|
      modifies this`nwrite, this`accepted, data
      ensures nwrite < UINT && (Now(), i) == Fill(old(Now()), src, from)
      ensures accepted == old(accepted) + src[from..i]
    {
      i := from;
      while i < |src|
        invariant from <= i <= |src| && IsRing(Now()) && Fill(Now(), src, i) == Fill(old(Now()), src, from)
        invariant accepted == old(accepted) + src[from..i]
      {
        if nwrite == (nread + PIPESIZE) % UINT { return; }
        var next := i + 1;
        FillNext(Now(), src, i, next);
        PutOne(src[i]);
        accepted := accepted + [src[i]];
        Slice(src, from, i, next);
        i := next;
      }
    }

    /** pipewrite from taking the lock to sleeping or returning. */
    method Pipewrite(t: nat) returns (ret: Option<int>)
      requires Valid() && t < threads.Length && threads[t].Writer?
      modifies this`nwrite, this`accepted, data, threads
      ensures Valid() && Abs() == WriteSection(old(Abs()), t)
      ensures if ret.Some? then threads[t] == Idle(ret.value) else threads[t].Writer? && threads[t].asleep
      ensures old(Runs(t)) ==> WriteAnswer(old(Abs()), t, accepted, ret)
    {
      ghost var s, runs := Abs(), Runs(t);
      var src := threads[t].src;
      var i := CopyIn(src, threads[t].i);
      if i < |src| && (!readopen || killed[t]) {
        ret := Some(-1);
        threads[t] := Idle(-1);
      } else {
        WakeAll(OnRead);
        ret := if i < |src| then None else Some(|src|);
        threads[t] := if i < |src| then Writer(src, i, true) else Idle(|src|);
      }
      if runs { WriteAnswers(s, t, ret); }
    }

    /** piperead's copying loop. */
    method CopyOut(n: nat) returns (got: seq<Byte>)
      requires Valid()
      modifies this`nread, this`delivered
      ensures nread < UINT && (Now(), got) == Drain(old(Now()), n)
      ensures delivered == old(delivered) + got
    {
      got := [];
      ghost var whole, left: nat := Drain(Now(), n), n;
      var i := 0;
      assert whole.1 == got + whole.1;
      while i < n
        invariant 0 <= i == |got| <= n && left == n - i && nread < UINT && delivered == old(delivered) + got
        invariant whole.0 == Drain(Now(), left).0 && whole.1 == got + Drain(Now(), left).1
      {
        if nread == nwrite { break; }
        ghost var q, rest: nat := Now(), left - 1;
        var b := data[nread % PIPESIZE];
        nread := (nread + 1) % UINT;
        assert Now() == TakeByte(q) && b == NextByte(q);
        DrainNext(q, left, rest);
        Append(got, b, Drain(Now(), rest).1);
        got := got + [b];
        delivered := delivered + [b];
        i, left := i + 1, rest;
      }
      assert Drain(Now(), left) == (Now(), []);
      assert got + [] == got;
    }

    static lemma Slice(src: seq<Byte>, from: nat, i: nat, next: nat)
      requires from <= i < |src| && next == i + 1
      ensures src[from..next] == src[from..i] + [src[i]]
    {
    }

    static lemma Append(s: seq<Byte>, b: Byte, rest: seq<Byte>)
      ensures s + ([b] + rest) == s + [b] + rest
    {
    }

    /** piperead from taking the lock to sleeping or returning. */
    method Piperead(t: nat) returns (ret: Option<int>, got: seq<Byte>)
      requires Valid() && t < threads.Length && threads[t].Reader?
      modifies this`nread, this`delivered, threads
      ensures Valid() && Abs() == ReadSection(old(Abs()), t)
      ensures delivered == old(delivered) + got
      ensures if ret.Some? then threads[t] == Idle(ret.value) else threads[t].Reader? && threads[t].asleep
      ensures old(Runs(t)) ==> ReadAnswer(old(Abs()), t, got, ret)
    {
      ghost var s, runs := Abs(), Runs(t);
      var n := threads[t].n;
      if nread == nwrite && writeopen {
        got := [];
        ret := if killed[t] then Some(-1) else None;
        threads[t] := if killed[t] then Idle(-1) else Reader(n, true);
      } else {
        got := CopyOut(n);
        WakeAll(OnWrite);
        ret := Some(|got|);
        threads[t] := Idle(|got|);
      }
      if runs { ReadAnswers(s, t, got, ret); }
    }

    /** pipeclose; the page is given back when both ends are closed. */
    method Pipeclose(writable: bool) returns (gone: bool)
      requires Valid()
      modifies this`readopen, this`writeopen, threads
      ensures Valid() && Abs() == CloseEnd(old(Abs()), writable) && gone == Gone(Abs())
    {
      if writable {
        writeopen := false;
        WakeAll(OnRead);
      } else {
        readopen := false;
        WakeAll(OnWrite);
      }
      gone := !readopen && !writeopen;
    }
  }
}
