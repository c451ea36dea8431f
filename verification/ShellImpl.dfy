/** The parser of sh.c as it runs: a cursor over a buffer that ends in NUL, and the pass that terminates the words in
    place. */
module ShellImpl {
  import opened ShellSpec
  import ShellGrammar
  import ShellMeans

  // ---- NUL-terminated words ----

  /** Word w occurs in command c. */
  ghost predicate HasWord(c: Cmd<Span>, w: Span) {
    match c
    case Exec(args) => w in args
    case Redir(d, to) => w == to.file || HasWord(d, w)
    case Pipe(l, r) => HasWord(l, w) || HasWord(r, w)
    case List(l, r) => HasWord(l, w) || HasWord(r, w)
    case Back(d) => HasWord(d, w)
  }

  /** Some word of c ends at k. */
  ghost predicate EndsIn(c: Cmd<Span>, k: nat) {
    exists w :: HasWord(c, w) && w.eq == k
  }

  lemma {:induction false} WordInLine(s: string, c: Cmd<Span>, w: Span)
    requires InLine(s, c) && HasWord(c, w)
    ensures IsWord(s, w)
  {
    match c
    case Exec(args) =>
    case Redir(d, to) => if w != to.file { WordInLine(s, d, w); }
    case Pipe(l, r) => if HasWord(l, w) { WordInLine(s, l, w); } else { WordInLine(s, r, w); }
    case List(l, r) => if HasWord(l, w) { WordInLine(s, l, w); } else { WordInLine(s, r, w); }
    case Back(d) => WordInLine(s, d, w);
  }

  /** The string that starts at position q of a buffer. */
  function CString(b: seq<char>, q: nat): string
    decreases |b| - q
  {
    if q >= |b| || b[q] == '\0' then "" else [b[q]] + CString(b, q + 1)
  }

  lemma {:induction false} CStringIs(b: seq<char>, q: nat, eq: nat)
    requires q <= eq < |b| && b[eq] == '\0' && forall k :: q <= k < eq ==> b[k] != '\0'
    ensures CString(b, q) == b[q..eq]
    decreases eq - q
  {
    if q < eq { CStringIs(b, q + 1, eq); }
  }

  /** The buffer of line s after every word of c was terminated. */
  ghost predicate Terminated(s: string, c: Cmd<Span>, b: seq<char>) {
    |b| == |s| + 1 && forall k :: 0 <= k < |b| ==> b[k] == if EndsIn(c, k) then '\0' else (s + ['\0'])[k]
  }

  /** No terminator lands inside a word: every word reads as its own text. */
  lemma WordsRead(s: string, c: Cmd<Span>, b: seq<char>, w: Span)
    requires InLine(s, c) && Terminated(s, c, b) && '\0' !in s && HasWord(c, w)
    ensures IsWord(s, w) && CString(b, w.q) == s[w.q..w.eq]
  {
    WordInLine(s, c, w);
    assert EndsIn(c, w.eq);
    forall k | w.q <= k < w.eq ensures b[k] == s[k] && b[k] != '\0' {
      if EndsIn(c, k) {
        var x :| HasWord(c, x) && x.eq == k;
        WordInLine(s, c, x);
      }
      assert (s + ['\0'])[k] == s[k];
    }
    CStringIs(b, w.q, w.eq);
    assert b[w.q..w.eq] == s[w.q..w.eq];
  }

  // ---- the parser ----

  /** Redirections read before those of r. */
  function Prepend(rs: seq<Redirection<Span>>, r: Result<seq<Redirection<Span>>>): Result<seq<Redirection<Span>>> {
    match r
    case Err(e) => Err(e)
    case Ok(rest, next) => Ok(rs + rest, next)
  }

  lemma PrependNone(r: Result<seq<Redirection<Span>>>)
    ensures Prepend([], r) == r
  {
    if r.Ok? { assert [] + r.value == r.value; }
  }

  lemma PrependOne(rs: seq<Redirection<Span>>, to: Redirection<Span>, r: Result<seq<Redirection<Span>>>)
    ensures Prepend(rs, Prepend([to], r)) == Prepend(rs + [to], r)
  {
    if r.Ok? { assert rs + ([to] + r.value) == rs + [to] + r.value; }
  }

  class Parser {
    const buf: array<char>
    const es: nat             // where the line ends
    var ps: nat               // the cursor

    ghost predicate Valid()
      reads this, buf
    {
      es < buf.Length && buf[es] == '\0' && ps <= es && '\0' !in buf[..es]
    }

    ghost function Line(): string
      requires es <= buf.Length
      reads this, buf
    {
      buf[..es]
    }

    /** strlen, and the cursor at the start. */
    constructor (buf: array<char>)
      requires '\0' in buf[..]
      ensures Valid() && this.buf == buf && ps == 0
    {
      var k := 0;
      while buf[k] != '\0'
        invariant 0 <= k < buf.Length && '\0' !in buf[..k]
        decreases buf.Length - k
      {
        assert k + 1 < buf.Length by {
          assert buf[..] == buf[..k] + [buf[k]] + buf[k + 1..];
        }
        assert buf[..k + 1] == buf[..k] + [buf[k]];
        k := k + 1;
      }
      this.buf, es, ps := buf, k, 0;
    }

    method SkipSpaces(from: nat) returns (r: nat)
      requires Valid() && from <= es
      ensures r == SkipSpace(Line(), from)
    {
      r := from;
      while r < es && IsSpace(buf[r])
        invariant from <= r <= es && SkipSpace(Line(), from) == SkipSpace(Line(), r)
      {
        r := r + 1;
      }
    }

    method SkipWords(from: nat) returns (r: nat)
      requires Valid() && from <= es
      ensures r == SkipWord(Line(), from)
    {
      r := from;
      while r < es && !IsSpace(buf[r]) && !IsSymbol(buf[r])
        invariant from <= r <= es && SkipWord(Line(), from) == SkipWord(Line(), r)
      {
        r := r + 1;
      }
    }

    /** gettoken */
    method Gettoken() returns (kind: Kind, w: Span)
      requires Valid()
      modifies this`ps
      ensures Valid() && Token(kind, w, ps) == GetToken(Line(), old(ps))
    {
      var q := SkipSpaces(ps);
      var eq := q;
      if buf[q] == '\0' {
        kind := End;
      } else if buf[q] == '>' {
        kind, eq := Symbol('>'), q + 1;
        if buf[eq] == '>' { kind, eq := Append, eq + 1; }
      } else if IsSymbol(buf[q]) {
        kind, eq := Symbol(buf[q]), q + 1;
      } else {
        kind := Word;
        eq := SkipWords(q);
      }
      w := Span(q, eq);
      ps := SkipSpaces(eq);
    }

    /** peek */
    method Peek(toks: string) returns (b: bool)
      requires Valid() && '\0' !in toks
      modifies this`ps
      ensures Valid() && ps == SkipSpace(Line(), old(ps)) && b == Sees(Line(), ps, toks)
    {
      ps := SkipSpaces(ps);
      b := buf[ps] in toks;
    }

    /** parseredirs: the redirections, in order; they go around the command when it is complete. */
    method Parseredirs() returns (r: Result<seq<Redirection<Span>>>)
      requires Valid()
      modifies this`ps
      ensures Valid() && r == Redirs(Line(), old(ps)) && (r.Ok? ==> ps == r.next)
      ensures r.Ok? ==> ShellMeans.FilesFrom(Line(), old(ps), ShellGrammar.RedirTexts(Line(), r.value), ps)
    {
      ghost var whole := Redirs(Line(), ps);
      PrependNone(whole);
      var rs := [];
      while true
        invariant Valid() && whole == Prepend(rs, Redirs(Line(), ps))
        decreases es - ps
      {
        var more := Peek("<>");
        if !more {
          assert rs + [] == rs;
          ShellMeans.RedirsMean(Line(), old(ps));
          return Ok(rs, ps);
        }
        SeenSymbol(Line(), ps, "<>");
        var op, _ := Gettoken();
        var kind, w := Gettoken();
        if kind != Word { return Err(MissingFile); }
        var to := Redirection(w, op == Symbol('<'));
        PrependOne(rs, to, Redirs(Line(), ps));
        rs := rs + [to];
      }
    }

    /** parseexec's loop: the arguments and redirections from the cursor on, after those of rs. */
    method ParseArgs(rs: seq<Redirection<Span>>) returns (r: Result<(seq<Span>, seq<Redirection<Span>>)>)
      requires Valid() && FilesInLine(Line(), rs)
      modifies this`ps
      ensures Valid() && r == ExecArgs(Line(), old(ps), [], rs) && (r.Ok? ==> ps == r.next)
    {
      ghost var whole := ExecArgs(Line(), ps, [], rs);
      var args, all := [], rs;
      while true
        invariant Valid() && FilesInLine(Line(), all) && forall k :: 0 <= k < |args| ==> IsWord(Line(), args[k])
        invariant whole == ExecArgs(Line(), ps, args, all)
        decreases es - ps
      {
        ghost var start := ps;
        var stop := Peek("|)&;");
        if stop { return Ok((args, all), ps); }
        var kind, w := Gettoken();
        if kind == End { return Ok((args, all), ps); }
        if kind != Word { return Err(Syntax); }
        if |args| + 1 >= MAXARGS { return Err(TooManyArgs); }
        var more := Parseredirs();
        if more.Err? { return Err(more.error); }
        ArgsNext(Line(), start, args, all, more.value, ps);
        args, all := args + [w], all + more.value;
      }
    }

    /** parseexec */
    method Parseexec() returns (r: Result<Cmd<Span>>)
      requires Valid()
      modifies this`ps
      ensures Valid() && r == ParseExec(Line(), old(ps)) && (r.Ok? ==> ps == r.next)
      decreases es - ps, 1
    {
      var block := Peek("(");
      if block {
        r := Parseblock();
        return;
      }
      var rs := Parseredirs();
      if rs.Err? { return Err(rs.error); }
      var ar := ParseArgs(rs.value);
      if ar.Err? { return Err(ar.error); }
      return Ok(Wrap(Exec(ar.value.0), ar.value.1), ps);
    }

    /** parseblock */
    method Parseblock() returns (r: Result<Cmd<Span>>)
      requires Valid()
      modifies this`ps
      ensures Valid() && r == ParseBlock(Line(), old(ps)) && (r.Ok? ==> ps == r.next)
      decreases es - ps, 0
    {
      var open := Peek("(");
      if !open { return Err(NoBlock); }
      SeenSymbol(Line(), ps, "(");
      var _, _ := Gettoken();
      var c := Parseline();
      if c.Err? { return Err(c.error); }
      var closed := Peek(")");
      if !closed { return Err(MissingParen); }
      SeenSymbol(Line(), ps, ")");
      var _, _ := Gettoken();
      var rs := Parseredirs();
      if rs.Err? { return Err(rs.error); }
      return Ok(Wrap(c.value, rs.value), ps);
    }

    /** parsepipe */
    method Parsepipe() returns (r: Result<Cmd<Span>>)
      requires Valid()
      modifies this`ps
      ensures Valid() && r == ParsePipe(Line(), old(ps)) && (r.Ok? ==> ps == r.next)
      decreases es - ps, 2
    {
      var left := Parseexec();
      if left.Err? { return Err(left.error); }
      var pipe := Peek("|");
      if !pipe { return Ok(left.value, ps); }
      SeenSymbol(Line(), ps, "|");
      var _, _ := Gettoken();
      var right := Parsepipe();
      if right.Err? { return Err(right.error); }
      return Ok(Pipe(left.value, right.value), ps);
    }

    /** parseline's loop over '&'. */
    method ParseBacks(c: Cmd<Span>) returns (d: Cmd<Span>)
      requires Valid() && InLine(Line(), c)
      modifies this`ps
      ensures Valid() && (d, ps) == Backs(Line(), old(ps), c)
    {
      ghost var whole := Backs(Line(), ps, c);
      d := c;
      while true
        invariant Valid() && InLine(Line(), d) && Backs(Line(), ps, d) == whole
        decreases es - ps
      {
        var more := Peek("&");
        if !more { return; }
        SeenSymbol(Line(), ps, "&");
        var _, _ := Gettoken();
        d := Back(d);
      }
    }

    /** parseline */
    method Parseline() returns (r: Result<Cmd<Span>>)
      requires Valid()
      modifies this`ps
      ensures Valid() && r == ParseLine(Line(), old(ps)) && (r.Ok? ==> ps == r.next)
      decreases es - ps, 3
    {
      var first := Parsepipe();
      if first.Err? { return Err(first.error); }
      var left := ParseBacks(first.value);
      var semi := Peek(";");
      if !semi { return Ok(left, ps); }
      SeenSymbol(Line(), ps, ";");
      var _, _ := Gettoken();
      var right := Parseline();
      if right.Err? { return Err(right.error); }
      return Ok(List(left, right.value), ps);
    }

    /** nulterminate: a NUL goes after every word of the command, and nothing else changes. */
    method Nulterminate(c: Cmd<Span>, ghost s: string)
      requires |s| < buf.Length && InLine(s, c)
      modifies buf
      ensures forall k :: 0 <= k < buf.Length ==> buf[k] == if EndsIn(c, k) then '\0' else old(buf[k])
      decreases c
    {
      match c
      case Exec(args) =>
        var i := 0;
        while i < |args|
          invariant 0 <= i <= |args|
          invariant forall k :: 0 <= k < buf.Length ==>
                    buf[k] == if EndsIn(Exec(args[..i]), k) then '\0' else old(buf[k])
        {
          ExecEnds(args, i);
          buf[args[i].eq] := '\0';
          i := i + 1;
        }
        assert args[..i] == args;
      case Redir(d, to) =>
        RedirEnds(d, to);
        Nulterminate(d, s);
        buf[to.file.eq] := '\0';
      case Pipe(l, r) =>
        BothEnd(c, l, r);
        Nulterminate(l, s);
        Nulterminate(r, s);
      case List(l, r) =>
        BothEnd(c, l, r);
        Nulterminate(l, s);
        Nulterminate(r, s);
      case Back(d) =>
        BackEnds(d);
        Nulterminate(d, s);
    }

    /** parsecmd: the command and, in the buffer, its words terminated; or a panic that leaves the buffer alone. */
    method Parsecmd() returns (r: Result<Cmd<Span>>)
      requires Valid() && ps == 0
      modifies this`ps, buf
      ensures r == Parse(old(Line()))
      ensures forall c ::
                ShellGrammar.Spells(old(Line()), c) <==> r.Ok? && ShellGrammar.Text(old(Line()), r.value) == c
      ensures r.Err? ==> buf[..] == old(buf[..])
      ensures r.Ok? ==> Terminated(old(Line()), r.value, buf[..es + 1]) && buf[es + 1..] == old(buf[es + 1..])
    {
      ghost var s := Line();
      forall c { ShellMeans.ParsesIff(s, c); }
      var c := Parseline();
      if c.Err? { return c; }
      var _ := Peek("");
      if ps != es { return Err(Leftovers); }
      assert forall k :: 0 <= k <= es ==> buf[k] == (s + ['\0'])[k];
      Nulterminate(c.value, s);
      forall k | es < k < buf.Length ensures !EndsIn(c.value, k) { EndsBefore(s, c.value, k); }
      return Ok(c.value, es);
    }
  }

  lemma EndsBefore(s: string, c: Cmd<Span>, k: nat)
    requires InLine(s, c) && |s| < k
    ensures !EndsIn(c, k)
  {
    if w :| HasWord(c, w) && w.eq == k { WordInLine(s, c, w); }
  }

  lemma ExecEnds(args: seq<Span>, i: nat)
    requires i < |args|
    ensures forall k :: EndsIn(Exec(args[..i + 1]), k) <==> EndsIn(Exec(args[..i]), k) || k == args[i].eq
  {
    assert args[..i + 1] == args[..i] + [args[i]];
    forall k | EndsIn(Exec(args[..i]), k) || k == args[i].eq ensures EndsIn(Exec(args[..i + 1]), k) {
      if k == args[i].eq {
        assert HasWord(Exec(args[..i + 1]), args[i]);
      } else {
        var w :| HasWord(Exec(args[..i]), w) && w.eq == k;
        assert HasWord(Exec(args[..i + 1]), w);
      }
    }
  }

  lemma RedirEnds(d: Cmd<Span>, to: Redirection<Span>)
    ensures forall k :: EndsIn(Redir(d, to), k) <==> EndsIn(d, k) || k == to.file.eq
  {
    assert HasWord(Redir(d, to), to.file);
    forall k | EndsIn(d, k) ensures EndsIn(Redir(d, to), k) {
      var w :| HasWord(d, w) && w.eq == k;
      assert HasWord(Redir(d, to), w);
    }
  }

  lemma BothEnd(c: Cmd<Span>, l: Cmd<Span>, r: Cmd<Span>)
    requires c == Pipe(l, r) || c == List(l, r)
    ensures forall k :: EndsIn(c, k) <==> EndsIn(l, k) || EndsIn(r, k)
  {
    forall k | EndsIn(l, k) || EndsIn(r, k) ensures EndsIn(c, k) {
      var w :| (HasWord(l, w) || HasWord(r, w)) && w.eq == k;
      assert HasWord(c, w);
    }
  }

  lemma BackEnds(d: Cmd<Span>)
    ensures forall k :: EndsIn(Back(d), k) <==> EndsIn(d, k)
  {
    forall k | EndsIn(d, k) ensures EndsIn(Back(d), k) {
      var w :| HasWord(d, w) && w.eq == k;
      assert HasWord(Back(d), w);
    }
  }
}
