/** The parser of sh.c as rules: how the result at one level follows from the results below it, and back. */
module ShellRules {
  import opened ShellSpec

  predicate Holds(s: string, p: nat, c: char) { p < |s| && s[p] == c }

  lemma SkipTwice(s: string, i: nat)
    requires i <= |s|
    ensures SkipSpace(s, SkipSpace(s, i)) == SkipSpace(s, i)
  {
  }

  /** Everything that starts by skipping spaces may as well start past them. */
  lemma Skipped(s: string, i: nat)
    requires i <= |s|
    ensures Redirs(s, i) == Redirs(s, SkipSpace(s, i))
  {
    SkipTwice(s, i);
  }

  lemma SkippedExec(s: string, i: nat)
    requires i <= |s|
    ensures ParseExec(s, i) == ParseExec(s, SkipSpace(s, i))
  {
    SkipTwice(s, i);
  }

  lemma SkippedPipe(s: string, i: nat)
    requires i <= |s|
    ensures ParsePipe(s, i) == ParsePipe(s, SkipSpace(s, i))
  {
    SkippedExec(s, i);
  }

  lemma SkippedLine(s: string, i: nat)
    requires i <= |s|
    ensures ParseLine(s, i) == ParseLine(s, SkipSpace(s, i))
  {
    SkippedPipe(s, i);
  }

  lemma SkippedBacks(s: string, i: nat, c: Cmd<Span>)
    requires i <= |s| && InLine(s, c)
    ensures Backs(s, SkipSpace(s, i), c) == Backs(s, i, c)
  {
    SkipTwice(s, i);
  }

  lemma SkippedArgs(s: string, i: nat, args: seq<Span>, rs: seq<Redirection<Span>>)
    requires i <= |s| && (forall k :: 0 <= k < |args| ==> IsWord(s, args[k])) && FilesInLine(s, rs)
    ensures ExecArgs(s, i, args, rs) == ExecArgs(s, SkipSpace(s, i), args, rs)
  {
    SkipTwice(s, i);
  }

  /** A single symbol. */
  lemma AfterSymbol(s: string, p: nat, c: char, next: nat)
    requires Holds(s, p, c) && IsSymbol(c) && c != '>' && next == p + 1
    ensures GetToken(s, p).next == SkipSpace(s, next) && SkipSpace(s, p) == p
  {
  }

  // ---- redirections ----

  lemma RedirsMore(s: string, i: nat, p: nat, op: Kind, q: nat, w: Span, j: nat, rest: seq<Redirection<Span>>,
                   next: nat)
    requires i <= |s| && q <= |s| && j <= |s| && p == SkipSpace(s, i) && Sees(s, p, "<>")
    requires GetToken(s, p).kind == op && GetToken(s, p).next == SkipSpace(s, q)
    requires GetToken(s, SkipSpace(s, q)).kind == Word && GetToken(s, SkipSpace(s, q)).span == w
    requires GetToken(s, SkipSpace(s, q)).next == SkipSpace(s, j) && Redirs(s, j) == Ok(rest, next)
    ensures Redirs(s, i) == Ok([Redirection(w, op == Symbol('<'))] + rest, next)
  {
    Skipped(s, j);
  }

  // ---- arguments ----

  lemma ArgsDone(s: string, i: nat, p: nat, args: seq<Span>, rs: seq<Redirection<Span>>)
    requires i <= |s| && (forall k :: 0 <= k < |args| ==> IsWord(s, args[k])) && FilesInLine(s, rs)
    requires p == SkipSpace(s, i) && (Sees(s, p, "|)&;") || GetToken(s, p).kind == End)
    ensures ExecArgs(s, i, args, rs) == Ok((args, rs), p)
  {
    SkipTwice(s, i);
  }

  lemma ArgsInv(s: string, i: nat, p: nat, args: seq<Span>, rs: seq<Redirection<Span>>)
      returns (w: Span, n: nat, more: seq<Redirection<Span>>, next: nat)
    requires i <= |s| && (forall k :: 0 <= k < |args| ==> IsWord(s, args[k])) && FilesInLine(s, rs)
    requires p == SkipSpace(s, i) && !Sees(s, p, "|)&;") && GetToken(s, p).kind != End && ExecArgs(s, i, args, rs).Ok?
    ensures GetToken(s, p) == Token(Word, w, n) && Redirs(s, n) == Ok(more, next) && n <= |s| && next <= |s|
    ensures |args| + 1 < MAXARGS && IsWord(s, w) && FilesInLine(s, more)
    ensures (forall k :: 0 <= k < |args + [w]| ==> IsWord(s, (args + [w])[k])) && FilesInLine(s, rs + more)
    ensures ExecArgs(s, i, args, rs) == ExecArgs(s, next, args + [w], rs + more)
  {
    var t := GetToken(s, p);
    w, n := t.span, t.next;
    more, next := Redirs(s, n).value, Redirs(s, n).next;
    ArgsNext(s, i, args, rs, more, next);
  }

  // ---- commands and blocks ----

  lemma ExecRule(s: string, i: nat, rs: seq<Redirection<Span>>, k: nat, args: seq<Span>, all: seq<Redirection<Span>>,
                 end: nat)
    requires i <= |s| && !Holds(s, SkipSpace(s, i), '(') && Redirs(s, i) == Ok(rs, k) && k <= |s| && FilesInLine(s, rs)
    requires ExecArgs(s, k, [], rs) == Ok((args, all), end)
    ensures ParseExec(s, i) == Ok(Wrap(Exec(args), all), end)
  {
    Skipped(s, i);
  }

  lemma ExecInv(s: string, i: nat) returns (rs: seq<Redirection<Span>>, k: nat, args: seq<Span>,
                                            all: seq<Redirection<Span>>, end: nat)
    requires i <= |s| && !Holds(s, SkipSpace(s, i), '(') && ParseExec(s, i).Ok?
    ensures Redirs(s, i) == Ok(rs, k) && k <= |s| && FilesInLine(s, rs)
    ensures ExecArgs(s, k, [], rs) == Ok((args, all), end) && ParseExec(s, i) == Ok(Wrap(Exec(args), all), end)
  {
    Skipped(s, i);
    rs, k := Redirs(s, i).value, Redirs(s, i).next;
    var r := ExecArgs(s, k, [], rs);
    args, all, end := r.value.0, r.value.1, r.next;
  }

  lemma ExecOfBlock(s: string, i: nat, p: nat)
    requires i <= |s| && p == SkipSpace(s, i) && Holds(s, p, '(')
    ensures ParseExec(s, i) == ParseBlock(s, p)
  {
  }

  lemma BlockUnfold(s: string, p: nat, m: nat, c: Cmd<Span>, n: nat, q: nat, m2: nat, rs: seq<Redirection<Span>>,
                    end: nat)
    requires Holds(s, p, '(') && SkipSpace(s, p) == p && m == GetToken(s, p).next && ParseLine(s, m) == Ok(c, n)
    requires n <= |s| && q == SkipSpace(s, n) && Holds(s, q, ')') && m2 == GetToken(s, q).next &&
             Redirs(s, m2) == Ok(rs, end)
    ensures ParseBlock(s, p) == Ok(Wrap(c, rs), end)
  {
  }

  lemma BlockRule(s: string, p: nat, p1: nat, c: Cmd<Span>, n: nat, q: nat, q1: nat, rs: seq<Redirection<Span>>,
                  end: nat)
    requires Holds(s, p, '(') && p1 == p + 1 && ParseLine(s, p1) == Ok(c, n) && n <= |s|
    requires q == SkipSpace(s, n) && Holds(s, q, ')') && q1 == q + 1 && Redirs(s, q1) == Ok(rs, end)
    ensures ParseBlock(s, p) == Ok(Wrap(c, rs), end)
  {
    AfterSymbol(s, p, '(', p1);
    AfterSymbol(s, q, ')', q1);
    SkippedLine(s, p1);
    Skipped(s, q1);
    BlockUnfold(s, p, SkipSpace(s, p1), c, n, q, SkipSpace(s, q1), rs, end);
  }

  lemma BlockInv(s: string, p: nat, p1: nat)
      returns (c: Cmd<Span>, n: nat, q: nat, q1: nat, rs: seq<Redirection<Span>>, end: nat)
    requires Holds(s, p, '(') && p1 == p + 1 && ParseBlock(s, p).Ok?
    ensures ParseLine(s, p1) == Ok(c, n) && n <= |s|
    ensures q == SkipSpace(s, n) && Holds(s, q, ')') && q1 == q + 1 && Redirs(s, q1) == Ok(rs, end)
    ensures ParseBlock(s, p) == Ok(Wrap(c, rs), end)
  {
    AfterSymbol(s, p, '(', p1);
    SkippedLine(s, p1);
    c, n := ParseLine(s, p1).value, ParseLine(s, p1).next;
    q := SkipSpace(s, n);
    q1 := q + 1;
    AfterSymbol(s, q, ')', q1);
    Skipped(s, q1);
    rs, end := Redirs(s, q1).value, Redirs(s, q1).next;
  }

  // ---- '|' ----

  lemma PipeEnd(s: string, i: nat, c: Cmd<Span>, n: nat, p: nat)
    requires i <= |s| && ParseExec(s, i) == Ok(c, n) && n <= |s| && p == SkipSpace(s, n) && !Holds(s, p, '|')
    ensures ParsePipe(s, i) == Ok(c, p)
  {
  }

  lemma PipeMore(s: string, i: nat, c: Cmd<Span>, n: nat, p: nat, next: nat)
    requires i <= |s| && ParseExec(s, i) == Ok(c, n) && n <= |s| && p == SkipSpace(s, n) && Holds(s, p, '|')
    requires next == p + 1
    ensures ParsePipe(s, i) == (match ParsePipe(s, next)
                                case Err(e) => Err(e)
                                case Ok(d, end) => Ok(Pipe(c, d), end))
  {
    AfterSymbol(s, p, '|', next);
    SkippedPipe(s, next);
  }

  lemma PipeInv(s: string, i: nat) returns (c: Cmd<Span>, n: nat)
    requires i <= |s| && ParsePipe(s, i).Ok?
    ensures ParseExec(s, i) == Ok(c, n) && i <= n <= |s|
  {
    c, n := ParseExec(s, i).value, ParseExec(s, i).next;
  }

  // ---- '&' ----

  lemma BacksEnd(s: string, j: nat, c: Cmd<Span>, p: nat)
    requires j <= |s| && InLine(s, c) && p == SkipSpace(s, j) && !Holds(s, p, '&')
    ensures Backs(s, j, c) == (c, p)
  {
  }

  lemma BacksMore(s: string, j: nat, c: Cmd<Span>, p: nat, next: nat)
    requires j <= |s| && InLine(s, c) && p == SkipSpace(s, j) && Holds(s, p, '&') && next == p + 1
    ensures Backs(s, j, c) == Backs(s, next, Back(c))
  {
    AfterSymbol(s, p, '&', next);
    SkippedBacks(s, next, Back(c));
  }

  // ---- ';' ----

  lemma LineEnd(s: string, i: nat, c: Cmd<Span>, n: nat, b: Cmd<Span>, p: nat)
    requires i <= |s| && ParsePipe(s, i) == Ok(c, n) && n <= |s| && InLine(s, c) && Backs(s, n, c) == (b, p)
    requires !Holds(s, p, ';')
    ensures ParseLine(s, i) == Ok(b, p)
  {
  }

  lemma LineMore(s: string, i: nat, c: Cmd<Span>, n: nat, b: Cmd<Span>, p: nat, next: nat)
    requires i <= |s| && ParsePipe(s, i) == Ok(c, n) && n <= |s| && InLine(s, c) && Backs(s, n, c) == (b, p)
    requires Holds(s, p, ';') && next == p + 1
    ensures ParseLine(s, i) == (match ParseLine(s, next)
                                case Err(e) => Err(e)
                                case Ok(d, end) => Ok(List(b, d), end))
  {
    AfterSymbol(s, p, ';', next);
    SkippedLine(s, next);
  }

  lemma LineInv(s: string, i: nat) returns (c: Cmd<Span>, n: nat)
    requires i <= |s| && ParseLine(s, i).Ok?
    ensures ParsePipe(s, i) == Ok(c, n) && i <= n <= |s| && InLine(s, c)
  {
    c, n := ParsePipe(s, i).value, ParsePipe(s, i).next;
  }
}
