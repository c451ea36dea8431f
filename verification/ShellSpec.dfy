/** The command line grammar of sh.c: tokens, and the recursive descent over a cursor. */
module ShellSpec {
  const MAXARGS: nat := 10

  predicate IsSpace(c: char) { c == ' ' || c == '\t' || c == '\r' || c == '\n' || c == '\U{0B}' }

  predicate IsSymbol(c: char) { c == '<' || c == '|' || c == '>' || c == '&' || c == ';' || c == '(' || c == ')' }

  predicate IsWordChar(c: char) { !IsSpace(c) && !IsSymbol(c) }

  /** Parsed commands, with words of type W: positions in the line, or texts. */
  datatype Cmd<W> =
    | Exec(args: seq<W>)
    | Redir(cmd: Cmd<W>, to: Redirection<W>)
    | Pipe(left: Cmd<W>, right: Cmd<W>)
    | List(left: Cmd<W>, right: Cmd<W>)
    | Back(cmd: Cmd<W>)

  /** A file opened for reading as descriptor 0, or for writing as descriptor 1. */
  datatype Redirection<W> = Redirection(file: W, input: bool)

  /** A token's place in the line. */
  datatype Span = Span(q: nat, eq: nat)

  datatype Error = MissingFile | NoBlock | MissingParen | Syntax | TooManyArgs | Leftovers

  datatype Result<T> = Ok(value: T, next: nat) | Err(error: Error)

  // ---- tokens ----

  function SkipSpace(s: string, i: nat): (r: nat)
    requires i <= |s|
    ensures i <= r <= |s| && (r < |s| ==> !IsSpace(s[r]))
    decreases |s| - i
  {
    if i < |s| && IsSpace(s[i]) then SkipSpace(s, i + 1) else i
  }

  function SkipWord(s: string, i: nat): (r: nat)
    requires i <= |s|
    ensures i <= r <= |s| && (r < |s| ==> !IsWordChar(s[r])) && forall k :: i <= k < r ==> IsWordChar(s[k])
    decreases |s| - i
  {
    if i < |s| && IsWordChar(s[i]) then SkipWord(s, i + 1) else i
  }

  /** gettoken's classes of tokens. */
  datatype Kind = End | Symbol(c: char) | Append | Word

  datatype Token = Token(kind: Kind, span: Span, next: nat)

  /** A maximal run of word characters. */
  predicate IsWord(s: string, w: Span) {
    && w.q < w.eq <= |s| && (w.eq < |s| ==> !IsWordChar(s[w.eq]))
    && forall k :: w.q <= k < w.eq ==> IsWordChar(s[k])
  }

  function GetToken(s: string, i: nat): (t: Token)
    requires i <= |s|
    ensures i <= t.next <= |s| && (t.kind != End ==> i < t.next)
    ensures t.kind == Word ==> IsWord(s, t.span)
  {
    var q := SkipSpace(s, i);
    if q == |s| then Token(End, Span(q, q), q)
    else if s[q] == '>' && q + 1 < |s| && s[q + 1] == '>' then Token(Append, Span(q, q + 2), SkipSpace(s, q + 2))
    else if IsSymbol(s[q]) then Token(Symbol(s[q]), Span(q, q + 1), SkipSpace(s, q + 1))
    else
      var eq := SkipWord(s, q);
      Token(Word, Span(q, eq), SkipSpace(s, eq))
  }

  /** peek at a position past any spaces. */
  predicate Sees(s: string, p: nat, toks: string)
    requires p <= |s|
  {
    p < |s| && s[p] in toks
  }

  /** What is seen is a symbol, so there is a token. */
  lemma SeenSymbol(s: string, p: nat, toks: string)
    requires p <= |s| && Sees(s, p, toks) && (forall c :: c in toks ==> IsSymbol(c))
    ensures SkipSpace(s, p) == p && p < GetToken(s, p).next
  {
  }

  // ---- commands ----

  /** All words of a command are words of the line. */
  ghost predicate InLine(s: string, c: Cmd<Span>) {
    match c
    case Exec(args) => forall k :: 0 <= k < |args| ==> IsWord(s, args[k])
    case Redir(d, to) => InLine(s, d) && IsWord(s, to.file)
    case Pipe(l, r) => InLine(s, l) && InLine(s, r)
    case List(l, r) => InLine(s, l) && InLine(s, r)
    case Back(d) => InLine(s, d)
  }

  ghost predicate FilesInLine(s: string, rs: seq<Redirection<Span>>) {
    forall k :: 0 <= k < |rs| ==> IsWord(s, rs[k].file)
  }

  /** A command under redirections, the first one innermost. */
  function Wrap<W>(c: Cmd<W>, rs: seq<Redirection<W>>): Cmd<W>
    decreases |rs|
  {
    if rs == [] then c else Wrap(Redir(c, rs[0]), rs[1..])
  }

  lemma {:induction false} WrapInLine(s: string, c: Cmd<Span>, rs: seq<Redirection<Span>>)
    requires InLine(s, c) && FilesInLine(s, rs)
    ensures InLine(s, Wrap(c, rs))
    decreases |rs|
  {
    if rs != [] { WrapInLine(s, Redir(c, rs[0]), rs[1..]); }
  }

  /** parseredirs: the redirections from i on. */
  function Redirs(s: string, i: nat): (r: Result<seq<Redirection<Span>>>)
    requires i <= |s|
    ensures r.Ok? ==> i <= r.next <= |s| && FilesInLine(s, r.value)
    ensures r != Err(NoBlock)
    decreases |s| - i
  {
    var p := SkipSpace(s, i);
    if !Sees(s, p, "<>") then Ok([], p)
    else
      var op := GetToken(s, p);
      var file := GetToken(s, op.next);
      if file.kind != Word then Err(MissingFile)
      else
        match Redirs(s, file.next)
        case Err(e) => Err(e)
        case Ok(rest, next) => Ok([Redirection(file.span, op.kind == Symbol('<'))] + rest, next)
  }

  /** parseexec's loop: arguments and redirections so far, and those from i on. */
  function ExecArgs(s: string, i: nat, args: seq<Span>,
                    rs: seq<Redirection<Span>>): (r: Result<(seq<Span>, seq<Redirection<Span>>)>)
    requires i <= |s| && (forall k :: 0 <= k < |args| ==> IsWord(s, args[k])) && FilesInLine(s, rs)
    ensures r.Ok? ==> i <= r.next <= |s| && InLine(s, Exec(r.value.0)) && FilesInLine(s, r.value.1)
    ensures r != Err(NoBlock)
    decreases |s| - i
  {
    var p := SkipSpace(s, i);
    if Sees(s, p, "|)&;") then Ok((args, rs), p)
    else
      var t := GetToken(s, p);
      if t.kind == End then Ok((args, rs), t.next)
      else if t.kind != Word then Err(Syntax)
      else if |args| + 1 >= MAXARGS then Err(TooManyArgs)
      else
        match Redirs(s, t.next)
        case Err(e) => Err(e)
        case Ok(more, next) => ExecArgs(s, next, args + [t.span], rs + more)
  }

  /** One more argument, with the redirections behind it. */
  lemma ArgsNext(s: string, i: nat, args: seq<Span>, rs: seq<Redirection<Span>>, more: seq<Redirection<Span>>,
                 next: nat)
    requires i <= |s| && (forall k :: 0 <= k < |args| ==> IsWord(s, args[k])) && FilesInLine(s, rs)
    requires !Sees(s, SkipSpace(s, i), "|)&;") && |args| + 1 < MAXARGS
    requires var t := GetToken(s, SkipSpace(s, i)); t.kind == Word && Redirs(s, t.next) == Ok(more, next)
    ensures var w := GetToken(s, SkipSpace(s, i)).span;
            && (forall k :: 0 <= k < |args + [w]| ==> IsWord(s, (args + [w])[k])) && FilesInLine(s, rs + more)
            && i < next <= |s| && ExecArgs(s, i, args, rs) == ExecArgs(s, next, args + [w], rs + more)
  {
  }

  function ParseExec(s: string, i: nat): (r: Result<Cmd<Span>>)
    requires i <= |s|
    ensures r.Ok? ==> i <= r.next <= |s| && InLine(s, r.value)
    ensures r != Err(NoBlock)
    decreases |s| - i, 1
  {
    var p := SkipSpace(s, i);
    if Sees(s, p, "(") then ParseBlock(s, p)
    else
      match Redirs(s, p)
      case Err(e) => Err(e)
      case Ok(rs, next) =>
        match ExecArgs(s, next, [], rs)
        case Err(e) => Err(e)
        case Ok(ar, end) => WrapInLine(s, Exec(ar.0), ar.1); Ok(Wrap(Exec(ar.0), ar.1), end)
  }

  function ParseBlock(s: string, i: nat): (r: Result<Cmd<Span>>)
    requires i <= |s|
    ensures r.Ok? ==> i <= r.next <= |s| && InLine(s, r.value)
    ensures r == Err(NoBlock) <==> !Sees(s, SkipSpace(s, i), "(")
    decreases |s| - i, 0
  {
    var p := SkipSpace(s, i);
    if !Sees(s, p, "(") then Err(NoBlock)
    else
      match ParseLine(s, GetToken(s, p).next)
      case Err(e) => Err(e)
      case Ok(c, next) =>
        var p2 := SkipSpace(s, next);
        if !Sees(s, p2, ")") then Err(MissingParen)
        else
          match Redirs(s, GetToken(s, p2).next)
          case Err(e) => Err(e)
          case Ok(rs, end) => WrapInLine(s, c, rs); Ok(Wrap(c, rs), end)
  }

  function ParsePipe(s: string, i: nat): (r: Result<Cmd<Span>>)
    requires i <= |s|
    ensures r.Ok? ==> i <= r.next <= |s| && InLine(s, r.value)
    ensures r != Err(NoBlock)
    decreases |s| - i, 2
  {
    match ParseExec(s, i)
    case Err(e) => Err(e)
    case Ok(left, next) =>
      var p := SkipSpace(s, next);
      if !Sees(s, p, "|") then Ok(left, p)
      else
        match ParsePipe(s, GetToken(s, p).next)
        case Err(e) => Err(e)
        case Ok(right, end) => Ok(Pipe(left, right), end)
  }

  /** parseline's loop over '&'. */
  function Backs(s: string, i: nat, c: Cmd<Span>): (r: (Cmd<Span>, nat))
    requires i <= |s| && InLine(s, c)
    ensures i <= r.1 <= |s| && InLine(s, r.0) && SkipSpace(s, r.1) == r.1
    decreases |s| - i
  {
    var p := SkipSpace(s, i);
    if Sees(s, p, "&") then Backs(s, GetToken(s, p).next, Back(c)) else (c, p)
  }

  function ParseLine(s: string, i: nat): (r: Result<Cmd<Span>>)
    requires i <= |s|
    ensures r.Ok? ==> i <= r.next <= |s| && InLine(s, r.value)
    ensures r != Err(NoBlock)
    decreases |s| - i, 3
  {
    match ParsePipe(s, i)
    case Err(e) => Err(e)
    case Ok(c, next) =>
      var (left, p) := Backs(s, next, c);
      if !Sees(s, p, ";") then Ok(left, p)
      else
        match ParseLine(s, GetToken(s, p).next)
        case Err(e) => Err(e)
        case Ok(right, end) => Ok(List(left, right), end)
  }

  /** parsecmd, up to nulterminate. */
  function Parse(s: string): (r: Result<Cmd<Span>>)
    ensures r.Ok? ==> r.next == |s| && InLine(s, r.value)
    ensures r != Err(NoBlock)
  {
    match ParseLine(s, 0)
    case Err(e) => Err(e)
    case Ok(c, next) => if SkipSpace(s, next) == |s| then Ok(c, |s|) else Err(Leftovers)
  }
}
