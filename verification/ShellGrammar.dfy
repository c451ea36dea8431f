/** The language of command lines, declaratively: every way to lay out a command, and what it means. */
module ShellGrammar {
  import opened ShellSpec

  // ---- texts of parsed words ----

  function WordText(s: string, w: Span): string { if w.q <= w.eq <= |s| then s[w.q..w.eq] else "" }

  function WordTexts(s: string, ws: seq<Span>): seq<string> {
    seq(|ws|, k requires 0 <= k < |ws| => WordText(s, ws[k]))
  }

  function RedirText(s: string, r: Redirection<Span>): Redirection<string> { Redirection(WordText(s, r.file), r.input) }

  function RedirTexts(s: string, rs: seq<Redirection<Span>>): seq<Redirection<string>> {
    seq(|rs|, k requires 0 <= k < |rs| => RedirText(s, rs[k]))
  }

  /** The command with the texts of its words. */
  function Text(s: string, c: Cmd<Span>): Cmd<string> {
    match c
    case Exec(args) => Exec(WordTexts(s, args))
    case Redir(d, to) => Redir(Text(s, d), RedirText(s, to))
    case Pipe(l, r) => Pipe(Text(s, l), Text(s, r))
    case List(l, r) => List(Text(s, l), Text(s, r))
    case Back(d) => Back(Text(s, d))
  }

  lemma {:induction false} TextWrap(s: string, c: Cmd<Span>, rs: seq<Redirection<Span>>)
    ensures Text(s, Wrap(c, rs)) == Wrap(Text(s, c), RedirTexts(s, rs))
    decreases |rs|
  {
    if rs != [] {
      TextWrap(s, Redir(c, rs[0]), rs[1..]);
      assert RedirTexts(s, rs)[1..] == RedirTexts(s, rs[1..]);
    }
  }

  // ---- layouts ----

  /** White space, or nothing. */
  predicate IsGap(g: string) { forall k :: 0 <= k < |g| ==> IsSpace(g[k]) }

  predicate IsText(w: string) { w != "" && forall k :: 0 <= k < |w| ==> IsWordChar(w[k]) }

  /** An argument, or a redirection by '<', '>' or '>>', each after a gap. */
  datatype Item = Arg(gap: string, word: string) | Into(gap: string, op: string, gap2: string, file: string)

  predicate IsItem(x: Item) {
    match x
    case Arg(gap, word) => IsGap(gap) && IsText(word)
    case Into(gap, op, gap2, file) =>
      IsGap(gap) && (op == "<" || op == ">" || op == ">>") && IsGap(gap2) && IsText(file)
  }

  function ItemText(x: Item): string {
    match x
    case Arg(gap, word) => gap + word
    case Into(gap, op, gap2, file) => gap + op + gap2 + file
  }

  function ItemsText(xs: seq<Item>): string {
    if xs == [] then "" else ItemText(xs[0]) + ItemsText(xs[1..])
  }

  /** Item k is one, and if it is an argument it is set apart from the word before it. */
  predicate ItemAt(xs: seq<Item>, k: nat)
    requires k < |xs|
  {
    IsItem(xs[k]) && (k > 0 && xs[k].Arg? ==> xs[k].gap != "")
  }

  ghost predicate AreItems(xs: seq<Item>) {
    forall k: nat {:trigger ItemAt(xs, k)} :: k < |xs| ==> ItemAt(xs, k)
  }

  predicate IntoAt(xs: seq<Item>, k: nat)
    requires k < |xs|
  {
    xs[k].Into?
  }

  ghost predicate AllInto(xs: seq<Item>) { forall k: nat {:trigger IntoAt(xs, k)} :: k < |xs| ==> IntoAt(xs, k) }

  function Words(xs: seq<Item>): seq<string> {
    if xs == [] then [] else (if xs[0].Arg? then [xs[0].word] else []) + Words(xs[1..])
  }

  /** '<' opens the file for reading; '>' and '>>' both for writing. */
  function Files(xs: seq<Item>): seq<Redirection<string>> {
    if xs == [] then []
    else (if xs[0].Into? then [Redirection(xs[0].file, xs[0].op == "<")] else []) + Files(xs[1..])
  }

  /** A command line as it is laid out; the gaps stand before the symbols. */
  datatype Layout =
    | Simple(items: seq<Item>)
    | Block(gap: string, line: Layout, gap2: string, files: seq<Item>)
    | Piped(left: Layout, gap: string, right: Layout)
    | Backed(cmd: Layout, gap: string)
    | Listed(left: Layout, gap: string, right: Layout)

  datatype Level = ExecLevel | PipeLevel | BackLevel | LineLevel

  function Rank(f: Level): nat {
    match f
    case ExecLevel => 0
    case PipeLevel => 1
    case BackLevel => 2
    case LineLevel => 3
  }

  /** Which layouts are commands of a level: ';' binds weakest, then '&', then '|'; a block holds any line. */
  ghost predicate IsLayout(f: Level, t: Layout)
    decreases t, Rank(f)
  {
    match f
    case LineLevel =>
      if t.Listed? then IsLayout(BackLevel, t.left) && IsGap(t.gap) && IsLayout(LineLevel, t.right)
      else IsLayout(BackLevel, t)
    case BackLevel => if t.Backed? then IsLayout(BackLevel, t.cmd) && IsGap(t.gap) else IsLayout(PipeLevel, t)
    case PipeLevel =>
      if t.Piped? then IsLayout(ExecLevel, t.left) && IsGap(t.gap) && IsLayout(PipeLevel, t.right)
      else IsLayout(ExecLevel, t)
    case ExecLevel =>
      if t.Simple? then AreItems(t.items) && |Words(t.items)| < MAXARGS
      else t.Block? && IsGap(t.gap) && IsLayout(LineLevel, t.line) && IsGap(t.gap2) && AreItems(t.files) &&
           AllInto(t.files)
  }

  /** A layout of one level is one of the levels above. */
  lemma LayoutUp(t: Layout)
    ensures IsLayout(ExecLevel, t) ==> IsLayout(PipeLevel, t)
    ensures IsLayout(PipeLevel, t) ==> IsLayout(BackLevel, t)
    ensures IsLayout(BackLevel, t) ==> IsLayout(LineLevel, t)
  {
    if !t.Simple? && !t.Block? { assert !IsLayout(ExecLevel, t); }
    if t.Listed? || t.Backed? { assert !IsLayout(PipeLevel, t); }
    if t.Listed? { assert !IsLayout(BackLevel, t); }
  }

  function Render(t: Layout): string {
    match t
    case Simple(items) => ItemsText(items)
    case Block(gap, line, gap2, files) => gap + "(" + Render(line) + gap2 + ")" + ItemsText(files)
    case Piped(left, gap, right) => Render(left) + gap + "|" + Render(right)
    case Backed(cmd, gap) => Render(cmd) + gap + "&"
    case Listed(left, gap, right) => Render(left) + gap + ";" + Render(right)
  }

  function Meaning(t: Layout): Cmd<string> {
    match t
    case Simple(items) => Wrap(Exec(Words(items)), Files(items))
    case Block(_, line, _, files) => Wrap(Meaning(line), Files(files))
    case Piped(left, _, right) => Pipe(Meaning(left), Meaning(right))
    case Backed(cmd, _) => Back(Meaning(cmd))
    case Listed(left, _, right) => List(Meaning(left), Meaning(right))
  }

  /** The line is some layout of the command, and white space may follow. */
  ghost predicate Spells(s: string, c: Cmd<string>) {
    exists t, g :: IsLayout(LineLevel, t) && IsGap(g) && s == Render(t) + g && Meaning(t) == c
  }
}
