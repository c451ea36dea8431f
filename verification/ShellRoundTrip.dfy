/** Every command that has words for words can be written down, and then parses back. */
module ShellRoundTrip {
  import opened ShellSpec
  import opened ShellGrammar
  import opened ShellAccepts

  /** Words are words, and there are fewer than ten arguments. */
  predicate Good(c: Cmd<string>) {
    match c
    case Exec(args) => |args| < MAXARGS && forall k :: 0 <= k < |args| ==> IsText(args[k])
    case Redir(d, to) => Good(d) && IsText(to.file)
    case Pipe(l, r) => Good(l) && Good(r)
    case List(l, r) => Good(l) && Good(r)
    case Back(d) => Good(d)
  }

  predicate GoodFiles(rs: seq<Redirection<string>>) { forall k :: 0 <= k < |rs| ==> IsText(rs[k].file) }

  /** What is under the outer redirections, and those, innermost first. */
  function Core(c: Cmd<string>): (d: Cmd<string>)
    ensures !d.Redir? && (Good(c) ==> Good(d)) && (d == c || d < c) && (c.Redir? ==> d < c)
  {
    if c.Redir? then Core(c.cmd) else c
  }

  function Outer(c: Cmd<string>): (rs: seq<Redirection<string>>)
    ensures Good(c) ==> GoodFiles(rs)
  {
    if c.Redir? then Outer(c.cmd) + [c.to] else []
  }

  lemma {:induction false} WrapSnoc(c: Cmd<string>, rs: seq<Redirection<string>>, r: Redirection<string>)
    ensures Wrap(c, rs + [r]) == Redir(Wrap(c, rs), r)
    decreases |rs|
  {
    if rs == [] {
      assert [r][1..] == [];
    } else {
      WrapSnoc(Redir(c, rs[0]), rs[1..], r);
      assert (rs + [r])[1..] == rs[1..] + [r];
    }
  }

  lemma {:induction false} WrapCore(c: Cmd<string>)
    ensures Wrap(Core(c), Outer(c)) == c
  {
    if c.Redir? {
      WrapCore(c.cmd);
      WrapSnoc(Core(c.cmd), Outer(c.cmd), c.to);
    }
  }

  // ---- the canonical layout: one space before every token, '>' for output, redirections last ----

  function ArgItems(ws: seq<string>): seq<Item> { seq(|ws|, k requires 0 <= k < |ws| => Arg(" ", ws[k])) }

  function IntoItem(r: Redirection<string>): Item { Into(" ", if r.input then "<" else ">", " ", r.file) }

  function IntoItems(rs: seq<Redirection<string>>): seq<Item> {
    seq(|rs|, k requires 0 <= k < |rs| => IntoItem(rs[k]))
  }

  /** Orders the levels of one command by who is laid out through whom. */
  function Turn(f: Level, c: Cmd<string>): nat {
    if c.List? then (Rank(f) + 1) % 4
    else if c.Back? then (Rank(f) + 2) % 4 else if c.Pipe? then (Rank(f) + 3) % 4 else Rank(f)
  }

  /** A command as one level of the grammar; at the lowest it gets parentheses unless it is an exec. */
  function Lay(f: Level, c: Cmd<string>): Layout
    decreases c, Turn(f, c)
  {
    match f
    case LineLevel =>
      if c.List? then Listed(Lay(BackLevel, c.left), " ", Lay(LineLevel, c.right)) else Lay(BackLevel, c)
    case BackLevel => if c.Back? then Backed(Lay(BackLevel, c.cmd), " ") else Lay(PipeLevel, c)
    case PipeLevel => if c.Pipe? then Piped(Lay(ExecLevel, c.left), " ", Lay(PipeLevel, c.right)) else Lay(ExecLevel, c)
    case ExecLevel =>
      var d := Core(c);
      if d.Exec? then Simple(ArgItems(d.args) + IntoItems(Outer(c)))
      else Block(" ", Lay(LineLevel, d), " ", IntoItems(Outer(c)))
  }

  lemma {:induction false} ArgWords(ws: seq<string>)
    ensures Words(ArgItems(ws)) == ws && Files(ArgItems(ws)) == []
    decreases |ws|
  {
    if ws != [] {
      ArgWords(ws[1..]);
      assert ArgItems(ws)[1..] == ArgItems(ws[1..]);
    }
  }

  lemma {:induction false} IntoFiles(rs: seq<Redirection<string>>)
    ensures Words(IntoItems(rs)) == [] && Files(IntoItems(rs)) == rs
    decreases |rs|
  {
    if rs != [] {
      IntoFiles(rs[1..]);
      assert IntoItems(rs)[1..] == IntoItems(rs[1..]);
      assert IntoItems(rs)[0] == IntoItem(rs[0]) && (IntoItem(rs[0]).op == "<" <==> rs[0].input);
    }
  }

  lemma CanonItems(ws: seq<string>, rs: seq<Redirection<string>>)
    requires (forall k :: 0 <= k < |ws| ==> IsText(ws[k])) && GoodFiles(rs)
    ensures AreItems(ArgItems(ws) + IntoItems(rs)) && AreItems(IntoItems(rs)) && AllInto(IntoItems(rs))
    ensures Words(ArgItems(ws) + IntoItems(rs)) == ws && Files(ArgItems(ws) + IntoItems(rs)) == rs
  {
    var xs, ys := ArgItems(ws), IntoItems(rs);
    assert IsGap(" ");
    forall k: nat | k < |ys| ensures ItemAt(ys, k) && IntoAt(ys, k) {}
    forall k: nat | k < |xs + ys| ensures ItemAt(xs + ys, k) {
      if k >= |xs| { assert (xs + ys)[k] == ys[k - |xs|] && ItemAt(ys, k - |xs|); }
    }
    ArgWords(ws);
    IntoFiles(rs);
    WordsOfJoin(xs, ys);
    FilesOfJoin(xs, ys);
    assert ws + [] == ws && [] + rs == rs;
  }

  /** The canonical layout is one, and it means the command. */
  lemma {:induction false} Canonical(f: Level, c: Cmd<string>)
    requires Good(c)
    ensures IsLayout(f, Lay(f, c)) && Meaning(Lay(f, c)) == c
    decreases c, Turn(f, c)
  {
    assert IsGap(" ");
    match f
    case LineLevel =>
      if c.List? {
        Canonical(BackLevel, c.left);
        Canonical(LineLevel, c.right);
      } else {
        Canonical(BackLevel, c);
        LayoutUp(Lay(f, c));
      }
    case BackLevel =>
      if c.Back? {
        Canonical(BackLevel, c.cmd);
      } else {
        Canonical(PipeLevel, c);
        LayoutUp(Lay(f, c));
      }
    case PipeLevel =>
      if c.Pipe? {
        Canonical(ExecLevel, c.left);
        Canonical(PipeLevel, c.right);
      } else {
        Canonical(ExecLevel, c);
        LayoutUp(Lay(f, c));
      }
    case ExecLevel => CanonicalExec(c);
  }

  lemma {:induction false} CanonicalExec(c: Cmd<string>)
    requires Good(c)
    ensures IsLayout(ExecLevel, Lay(ExecLevel, c)) && Meaning(Lay(ExecLevel, c)) == c
    decreases c, Turn(ExecLevel, c), 0
  {
    var d, rs := Core(c), Outer(c);
    WrapCore(c);
    assert IsGap(" ");
    if d.Exec? {
      CanonItems(d.args, rs);
    } else {
      CanonItems([], rs);
      IntoFiles(rs);
      Canonical(LineLevel, d);
    }
  }

  function Print(c: Cmd<string>): string { Render(Lay(LineLevel, c)) }

  /** Round trip: parsing the canonical text of any command returns that command. */
  lemma {:induction false} RoundTrip(c: Cmd<string>)
    requires Good(c)
    ensures Spells(Print(c), c) && Parse(Print(c)).Ok? && Text(Print(c), Parse(Print(c)).value) == c
  {
    Canonical(LineLevel, c);
    assert Print(c) == Render(Lay(LineLevel, c)) + "" && IsGap("");
    Accepts(Print(c), c);
  }

  // ---- and nothing else can be written down ----

  lemma {:induction false} ItemsGood(xs: seq<Item>)
    requires AreItems(xs)
    ensures (forall k :: 0 <= k < |Words(xs)| ==> IsText(Words(xs)[k])) && GoodFiles(Files(xs))
    decreases |xs|
  {
    if xs != [] {
      FirstItem(xs);
      RestItems(xs, 1);
      ItemsGood(xs[1..]);
    }
  }

  lemma {:induction false} WrapGood(c: Cmd<string>, rs: seq<Redirection<string>>)
    requires Good(c) && GoodFiles(rs)
    ensures Good(Wrap(c, rs))
    decreases |rs|
  {
    if rs != [] { WrapGood(Redir(c, rs[0]), rs[1..]); }
  }

  lemma {:induction false} LayoutGood(f: Level, t: Layout)
    requires IsLayout(f, t)
    ensures Good(Meaning(t))
    decreases t, Rank(f)
  {
    match f
    case LineLevel =>
      if t.Listed? {
        LayoutGood(BackLevel, t.left);
        LayoutGood(LineLevel, t.right);
      } else {
        LayoutGood(BackLevel, t);
      }
    case BackLevel => if t.Backed? { LayoutGood(BackLevel, t.cmd); } else { LayoutGood(PipeLevel, t); }
    case PipeLevel =>
      if t.Piped? {
        LayoutGood(ExecLevel, t.left);
        LayoutGood(PipeLevel, t.right);
      } else {
        LayoutGood(ExecLevel, t);
      }
    case ExecLevel =>
      if t.Simple? {
        ItemsGood(t.items);
        WrapGood(Exec(Words(t.items)), Files(t.items));
      } else {
        ItemsGood(t.files);
        LayoutGood(LineLevel, t.line);
        WrapGood(Meaning(t.line), Files(t.files));
      }
  }

  /** The commands that some line parses to are exactly those with words for words and fewer than ten arguments. */
  lemma {:induction false} WritableIff(c: Cmd<string>)
    ensures Good(c) <==> exists s :: Spells(s, c)
  {
    if Good(c) { RoundTrip(c); }
    if s :| Spells(s, c) {
      var t, g :| IsLayout(LineLevel, t) && IsGap(g) && s == Render(t) + g && Meaning(t) == c;
      LayoutGood(LineLevel, t);
    }
  }
}
