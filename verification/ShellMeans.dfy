/** Every line that is accepted is a layout of the command it parses to; so the grammar is exact and unambiguous. */
module ShellMeans {
  import opened ShellSpec
  import opened ShellRules
  import opened ShellGrammar
  import opened ShellAccepts

  // ---- gaps and tokens ----

  /** What SkipSpace passed over. */
  lemma {:induction false} Skips(s: string, i: nat, p: nat)
    requires i <= |s| && p == SkipSpace(s, i)
    ensures IsGap(s[i..p])
    decreases |s| - i
  {
    if i < |s| && IsSpace(s[i]) {
      Skips(s, i + 1, p);
      assert s[i..p] == [s[i]] + s[i + 1..p];
    }
  }

  /** The text between two positions stands at the first. */
  lemma Slice(s: string, i: nat, j: nat)
    requires i <= j <= |s|
    ensures At(s, i, s[i..j]) && |s[i..j]| == j - i
  {
  }

  /** A gap and a symbol, from i to n. */
  lemma SymbolSeen(s: string, i: nat, p: nat, n: nat) returns (g: string)
    requires i <= |s| && p == SkipSpace(s, i) < |s| && n == p + 1
    ensures IsGap(g) && |g| == p - i && At(s, i, g + [s[p]]) && n == i + |g| + 1
  {
    g := s[i..p];
    Skips(s, i, p);
    assert s[i..n] == g + [s[p]];
  }

  lemma WordSeen(s: string, w: Span)
    requires IsWord(s, w)
    ensures IsText(WordText(s, w)) && At(s, w.q, WordText(s, w)) && w.q + |WordText(s, w)| == w.eq && WordEnds(s, w.eq)
  {
    var x := WordText(s, w);
    forall k | 0 <= k < |x| ensures IsWordChar(x[k]) { assert x[k] == s[w.q + k]; }
  }

  // ---- redirections ----

  /** The symbol of a redirection, from p to q. */
  lemma OpSeen(s: string, p: nat) returns (op: string, q: nat)
    requires p <= |s| && Sees(s, p, "<>")
    ensures (op == "<" || op == ">" || op == ">>") && At(s, p, op) && q == p + |op|
    ensures GetToken(s, p).next == SkipSpace(s, q) && (GetToken(s, p).kind == Symbol('<') <==> op == "<")
  {
    if s[p] == '>' && p + 1 < |s| && s[p + 1] == '>' {
      op, q := ">>", p + 2;
      assert s[p..q] == [s[p], s[p + 1]] == op;
    } else {
      op, q := [s[p]], p + 1;
      assert s[p..q] == op;
      assert if s[p] == '<' then op == "<" else op == ">" && op[0] != '<';
    }
  }

  /** A token's word, with the gap before it. */
  lemma FileSeen(s: string, q: nat, w: Span)
    requires q <= |s| && IsWord(s, w) && w.q == SkipSpace(s, q)
    ensures var g, x := s[q..w.q], WordText(s, w); IsGap(g) && IsText(x) && At(s, q, g + x) && q + |g + x| == w.eq
  {
    Skips(s, q, w.q);
    WordSeen(s, w);
    Slice(s, q, w.q);
    AtJoin(s, q, s[q..w.q], WordText(s, w), w.q);
  }

  lemma WordStart(s: string, i: nat)
    requires i <= |s| && GetToken(s, i).kind == Word
    ensures GetToken(s, i).span.q == SkipSpace(s, i) && GetToken(s, i).next == SkipSpace(s, GetToken(s, i).span.eq)
  {
  }

  lemma IntoText(s: string, i: nat, g: string, p: nat, op: string, q: nat, g2: string, f: string, j: nat)
    requires At(s, i, g) && p == i + |g| && At(s, p, op) && q == p + |op| && At(s, q, g2 + f) && j == q + |g2 + f|
    ensures At(s, i, g + op + g2 + f) && j == i + |g + op + g2 + f|
  {
    AtJoin(s, i, g, op, p);
    AtJoin(s, i, g + op, g2 + f, q);
    Assoc(g + op, g2, f);
  }

  /** One redirection, from i to j. */
  lemma IntoSeen(s: string, i: nat, p: nat) returns (x: Item, j: nat)
    requires i <= |s| && p == SkipSpace(s, i) && Sees(s, p, "<>") && GetToken(s, GetToken(s, p).next).kind == Word
    ensures x.Into? && IsItem(x) && At(s, i, ItemText(x)) && j == i + |ItemText(x)| && WordEnds(s, j)
    ensures var op, file := GetToken(s, p), GetToken(s, GetToken(s, p).next);
            && Redirection(x.file, x.op == "<") == RedirText(s, Redirection(file.span, op.kind == Symbol('<')))
            && file.next == SkipSpace(s, j)
  {
    var op, q := OpSeen(s, p);
    var file := GetToken(s, GetToken(s, p).next);
    var w := file.span;
    SkipTwice(s, q);
    WordStart(s, SkipSpace(s, q));
    FileSeen(s, q, w);
    WordSeen(s, w);
    Skips(s, i, p);
    Slice(s, i, p);
    var g, g2, x2 := s[i..p], s[q..w.q], WordText(s, w);
    x, j := Into(g, op, g2, x2), w.eq;
    IntoText(s, i, g, p, op, q, g2, x2, j);
  }

  lemma RedirsOne(s: string, i: nat, p: nat)
    requires i <= |s| && p == SkipSpace(s, i) && Sees(s, p, "<>") && Redirs(s, i).Ok?
    ensures var op, file := GetToken(s, p), GetToken(s, GetToken(s, p).next);
            && file.kind == Word && Redirs(s, file.next).Ok?
            && Redirs(s, i) == Ok([Redirection(file.span, op.kind == Symbol('<'))] + Redirs(s, file.next).value,
                                  Redirs(s, file.next).next)
  {
  }

  lemma ItemsCons(s: string, i: nat, x: Item, k: nat, xs: seq<Item>, j: nat)
    requires At(s, i, ItemText(x)) && k == i + |ItemText(x)| && At(s, k, ItemsText(xs)) && j == k + |ItemsText(xs)|
    ensures At(s, i, ItemsText([x] + xs)) && j == i + |ItemsText([x] + xs)|
    ensures Files([x] + xs) == (if x.Into? then [Redirection(x.file, x.op == "<")] else []) + Files(xs)
    ensures Words([x] + xs) == (if x.Arg? then [x.word] else []) + Words(xs)
  {
    assert ([x] + xs)[1..] == xs;
    AtJoin(s, i, ItemText(x), ItemsText(xs), k);
  }

  lemma IntoCons(s: string, i: nat, x: Item, k: nat, xs: seq<Item>, j: nat, r: Redirection<Span>,
                 v: seq<Redirection<Span>>)
    requires x.Into? && IsItem(x) && At(s, i, ItemText(x)) && k == i + |ItemText(x)|
    requires AreItems(xs) && AllInto(xs) && At(s, k, ItemsText(xs)) && j == k + |ItemsText(xs)|
    requires RedirText(s, r) == Redirection(x.file, x.op == "<") && RedirTexts(s, v) == Files(xs)
    ensures AreItems([x] + xs) && AllInto([x] + xs) && At(s, i, ItemsText([x] + xs)) && j == i + |ItemsText([x] + xs)|
    ensures RedirTexts(s, [r] + v) == Files([x] + xs)
  {
    ItemsCons(s, i, x, k, xs, j);
    RedirsCons(s, r, v);
    forall n: nat | n < |[x] + xs| ensures ItemAt([x] + xs, n) && IntoAt([x] + xs, n) {
      if n > 0 { assert ItemAt(xs, n - 1) && IntoAt(xs, n - 1); }
    }
  }

  lemma {:induction false} RedirsSeen(s: string, i: nat) returns (xs: seq<Item>, j: nat)
    requires i <= |s| && Redirs(s, i).Ok?
    ensures AreItems(xs) && AllInto(xs) && At(s, i, ItemsText(xs)) && j == i + |ItemsText(xs)|
    ensures Redirs(s, i).next == SkipSpace(s, j) && RedirTexts(s, Redirs(s, i).value) == Files(xs)
    ensures xs != [] ==> WordEnds(s, j)
    decreases |s| - i
  {
    var p := SkipSpace(s, i);
    if !Sees(s, p, "<>") {
      xs, j := [], i;
      assert At(s, i, "");
    } else {
      RedirsOne(s, i, p);
      var op, file := GetToken(s, p), GetToken(s, GetToken(s, p).next);
      var x, k := IntoSeen(s, i, p);
      Skipped(s, k);
      var rest, end := RedirsSeen(s, k);
      xs, j := [x] + rest, end;
      IntoCons(s, i, x, k, rest, j, Redirection(file.span, op.kind == Symbol('<')), Redirs(s, k).value);
    }
  }

  /** From i to j stand redirections to these files, and white space. */
  ghost predicate FilesFrom(s: string, i: nat, files: seq<Redirection<string>>, j: nat) {
    && i <= j <= |s|
    && exists xs, g :: AreItems(xs) && AllInto(xs) && IsGap(g) && s[i..j] == ItemsText(xs) + g && Files(xs) == files
  }

  lemma FilesUpTo(s: string, i: nat, xs: seq<Item>, j: nat, n: nat)
    requires AreItems(xs) && AllInto(xs) && At(s, i, ItemsText(xs)) && i + |ItemsText(xs)| == j <= n <= |s|
    requires IsGap(s[j..n])
    ensures FilesFrom(s, i, Files(xs), n)
  {
    var g := s[j..n];
    assert s[i..n] == s[i..j] + g;
  }

  lemma RedirsMean(s: string, i: nat)
    requires i <= |s| && Redirs(s, i).Ok?
    ensures FilesFrom(s, i, RedirTexts(s, Redirs(s, i).value), Redirs(s, i).next)
  {
    var xs, j := RedirsSeen(s, i);
    var n := Redirs(s, i).next;
    Skips(s, j, n);
    FilesUpTo(s, i, xs, j, n);
  }

  // ---- arguments ----

  /** One argument, from i to j; behind a word its gap is not empty. */
  lemma ArgSeen(s: string, i: nat, p: nat, behind: bool) returns (x: Item, j: nat)
    requires i <= |s| && p == SkipSpace(s, i) && GetToken(s, p).kind == Word && (behind ==> WordEnds(s, i))
    ensures x.Arg? && IsItem(x) && At(s, i, ItemText(x)) && j == i + |ItemText(x)| && WordEnds(s, j)
    ensures x.word == WordText(s, GetToken(s, p).span) && GetToken(s, p).next == SkipSpace(s, j)
    ensures behind ==> x.gap != ""
  {
    SkipTwice(s, i);
    WordStart(s, p);
    var w := GetToken(s, p).span;
    FileSeen(s, i, w);
    WordSeen(s, w);
    x, j := Arg(s[i..w.q], WordText(s, w)), w.eq;
  }

  lemma JoinItems(s: string, i: nat, xs: seq<Item>, k: nat, ys: seq<Item>, j: nat)
    requires AreItems(xs) && AreItems(ys) && At(s, i, ItemsText(xs)) && k == i + |ItemsText(xs)|
    requires At(s, k, ItemsText(ys)) && j == k + |ItemsText(ys)|
    requires xs != [] && ys != [] && ys[0].Arg? ==> ys[0].gap != ""
    ensures AreItems(xs + ys) && At(s, i, ItemsText(xs + ys)) && j == i + |ItemsText(xs + ys)|
    ensures Words(xs + ys) == Words(xs) + Words(ys) && Files(xs + ys) == Files(xs) + Files(ys)
  {
    ItemsJoin(xs, ys);
    WordsOfJoin(xs, ys);
    FilesOfJoin(xs, ys);
    AtJoin(s, i, ItemsText(xs), ItemsText(ys), k);
    forall n: nat | n < |xs + ys| ensures ItemAt(xs + ys, n) {
      if n < |xs| { assert ItemAt(xs, n); } else { assert ItemAt(ys, n - |xs|); }
    }
  }

  /** parseexec's loop from i on has read these items. */
  ghost predicate SeenArgs(s: string, i: nat, args: seq<Span>, rs: seq<Redirection<Span>>,
                           r: Result<(seq<Span>, seq<Redirection<Span>>)>, xs: seq<Item>, j: nat)
  {
    var seen := AreItems(xs) && At(s, i, ItemsText(xs)) && j == i + |ItemsText(xs)| && r.Ok? &&
                r.next == SkipSpace(s, j) && WordTexts(s, r.value.0) == WordTexts(s, args) + Words(xs) &&
                RedirTexts(s, r.value.1) == RedirTexts(s, rs) + Files(xs) &&
                (|args| < MAXARGS ==> |r.value.0| < MAXARGS);
    seen
  }

  lemma ArgsStop(s: string, i: nat, args: seq<Span>, rs: seq<Redirection<Span>>)
    requires i <= |s| && (forall k :: 0 <= k < |args| ==> IsWord(s, args[k])) && FilesInLine(s, rs)
    requires ExecArgs(s, i, args, rs) == Ok((args, rs), SkipSpace(s, i))
    ensures SeenArgs(s, i, args, rs, ExecArgs(s, i, args, rs), [], i)
  {
    assert At(s, i, "");
  }

  lemma SeenWords(s: string, args: seq<Span>, x: Item, fs: seq<Item>, w: Span, ys: seq<Item>, zs: seq<Item>)
    requires x.Arg? && WordText(s, w) == x.word && AllInto(fs) && zs == fs + ys
    ensures WordTexts(s, args + [w]) + Words(ys) == WordTexts(s, args) + Words([x] + zs)
  {
    WordsOfJoin(fs, ys);
    IntoNoWords(fs);
    assert Words(zs) == Words(ys);
    WordsJoin(s, args, [w], [], []);
    assert WordTexts(s, [w]) == [x.word];
    WordsOfJoin([x], zs);
    assert Words([x]) == [x.word];
    Assoc(WordTexts(s, args), [x.word], Words(ys));
  }

  lemma SeenFiles(s: string, rs: seq<Redirection<Span>>, x: Item, fs: seq<Item>, more: seq<Redirection<Span>>,
                  ys: seq<Item>, zs: seq<Item>)
    requires x.Arg? && RedirTexts(s, more) == Files(fs) && zs == fs + ys
    ensures RedirTexts(s, rs + more) + Files(ys) == RedirTexts(s, rs) + Files([x] + zs)
  {
    FilesOfJoin(fs, ys);
    WordsJoin(s, [], [], rs, more);
    FilesOfJoin([x], zs);
    assert Files([x]) == [];
    Assoc(RedirTexts(s, rs), Files(fs), Files(ys));
  }

  /** From i to k1 stands the argument x, read as w, and from there to k2 the redirections fs, read as more. */
  ghost predicate GroupAt(s: string, i: nat, x: Item, k1: nat, fs: seq<Item>, k2: nat, w: Span,
                          more: seq<Redirection<Span>>)
  {
    && x.Arg? && IsItem(x) && At(s, i, ItemText(x)) && k1 == i + |ItemText(x)| && WordText(s, w) == x.word
    && AreItems(fs) && AllInto(fs) && At(s, k1, ItemsText(fs)) && k2 == k1 + |ItemsText(fs)|
    && RedirTexts(s, more) == Files(fs)
  }

  lemma SeenMore(s: string, i: nat, args: seq<Span>, rs: seq<Redirection<Span>>, x: Item, k1: nat, fs: seq<Item>,
                 k2: nat, w: Span, more: seq<Redirection<Span>>, r: Result<(seq<Span>, seq<Redirection<Span>>)>,
                 ys: seq<Item>, j: nat, xs: seq<Item>)
    requires GroupAt(s, i, x, k1, fs, k2, w, more) && |args| + 1 < MAXARGS && xs == [x] + (fs + ys)
    requires SeenArgs(s, k2, args + [w], rs + more, r, ys, j) && (ys != [] && ys[0].Arg? ==> ys[0].gap != "")
    ensures SeenArgs(s, i, args, rs, r, xs, j)
  {
    JoinItems(s, k1, fs, k2, ys, j);
    ItemsCons(s, i, x, k1, fs + ys, j);
    SeenWords(s, args, x, fs, w, ys, fs + ys);
    SeenFiles(s, rs, x, fs, more, ys, fs + ys);
    SetApart(x, fs, ys);
  }

  lemma SetApart(x: Item, fs: seq<Item>, ys: seq<Item>)
    requires x.Arg? && IsItem(x) && AreItems(fs) && AllInto(fs) && AreItems(ys) &&
             (ys != [] && ys[0].Arg? ==> ys[0].gap != "")
    ensures AreItems([x] + (fs + ys))
  {
    var all := [x] + (fs + ys);
    forall k: nat | k < |all| ensures ItemAt(all, k) {
      if 1 <= k < |fs| + 1 {
        assert ItemAt(fs, k - 1) && IntoAt(fs, k - 1);
      } else if k > 0 {
        assert ItemAt(ys, k - 1 - |fs|);
      }
    }
  }

  /** parseexec's loop goes on behind k2 with this word and these redirections more. */
  ghost predicate GroupParsed(s: string, i: nat, args: seq<Span>, rs: seq<Redirection<Span>>, w: Span,
                              more: seq<Redirection<Span>>, k2: nat)
  {
    && i < k2 <= |s| && WordEnds(s, k2)
    && (forall k :: 0 <= k < |args| ==> IsWord(s, args[k])) && FilesInLine(s, rs)
    && (forall k :: 0 <= k < |args + [w]| ==> IsWord(s, (args + [w])[k])) && FilesInLine(s, rs + more)
    && ExecArgs(s, i, args, rs) == ExecArgs(s, SkipSpace(s, k2), args + [w], rs + more)
  }

  /** One argument and the redirections behind it, from i to k2. */
  lemma GroupSeen(s: string, i: nat, p: nat, args: seq<Span>, rs: seq<Redirection<Span>>, behind: bool)
      returns (x: Item, k1: nat, fs: seq<Item>, k2: nat, w: Span, more: seq<Redirection<Span>>)
    requires i <= |s| && (forall k :: 0 <= k < |args| ==> IsWord(s, args[k])) && FilesInLine(s, rs)
    requires p == SkipSpace(s, i) && ExecArgs(s, i, args, rs).Ok? && (behind ==> WordEnds(s, i))
    requires !Sees(s, p, "|)&;") && GetToken(s, p).kind != End
    ensures GroupAt(s, i, x, k1, fs, k2, w, more) && (behind ==> x.gap != "") && |args| + 1 < MAXARGS
    ensures GroupParsed(s, i, args, rs, w, more, k2)
  {
    var n, next;
    w, n, more, next := ArgsInv(s, i, p, args, rs);
    x, k1 := ArgSeen(s, i, p, behind);
    Skipped(s, k1);
    fs, k2 := FilesSeen(s, k1, more, next);
  }

  lemma FilesSeen(s: string, i: nat, rs: seq<Redirection<Span>>, end: nat) returns (xs: seq<Item>, j: nat)
    requires i <= |s| && Redirs(s, i) == Ok(rs, end)
    ensures AreItems(xs) && AllInto(xs) && At(s, i, ItemsText(xs)) && j == i + |ItemsText(xs)|
    ensures end == SkipSpace(s, j) && RedirTexts(s, rs) == Files(xs) && (WordEnds(s, i) ==> WordEnds(s, j))
  {
    xs, j := RedirsSeen(s, i);
  }

  lemma {:induction false} ArgsSeen(s: string, i: nat, args: seq<Span>, rs: seq<Redirection<Span>>, behind: bool)
      returns (xs: seq<Item>, j: nat)
    requires i <= |s| && (forall k :: 0 <= k < |args| ==> IsWord(s, args[k])) && FilesInLine(s, rs)
    requires ExecArgs(s, i, args, rs).Ok? && (behind ==> WordEnds(s, i))
    ensures SeenArgs(s, i, args, rs, ExecArgs(s, i, args, rs), xs, j)
    ensures xs != [] ==> xs[0].Arg? && (behind ==> xs[0].gap != "")
    decreases |s| - i
  {
    var p := SkipSpace(s, i);
    if Sees(s, p, "|)&;") || GetToken(s, p).kind == End {
      xs, j := [], i;
      ArgsDone(s, i, p, args, rs);
      ArgsStop(s, i, args, rs);
    } else {
      var x, k1, fs, k2, w, more := GroupSeen(s, i, p, args, rs, behind);
      SkippedArgs(s, k2, args + [w], rs + more);
      var ys, end := ArgsSeen(s, k2, args + [w], rs + more, true);
      xs, j := [x] + (fs + ys), end;
      SeenMore(s, i, args, rs, x, k1, fs, k2, w, more, ExecArgs(s, i, args, rs), ys, j, xs);
    }
  }

  // ---- the levels of the grammar ----

  /** From i to j stands layout t of command c. */
  ghost predicate Laid(s: string, i: nat, f: Level, t: Layout, c: Cmd<string>, j: nat) {
    var laid := j <= |s| && IsLayout(f, t) && At(s, i, Render(t)) && j == i + |Render(t)| && Meaning(t) == c;
    laid
  }

  lemma LaidUp(s: string, i: nat, t: Layout, c: Cmd<string>, j: nat)
    ensures Laid(s, i, ExecLevel, t, c, j) ==> Laid(s, i, PipeLevel, t, c, j)
    ensures Laid(s, i, PipeLevel, t, c, j) ==> Laid(s, i, BackLevel, t, c, j)
    ensures Laid(s, i, BackLevel, t, c, j) ==> Laid(s, i, LineLevel, t, c, j)
  {
    LayoutUp(t);
  }

  lemma SimpleSeen(s: string, i: nat, w: Cmd<Span>, end: nat) returns (t: Layout, j: nat)
    requires i <= |s| && ParseExec(s, i) == Ok(w, end) && !Holds(s, SkipSpace(s, i), '(')
    ensures Laid(s, i, ExecLevel, t, Text(s, w), j) && end == SkipSpace(s, j)
  {
    var rs, k0, args, all, e := ExecInv(s, i);
    var fs, k := RedirsSeen(s, i);
    SkippedArgs(s, k, [], rs);
    var xs;
    xs, j := ArgsSeen(s, k, [], rs, fs != []);
    JoinItems(s, i, fs, k, xs, j);
    IntoNoWords(fs);
    t := Simple(fs + xs);
    TextWrap(s, Exec(args), all);
    assert WordTexts(s, []) + Words(xs) == Words(xs);
  }

  /** The text of a gap, a symbol and what comes behind. */
  lemma RenderMid(s: string, i: nat, x: string, k: nat, g: string, c: char, n: nat, y: string, j: nat)
    requires At(s, i, x) && k == i + |x| && At(s, k, g + [c]) && n == k + |g| + 1 && At(s, n, y) && j == n + |y|
    ensures At(s, i, x + g + [c] + y) && j == i + |x + g + [c] + y|
  {
    AtJoin(s, k, g + [c], y, n);
    AtJoin(s, i, x, (g + [c]) + y, k);
    Assoc(x, g + [c], y);
    Assoc(x, g, [c]);
  }

  lemma BlockText(s: string, i: nat, g: string, p: nat, x: string, k: nat, g2: string, n: nat, y: string, j: nat)
    requires At(s, i, g + ['(']) && p == i + |g| + 1 && At(s, p, x) && k == p + |x| && At(s, k, g2 + [')'])
    requires n == k + |g2| + 1 && At(s, n, y) && j == n + |y|
    ensures var all := g + "(" + x + g2 + ")" + y; At(s, i, all) && j == i + |all|
  {
    RenderMid(s, p, x, k, g2, ')', n, y, j);
    assert At(s, i, "") && "" + g == g;
    RenderMid(s, i, "", i, g, '(', p, x + g2 + [')'] + y, j);
    BlockAssoc(g, x, g2, y);
  }

  lemma BlockLaid(s: string, i: nat, g: string, p: nat, line: Layout, c: Cmd<string>, k: nat, g2: string, n: nat,
                  fs: seq<Item>, j: nat)
      returns (t: Layout)
    requires IsGap(g) && At(s, i, g + ['(']) && p == i + |g| + 1 && Laid(s, p, LineLevel, line, c, k)
    requires IsGap(g2) && At(s, k, g2 + [')']) && n == k + |g2| + 1
    requires AreItems(fs) && AllInto(fs) && At(s, n, ItemsText(fs)) && j == n + |ItemsText(fs)|
    ensures Laid(s, i, ExecLevel, t, Wrap(c, Files(fs)), j)
  {
    BlockText(s, i, g, p, Render(line), k, g2, n, ItemsText(fs), j);
    t := Block(g, line, g2, fs);
  }

  /** A block whose line is laid out from p1 to k. */
  lemma BlockSeen(s: string, i: nat, p: nat, p1: nat, line: Layout, c: Cmd<Span>, k: nat, q: nat, q1: nat,
                  rs: seq<Redirection<Span>>, end: nat)
      returns (t: Layout, j: nat)
    requires i <= |s| && p == SkipSpace(s, i) && Holds(s, p, '(') && p1 == p + 1
    requires Laid(s, p1, LineLevel, line, Text(s, c), k) && q == SkipSpace(s, k) && Holds(s, q, ')')
    requires q1 == q + 1 && Redirs(s, q1) == Ok(rs, end)
    ensures Laid(s, i, ExecLevel, t, Text(s, Wrap(c, rs)), j) && end == SkipSpace(s, j)
  {
    var g := SymbolSeen(s, i, p, p1);
    var g2 := SymbolSeen(s, k, q, q1);
    var fs;
    fs, j := RedirsSeen(s, q1);
    TextWrap(s, c, rs);
    t := BlockLaid(s, i, g, p1, line, Text(s, c), k, g2, q1, fs, j);
  }

  /** A gap and the symbol at p between two layouts. */
  lemma MidRender(s: string, i: nat, left: Layout, k: nat, p: nat, next: nat, right: Layout, j: nat) returns (g: string)
    requires At(s, i, Render(left)) && k == i + |Render(left)| && p == SkipSpace(s, k) < |s| && next == p + 1
    requires At(s, next, Render(right)) && j == next + |Render(right)|
    ensures IsGap(g) && var x := Render(left) + g + [s[p]] + Render(right); At(s, i, x) && j == i + |x|
  {
    g := SymbolSeen(s, k, p, next);
    RenderMid(s, i, Render(left), k, g, s[p], next, Render(right), j);
  }

  lemma PipeJoin(s: string, i: nat, left: Layout, c: Cmd<string>, k: nat, p: nat, next: nat, right: Layout,
                 d: Cmd<string>, j: nat)
      returns (t: Layout)
    requires Laid(s, i, ExecLevel, left, c, k) && p == SkipSpace(s, k) && Holds(s, p, '|') && next == p + 1
    requires Laid(s, next, PipeLevel, right, d, j)
    ensures Laid(s, i, PipeLevel, t, Pipe(c, d), j)
  {
    var g := MidRender(s, i, left, k, p, next, right, j);
    t := Piped(left, g, right);
  }

  lemma ListJoin(s: string, i: nat, left: Layout, c: Cmd<string>, k: nat, p: nat, next: nat, right: Layout,
                 d: Cmd<string>, j: nat)
      returns (t: Layout)
    requires Laid(s, i, BackLevel, left, c, k) && p == SkipSpace(s, k) && Holds(s, p, ';') && next == p + 1
    requires Laid(s, next, LineLevel, right, d, j)
    ensures Laid(s, i, LineLevel, t, List(c, d), j)
  {
    var g := MidRender(s, i, left, k, p, next, right, j);
    t := Listed(left, g, right);
  }

  lemma BackJoin(s: string, i: nat, t: Layout, c: Cmd<string>, j: nat, p: nat, next: nat) returns (u: Layout)
    requires Laid(s, i, BackLevel, t, c, j) && p == SkipSpace(s, j) && Holds(s, p, '&') && next == p + 1
    ensures Laid(s, i, BackLevel, u, Back(c), next)
  {
    var g := SymbolSeen(s, j, p, next);
    u := Backed(t, g);
    AtJoin(s, i, Render(t), g + ['&'], j);
    Assoc(Render(t), g, ['&']);
  }

  /** The loop over '&' from j on, with t laid out so far. */
  lemma {:induction false} BacksSeen(s: string, i: nat, t: Layout, j: nat, c: Cmd<Span>)
      returns (u: Layout, end: nat, b: Cmd<Span>, p: nat)
    requires i <= |s| && j <= |s| && InLine(s, c) && Laid(s, i, BackLevel, t, Text(s, c), j)
    ensures Backs(s, j, c) == (b, p) && j <= p && Laid(s, i, BackLevel, u, Text(s, b), end) && p == SkipSpace(s, end)
    decreases |s| - j
  {
    p := SkipSpace(s, j);
    if !Holds(s, p, '&') {
      BacksEnd(s, j, c, p);
      u, end, b := t, j, c;
    } else {
      var next := p + 1;
      var t' := BackJoin(s, i, t, Text(s, c), j, p, next);
      BacksMore(s, j, c, p, next);
      u, end, b, p := BacksSeen(s, i, t', next, Back(c));
    }
  }

  lemma {:induction false} ExecSeen(s: string, i: nat, w: Cmd<Span>, end: nat) returns (t: Layout, j: nat)
    requires i <= |s| && ParseExec(s, i) == Ok(w, end)
    ensures Laid(s, i, ExecLevel, t, Text(s, w), j) && end == SkipSpace(s, j)
    decreases |s| - i, 0
  {
    var p := SkipSpace(s, i);
    if Holds(s, p, '(') {
      var p1 := p + 1;
      ExecOfBlock(s, i, p);
      var c, n, q, q1, rs, e := BlockInv(s, p, p1);
      var line, k := LineSeen(s, p1, c, n);
      SkipTwice(s, k);
      t, j := BlockSeen(s, i, p, p1, line, c, k, q, q1, rs, e);
    } else {
      t, j := SimpleSeen(s, i, w, end);
    }
  }

  lemma {:induction false} PipeSeen(s: string, i: nat, w: Cmd<Span>, end: nat) returns (t: Layout, j: nat)
    requires i <= |s| && ParsePipe(s, i) == Ok(w, end)
    ensures Laid(s, i, PipeLevel, t, Text(s, w), j) && end == SkipSpace(s, j)
    decreases |s| - i, 1
  {
    var c, n := PipeInv(s, i);
    var left, k := ExecSeen(s, i, c, n);
    SkipTwice(s, k);
    if Holds(s, n, '|') {
      var next := n + 1;
      PipeMore(s, i, c, n, n, next);
      var d := ParsePipe(s, next).value;
      var right;
      right, j := PipeSeen(s, next, d, end);
      t := PipeJoin(s, i, left, Text(s, c), k, n, next, right, Text(s, d), j);
    } else {
      PipeEnd(s, i, c, n, n);
      t, j := left, k;
      LaidUp(s, i, t, Text(s, c), j);
    }
  }

  lemma {:induction false} LineSeen(s: string, i: nat, w: Cmd<Span>, end: nat) returns (t: Layout, j: nat)
    requires i <= |s| && ParseLine(s, i) == Ok(w, end)
    ensures Laid(s, i, LineLevel, t, Text(s, w), j) && end == SkipSpace(s, j)
    decreases |s| - i, 2
  {
    var c, n := LineInv(s, i);
    var first, k := PipeSeen(s, i, c, n);
    LaidUp(s, i, first, Text(s, c), k);
    SkippedBacks(s, k, c);
    var left, k2, b, p := BacksSeen(s, i, first, k, c);
    if Holds(s, p, ';') {
      var next := p + 1;
      LineMore(s, i, c, n, b, p, next);
      var d := ParseLine(s, next).value;
      var right;
      right, j := LineSeen(s, next, d, end);
      t := ListJoin(s, i, left, Text(s, b), k2, p, next, right, Text(s, d), j);
    } else {
      LineEnd(s, i, c, n, b, p);
      t, j := left, k2;
      LaidUp(s, i, t, Text(s, b), j);
    }
  }

  lemma SpellsLine(s: string, t: Layout, c: Cmd<string>, j: nat)
    requires Laid(s, 0, LineLevel, t, c, j) && IsGap(s[j..])
    ensures Spells(s, c)
  {
    var g := s[j..];
    assert s == s[0..j] + g;
    assert IsLayout(LineLevel, t) && IsGap(g) && s == Render(t) + g && Meaning(t) == c;
  }

  /** An accepted line spells the command it parses to. */
  lemma {:induction false} Means(s: string)
    requires Parse(s).Ok?
    ensures Spells(s, Text(s, Parse(s).value))
  {
    var c, end := ParseLine(s, 0).value, ParseLine(s, 0).next;
    var t, j := LineSeen(s, 0, c, end);
    SkipTwice(s, j);
    Skips(s, j, |s|);
    assert s[j..|s|] == s[j..];
    SpellsLine(s, t, Text(s, c), j);
  }

  /** The grammar is exact: a line parses to a command if and only if it spells it. */
  lemma {:induction false} ParsesIff(s: string, c: Cmd<string>)
    ensures Parse(s).Ok? && Text(s, Parse(s).value) == c <==> Spells(s, c)
  {
    if Spells(s, c) { Accepts(s, c); }
    if Parse(s).Ok? { Means(s); }
  }

  /** ... and unambiguous: a line spells at most one command, and none if it is rejected. */
  lemma {:induction false} Unambiguous(s: string, c: Cmd<string>, d: Cmd<string>)
    ensures Spells(s, c) && Spells(s, d) ==> c == d
    ensures Parse(s).Err? ==> !Spells(s, c)
  {
    if Spells(s, c) { Accepts(s, c); }
    if Spells(s, d) { Accepts(s, d); }
  }
}
