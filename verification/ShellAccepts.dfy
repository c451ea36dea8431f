/** Every layout of a command is accepted and parses to that command. */
module ShellAccepts {
  import opened ShellSpec
  import opened ShellRules
  import opened ShellGrammar

  /** Text x stands at position i of the line. */
  ghost predicate At(s: string, i: nat, x: string) {
    i + |x| <= |s| && s[i..i + |x|] == x
  }

  lemma AtSplit(s: string, i: nat, x: string, y: string, k: nat)
    requires At(s, i, x + y) && k == i + |x|
    ensures At(s, i, x) && At(s, k, y)
  {
    assert s[i..k] == (x + y)[..|x|];
    assert s[k..k + |y|] == (x + y)[|x|..];
  }

  lemma AtJoin(s: string, i: nat, x: string, y: string, k: nat)
    requires At(s, i, x) && At(s, k, y) && k == i + |x|
    ensures At(s, i, x + y)
  {
    assert s[i..i + |x + y|] == s[i..k] + s[k..k + |y|];
  }

  lemma AtIndex(s: string, i: nat, x: string, k: nat)
    requires At(s, i, x) && k < |x|
    ensures i + k < |s| && s[i + k] == x[k]
  {
    assert s[i..i + |x|][k] == s[i + k];
  }

  // ---- gaps ----

  lemma {:induction false} SkipGap(s: string, i: nat, j: nat)
    requires i <= j <= |s| && forall k :: i <= k < j ==> IsSpace(s[k])
    ensures SkipSpace(s, i) == SkipSpace(s, j)
    decreases j - i
  {
    if i < j { SkipGap(s, i + 1, j); }
  }

  lemma SkipGapText(s: string, i: nat, g: string, j: nat)
    requires At(s, i, g) && IsGap(g) && j == i + |g|
    ensures SkipSpace(s, i) == SkipSpace(s, j)
  {
    forall k | i <= k < j ensures IsSpace(s[k]) { AtIndex(s, i, g, k - i); }
    SkipGap(s, i, j);
  }

  /** Past the gap comes a character that is no space. */
  lemma SkipTo(s: string, i: nat, g: string, p: nat)
    requires At(s, i, g) && IsGap(g) && p == i + |g| && p < |s| && !IsSpace(s[p])
    ensures SkipSpace(s, i) == p
  {
    SkipGapText(s, i, g, p);
  }

  // ---- tokens ----

  lemma {:induction false} SkipWordTo(s: string, i: nat, j: nat)
    requires i <= j <= |s| && (forall k :: i <= k < j ==> IsWordChar(s[k])) && (j < |s| ==> !IsWordChar(s[j]))
    ensures SkipWord(s, i) == j
    decreases j - i
  {
    if i < j { SkipWordTo(s, i + 1, j); }
  }

  /** No word goes on at j. */
  ghost predicate WordEnds(s: string, j: nat) { j <= |s| && (j < |s| ==> !IsWordChar(s[j])) }

  /** A gap and a word. */
  lemma WordToken(s: string, i: nat, g: string, w: string, p: nat, j: nat)
    requires At(s, i, g + w) && IsGap(g) && IsText(w) && p == i + |g| && j == p + |w| && WordEnds(s, j)
    ensures p < |s| && IsWordChar(s[p]) && SkipSpace(s, i) == p
    ensures GetToken(s, i) == GetToken(s, p) == Token(Word, Span(p, j), SkipSpace(s, j)) && WordText(s, Span(p, j)) == w
  {
    AtSplit(s, i, g, w, p);
    AtIndex(s, p, w, 0);
    SkipTo(s, i, g, p);
    forall k | p <= k < j ensures IsWordChar(s[k]) { AtIndex(s, p, w, k - p); }
    SkipWordTo(s, p, j);
    SkipTwice(s, i);
  }

  /** A gap and a symbol; '>' is not followed by another. */
  lemma SymbolToken(s: string, i: nat, g: string, c: char, p: nat, j: nat)
    requires At(s, i, g + [c]) && IsGap(g) && IsSymbol(c) && p == i + |g| && j == p + 1
    requires c == '>' && j < |s| ==> s[j] != '>'
    ensures p < |s| && s[p] == c && SkipSpace(s, i) == p
    ensures GetToken(s, i) == GetToken(s, p) == Token(Symbol(c), Span(p, j), SkipSpace(s, j))
  {
    AtSplit(s, i, g, [c], p);
    AtIndex(s, p, [c], 0);
    SkipTo(s, i, g, p);
    SkipTwice(s, i);
  }

  lemma AppendToken(s: string, i: nat, g: string, p: nat, j: nat)
    requires At(s, i, g + ">>") && IsGap(g) && p == i + |g| && j == p + 2
    ensures p < |s| && s[p] == '>' && SkipSpace(s, i) == p
    ensures GetToken(s, p) == Token(Append, Span(p, j), SkipSpace(s, j))
  {
    AtSplit(s, i, g, ">>", p);
    AtIndex(s, p, ">>", 0);
    AtIndex(s, p, ">>", 1);
    SkipTo(s, i, g, p);
    SkipTwice(s, i);
  }

  // ---- redirections ----

  /** The symbol of a redirection, and the gap behind it. */
  lemma OpToken(s: string, i: nat, x: Item, p: nat, q: nat)
    requires x.Into? && IsItem(x) && At(s, i, ItemText(x)) && p == i + |x.gap| && q == p + |x.op|
    ensures SkipSpace(s, i) == p < |s| && Sees(s, p, "<>") && At(s, q, x.gap2 + x.file)
    ensures var op := GetToken(s, p); op.next == SkipSpace(s, q) && (op.kind == Symbol('<') <==> x.op == "<")
  {
    assert ItemText(x) == (x.gap + x.op) + (x.gap2 + x.file);
    AtSplit(s, i, x.gap + x.op, x.gap2 + x.file, q);
    if x.op == ">>" {
      AppendToken(s, i, x.gap, p, q);
    } else {
      AtIndex(s, q, x.gap2 + x.file, 0);
      assert x.op == [x.op[0]];
      SymbolToken(s, i, x.gap, x.op[0], p, q);
    }
  }

  lemma RedirStep(s: string, i: nat, x: Item, j: nat, rest: seq<Redirection<Span>>, next: nat)
      returns (r: Redirection<Span>)
    requires x.Into? && IsItem(x) && At(s, i, ItemText(x)) && j == i + |ItemText(x)| && WordEnds(s, j)
    requires Redirs(s, j) == Ok(rest, next)
    ensures RedirText(s, r) == Redirection(x.file, x.op == "<") && Redirs(s, i) == Ok([r] + rest, next)
  {
    var p := i + |x.gap|;
    var q := p + |x.op|;
    var f := q + |x.gap2|;
    OpToken(s, i, x, p, q);
    WordToken(s, q, x.gap2, x.file, f, j);
    r := Redirection(Span(f, j), x.op == "<");
    RedirsMore(s, i, p, GetToken(s, p).kind, q, Span(f, j), j, rest, next);
  }

  lemma ItemsSplit(s: string, i: nat, xs: seq<Item>, k: nat)
    requires xs != [] && At(s, i, ItemsText(xs)) && k == i + |ItemText(xs[0])|
    ensures At(s, i, ItemText(xs[0])) && At(s, k, ItemsText(xs[1..])) && i + |ItemsText(xs)| == k + |ItemsText(xs[1..])|
  {
    AtSplit(s, i, ItemText(xs[0]), ItemsText(xs[1..]), k);
  }

  /** A word has ended where the next item starts. */
  lemma ItemStarts(s: string, i: nat, xs: seq<Item>)
    requires xs != [] && At(s, i, ItemsText(xs)) && IsItem(xs[0]) && (xs[0].Arg? ==> xs[0].gap != "")
    ensures WordEnds(s, i)
  {
    var x := xs[0];
    ItemsSplit(s, i, xs, i + |ItemText(x)|);
    AtIndex(s, i, ItemText(x), 0);
  }

  lemma RedirsCons(s: string, r: Redirection<Span>, v: seq<Redirection<Span>>)
    ensures RedirTexts(s, [r] + v) == [RedirText(s, r)] + RedirTexts(s, v)
  {
  }

  lemma FilesFirst(xs: seq<Item>)
    requires xs != [] && xs[0].Into?
    ensures Files(xs) == [Redirection(xs[0].file, xs[0].op == "<")] + Files(xs[1..])
  {
  }

  lemma FirstItem(xs: seq<Item>)
    requires AreItems(xs) && xs != []
    ensures IsItem(xs[0]) && (AllInto(xs) ==> xs[0].Into?)
  {
    assert ItemAt(xs, 0);
    if AllInto(xs) { assert IntoAt(xs, 0); }
  }

  /** What is left of items from n on. */
  lemma RestItems(xs: seq<Item>, n: nat)
    requires AreItems(xs) && n <= |xs|
    ensures AreItems(xs[n..]) && AreItems(xs[..n]) && (AllInto(xs) ==> AllInto(xs[n..]))
    ensures 0 < n < |xs| && xs[n].Arg? ==> xs[n].gap != ""
  {
    forall k: nat | k < |xs[n..]| ensures ItemAt(xs[n..], k) { assert ItemAt(xs, n + k); }
    forall k: nat | k < |xs[..n]| ensures ItemAt(xs[..n], k) { assert ItemAt(xs, k); }
    if AllInto(xs) {
      forall k: nat | k < |xs[n..]| ensures IntoAt(xs[n..], k) { assert IntoAt(xs, n + k); }
    }
    if n < |xs| { assert ItemAt(xs, n); }
  }

  lemma {:induction false} RedirsRead(s: string, i: nat, xs: seq<Item>, j: nat) returns (rs: seq<Redirection<Span>>)
    requires AreItems(xs) && AllInto(xs) && At(s, i, ItemsText(xs)) && j == i + |ItemsText(xs)|
    requires (xs != [] ==> WordEnds(s, j)) && !Sees(s, SkipSpace(s, j), "<>")
    ensures Redirs(s, i) == Ok(rs, SkipSpace(s, j)) && RedirTexts(s, rs) == Files(xs)
    decreases |xs|
  {
    if xs == [] {
      rs := [];
    } else {
      var k, rest := i + |ItemText(xs[0])|, xs[1..];
      FirstItem(xs);
      RestItems(xs, 1);
      ItemsSplit(s, i, xs, k);
      if rest != [] { FirstItem(rest); }
      if rest != [] { ItemStarts(s, k, rest); }
      var v := RedirsRead(s, k, rest, j);
      var r := RedirStep(s, i, xs[0], k, v, SkipSpace(s, j));
      RedirsCons(s, r, v);
      FilesFirst(xs);
      rs := [r] + v;
    }
  }

  // ---- arguments ----

  /** The redirections in front. */
  function Lead(xs: seq<Item>): (n: nat)
    ensures n <= |xs| && (forall k :: 0 <= k < n ==> xs[k].Into?) && (n < |xs| ==> xs[n].Arg?)
  {
    if xs == [] || xs[0].Arg? then 0 else 1 + Lead(xs[1..])
  }

  lemma Assoc<T>(a: seq<T>, b: seq<T>, c: seq<T>)
    ensures a + (b + c) == a + b + c
  {
  }

  lemma ItemsStep(x: string, a: string, b: string, xs: seq<Item>, ys: seq<Item>, all: seq<Item>)
    requires all != [] && ItemText(all[0]) == x && ItemsText(xs) == a && ItemsText(ys) == b && all[1..] == xs + ys
    requires ItemsText(xs + ys) == a + b
    ensures ItemsText(all) == x + a + b
  {
    Assoc(x, a, b);
  }

  lemma {:induction false} ItemsJoin(xs: seq<Item>, ys: seq<Item>)
    ensures ItemsText(xs + ys) == ItemsText(xs) + ItemsText(ys)
    decreases |xs|
  {
    if xs == [] {
      assert xs + ys == ys;
    } else {
      ItemsJoin(xs[1..], ys);
      assert (xs + ys)[1..] == xs[1..] + ys;
      ItemsStep(ItemText(xs[0]), ItemsText(xs[1..]), ItemsText(ys), xs[1..], ys, xs + ys);
    }
  }

  function FirstWord(x: Item): seq<string> { if x.Arg? then [x.word] else [] }

  lemma {:induction false} WordsOfJoin(xs: seq<Item>, ys: seq<Item>)
    ensures Words(xs + ys) == Words(xs) + Words(ys)
    decreases |xs|
  {
    if xs == [] {
      assert xs + ys == ys;
    } else {
      WordsOfJoin(xs[1..], ys);
      assert (xs + ys)[1..] == xs[1..] + ys;
      Assoc(FirstWord(xs[0]), Words(xs[1..]), Words(ys));
    }
  }

  function FirstFile(x: Item): seq<Redirection<string>> { if x.Into? then [Redirection(x.file, x.op == "<")] else [] }

  lemma {:induction false} FilesOfJoin(xs: seq<Item>, ys: seq<Item>)
    ensures Files(xs + ys) == Files(xs) + Files(ys)
    decreases |xs|
  {
    if xs == [] {
      assert xs + ys == ys;
    } else {
      FilesOfJoin(xs[1..], ys);
      assert (xs + ys)[1..] == xs[1..] + ys;
      Assoc(FirstFile(xs[0]), Files(xs[1..]), Files(ys));
    }
  }

  lemma {:induction false} IntoNoWords(xs: seq<Item>)
    requires AllInto(xs)
    ensures Words(xs) == []
    decreases |xs|
  {
    if xs != [] {
      assert IntoAt(xs, 0);
      forall k: nat | k < |xs[1..]| ensures IntoAt(xs[1..], k) { assert IntoAt(xs, k + 1); }
      IntoNoWords(xs[1..]);
    }
  }

  /** The line goes on with one of the symbols that may follow a command, or ends. */
  ghost predicate Follows(s: string, j: nat, toks: string) {
    j <= |s| && var p := SkipSpace(s, j); p < |s| ==> s[p] in toks && IsSymbol(s[p])
  }

  lemma FollowsEnds(s: string, j: nat, toks: string)
    requires Follows(s, j, toks)
    ensures WordEnds(s, j)
  {
  }

  /** Leading redirections, cut off from the rest. */
  lemma LeadSplit(s: string, i: nat, xs: seq<Item>, j: nat, n: nat, k: nat)
    requires At(s, i, ItemsText(xs)) && j == i + |ItemsText(xs)| && n == Lead(xs) && k == i + |ItemsText(xs[..n])|
    ensures At(s, i, ItemsText(xs[..n])) && At(s, k, ItemsText(xs[n..])) && j == k + |ItemsText(xs[n..])|
    ensures Words(xs) == Words(xs[n..]) && Files(xs) == Files(xs[..n]) + Files(xs[n..])
  {
    assert xs == xs[..n] + xs[n..];
    ItemsJoin(xs[..n], xs[n..]);
    WordsOfJoin(xs[..n], xs[n..]);
    FilesOfJoin(xs[..n], xs[n..]);
    forall k: nat | k < n ensures IntoAt(xs[..n], k) {}
    IntoNoWords(xs[..n]);
    AtSplit(s, i, ItemsText(xs[..n]), ItemsText(xs[n..]), k);
  }

  /** What follows is an argument, or no part of the command. */
  lemma LeadEnds(s: string, k: nat, xs: seq<Item>, j: nat)
    requires AreItems(xs) && (xs != [] ==> xs[0].Arg?) && At(s, k, ItemsText(xs)) && j == k + |ItemsText(xs)|
    requires Follows(s, j, "|)&;")
    ensures !Sees(s, SkipSpace(s, k), "<>")
  {
    if xs != [] {
      var x, p := xs[0], k + |xs[0].gap|;
      FirstItem(xs);
      ItemsSplit(s, k, xs, k + |ItemText(x)|);
      AtSplit(s, k, x.gap, x.word, p);
      AtIndex(s, p, x.word, 0);
      SkipTo(s, k, x.gap, p);
    }
  }

  lemma LeadItems(xs: seq<Item>, n: nat)
    requires AreItems(xs) && n == Lead(xs)
    ensures AreItems(xs[..n]) && AllInto(xs[..n]) && AreItems(xs[n..]) && (xs[n..] != [] ==> xs[n..][0].Arg?)
    ensures xs[n..] != [] && n > 0 ==> xs[n..][0].gap != ""
  {
    RestItems(xs, n);
    forall k: nat | k < n ensures IntoAt(xs[..n], k) {}
  }

  lemma LeadRead(s: string, i: nat, xs: seq<Item>, j: nat, n: nat, k: nat) returns (rs: seq<Redirection<Span>>)
    requires AreItems(xs) && At(s, i, ItemsText(xs)) && j == i + |ItemsText(xs)| && Follows(s, j, "|)&;")
    requires n == Lead(xs) && k == i + |ItemsText(xs[..n])|
    ensures k <= |s| && Redirs(s, i) == Ok(rs, SkipSpace(s, k)) && RedirTexts(s, rs) == Files(xs[..n])
  {
    LeadSplit(s, i, xs, j, n, k);
    LeadItems(xs, n);
    LeadEnds(s, k, xs[n..], j);
    if n > 0 {
      if n < |xs| {
        FirstItem(xs[n..]);
        ItemStarts(s, k, xs[n..]);
      } else {
        FollowsEnds(s, j, "|)&;");
      }
    }
    rs := RedirsRead(s, i, xs[..n], k);
  }

  lemma WordsJoin(s: string, a: seq<Span>, b: seq<Span>, rs: seq<Redirection<Span>>, qs: seq<Redirection<Span>>)
    ensures WordTexts(s, a + b) == WordTexts(s, a) + WordTexts(s, b)
    ensures RedirTexts(s, rs + qs) == RedirTexts(s, rs) + RedirTexts(s, qs)
  {
  }

  /** One argument. */
  lemma ArgStep(s: string, i: nat, acc: seq<Span>, racc: seq<Redirection<Span>>, x: Item, j: nat,
                more: seq<Redirection<Span>>, next: nat)
      returns (w: Span)
    requires x.Arg? && IsItem(x) && At(s, i, ItemText(x)) && j == i + |ItemText(x)| && WordEnds(s, j)
    requires |acc| + 1 < MAXARGS && (forall k :: 0 <= k < |acc| ==> IsWord(s, acc[k])) && FilesInLine(s, racc)
    requires Redirs(s, j) == Ok(more, next)
    ensures IsWord(s, w) && WordText(s, w) == x.word && FilesInLine(s, more) && next <= |s|
    ensures ExecArgs(s, i, acc, racc) == ExecArgs(s, next, acc + [w], racc + more)
  {
    var p := i + |x.gap|;
    WordToken(s, i, x.gap, x.word, p, j);
    w := Span(p, j);
    Skipped(s, j);
  }

  lemma ArgsEnd(s: string, j: nat, acc: seq<Span>, rs: seq<Redirection<Span>>)
    requires Follows(s, j, "|)&;") && (forall k :: 0 <= k < |acc| ==> IsWord(s, acc[k])) && FilesInLine(s, rs)
    ensures ExecArgs(s, j, acc, rs) == Ok((acc, rs), SkipSpace(s, j))
  {
    SkipTwice(s, j);
  }

  /** parseexec's loop has read these arguments and redirections. */
  ghost predicate GotArgs(s: string, r: Result<(seq<Span>, seq<Redirection<Span>>)>, ws: seq<string>,
                          rs: seq<Redirection<string>>, j: nat)
    requires j <= |s|
  {
    r.Ok? && r.next == SkipSpace(s, j) && WordTexts(s, r.value.0) == ws && RedirTexts(s, r.value.1) == rs
  }

  /** One argument and the redirections behind it, up to k2: where they stand, ... */
  lemma GroupSplit(s: string, i: nat, xs: seq<Item>, rest: seq<Item>, j: nat, k1: nat)
    requires AreItems(xs) && xs != [] && At(s, i, ItemsText(xs)) && j == i + |ItemsText(xs)| && Follows(s, j, "|)&;")
    requires rest == xs[1..] && k1 == i + |ItemText(xs[0])|
    ensures IsItem(xs[0]) && At(s, i, ItemText(xs[0])) && WordEnds(s, k1) && AreItems(rest)
    ensures At(s, k1, ItemsText(rest)) && j == k1 + |ItemsText(rest)|
  {
    FirstItem(xs);
    ItemsSplit(s, i, xs, k1);
    RestItems(xs, 1);
    RestEnds(s, rest, k1, j);
  }

  lemma RestEnds(s: string, rest: seq<Item>, k1: nat, j: nat)
    requires AreItems(rest) && (rest != [] && rest[0].Arg? ==> rest[0].gap != "")
    requires At(s, k1, ItemsText(rest)) && j == k1 + |ItemsText(rest)| && Follows(s, j, "|)&;")
    ensures WordEnds(s, k1)
  {
    if rest == [] {
      FollowsEnds(s, j, "|)&;");
    } else {
      FirstItem(rest);
      ItemStarts(s, k1, rest);
    }
  }

  ghost predicate ArgAt(s: string, i: nat, x: Item, k: nat) {
    x.Arg? && IsItem(x) && At(s, i, ItemText(x)) && k == i + |ItemText(x)| && WordEnds(s, k)
  }

  ghost predicate ItemsAt(s: string, i: nat, xs: seq<Item>, j: nat) {
    AreItems(xs) && At(s, i, ItemsText(xs)) && j == i + |ItemsText(xs)|
  }

  /** ... and how they are read. */
  lemma GroupStep(s: string, i: nat, acc: seq<Span>, racc: seq<Redirection<Span>>, x: Item, rest: seq<Item>, j: nat,
                  n: nat, k1: nat, k2: nat)
      returns (w: Span, more: seq<Redirection<Span>>)
    requires ArgAt(s, i, x, k1) && ItemsAt(s, k1, rest, j) && Follows(s, j, "|)&;")
    requires (forall k :: 0 <= k < |acc| ==> IsWord(s, acc[k])) && FilesInLine(s, racc) && |acc| + 1 < MAXARGS
    requires n == Lead(rest) && k2 == k1 + |ItemsText(rest[..n])|
    ensures IsWord(s, w) && WordText(s, w) == x.word && FilesInLine(s, more) && k2 <= |s|
    ensures RedirTexts(s, more) == Files(rest[..n])
    ensures ExecArgs(s, i, acc, racc) == ExecArgs(s, SkipSpace(s, k2), acc + [w], racc + more)
  {
    more := LeadRead(s, k1, rest, j, n, k2);
    w := ArgStep(s, i, acc, racc, x, k1, more, SkipSpace(s, k2));
  }

  /** The texts read so far and those of the items left make up the whole. */
  ghost predicate LeftOver(s: string, acc: seq<Span>, racc: seq<Redirection<Span>>, xs: seq<Item>, w: Span,
                           more: seq<Redirection<Span>>, left: seq<Item>)
  {
    && |Words(xs)| == 1 + |Words(left)|
    && WordTexts(s, acc + [w]) + Words(left) == WordTexts(s, acc) + Words(xs)
    && RedirTexts(s, racc + more) + Files(left) == RedirTexts(s, racc) + Files(xs)
  }

  /** The first argument is read; the items that are left start with an argument. */
  lemma ArgsGroup(s: string, i: nat, acc: seq<Span>, racc: seq<Redirection<Span>>, xs: seq<Item>, j: nat)
      returns (w: Span, more: seq<Redirection<Span>>, k: nat, left: seq<Item>)
    requires AreItems(xs) && xs != [] && xs[0].Arg? && At(s, i, ItemsText(xs)) && j == i + |ItemsText(xs)|
    requires Follows(s, j, "|)&;") && |acc| + |Words(xs)| < MAXARGS
    requires (forall k :: 0 <= k < |acc| ==> IsWord(s, acc[k])) && FilesInLine(s, racc)
    ensures |left| < |xs| && (left != [] ==> left[0].Arg?) && ItemsAt(s, k, left, j) && k <= |s|
    ensures IsWord(s, w) && FilesInLine(s, more) && LeftOver(s, acc, racc, xs, w, more, left)
    ensures ExecArgs(s, i, acc, racc) == ExecArgs(s, SkipSpace(s, k), acc + [w], racc + more)
  {
    var rest, k1 := xs[1..], i + |ItemText(xs[0])|;
    var n := Lead(rest);
    k, left := k1 + |ItemsText(rest[..n])|, rest[n..];
    ArgFirst(xs);
    GroupSplit(s, i, xs, rest, j, k1);
    w, more := GroupStep(s, i, acc, racc, xs[0], rest, j, n, k1, k);
    LeadSplit(s, k1, rest, j, n, k);
    LeadItems(rest, n);
    ArgsSum(s, acc, w, racc, more, xs[0], rest, rest[..n], left);
  }

  lemma {:induction false} ArgsRead(s: string, i: nat, acc: seq<Span>, racc: seq<Redirection<Span>>, xs: seq<Item>,
                                    j: nat)
    requires AreItems(xs) && (xs != [] ==> xs[0].Arg?) && At(s, i, ItemsText(xs)) && j == i + |ItemsText(xs)|
    requires Follows(s, j, "|)&;") && |acc| + |Words(xs)| < MAXARGS
    requires (forall k :: 0 <= k < |acc| ==> IsWord(s, acc[k])) && FilesInLine(s, racc)
    ensures GotArgs(s, ExecArgs(s, i, acc, racc), WordTexts(s, acc) + Words(xs), RedirTexts(s, racc) + Files(xs), j)
    decreases |xs|
  {
    if xs == [] {
      ArgsEnd(s, j, acc, racc);
    } else {
      var w, more, k, left := ArgsGroup(s, i, acc, racc, xs, j);
      SkippedArgs(s, k, acc + [w], racc + more);
      ArgsRead(s, k, acc + [w], racc + more, left, j);
    }
  }

  lemma ArgsSum(s: string, acc: seq<Span>, w: Span, racc: seq<Redirection<Span>>, more: seq<Redirection<Span>>,
                x: Item, rest: seq<Item>, into: seq<Item>, left: seq<Item>)
    requires x.Arg? && WordText(s, w) == x.word && Words(rest) == Words(left) && RedirTexts(s, more) == Files(into)
    requires Files(rest) == Files(into) + Files(left)
    ensures WordTexts(s, acc + [w]) + Words(left) == WordTexts(s, acc) + ([x.word] + Words(rest))
    ensures RedirTexts(s, racc + more) + Files(left) == RedirTexts(s, racc) + Files(rest)
  {
    WordsJoin(s, acc, [w], racc, more);
    assert WordTexts(s, [w]) == [x.word];
    Assoc(WordTexts(s, acc), [x.word], Words(left));
    Assoc(RedirTexts(s, racc), Files(into), Files(left));
  }

  lemma ArgFirst(xs: seq<Item>)
    requires xs != [] && xs[0].Arg?
    ensures Words(xs) == [xs[0].word] + Words(xs[1..]) && Files(xs) == Files(xs[1..])
  {
    assert [] + Files(xs[1..]) == Files(xs[1..]);
  }

  // ---- the levels of the grammar ----

  /** At the start of an item there is no parenthesis. */
  lemma NoParen(s: string, i: nat, xs: seq<Item>, j: nat)
    requires AreItems(xs) && At(s, i, ItemsText(xs)) && j == i + |ItemsText(xs)| && Follows(s, j, "|)&;")
    ensures !Holds(s, SkipSpace(s, i), '(')
  {
    if xs != [] {
      var x, p := xs[0], i + |xs[0].gap|;
      FirstItem(xs);
      ItemsSplit(s, i, xs, i + |ItemText(x)|);
      if x.Arg? {
        AtSplit(s, i, x.gap, x.word, p);
        AtIndex(s, p, x.word, 0);
        SkipTo(s, i, x.gap, p);
      } else {
        OpToken(s, i, x, p, p + |x.op|);
      }
    }
  }

  lemma SimpleRead(s: string, i: nat, xs: seq<Item>, j: nat) returns (w: Cmd<Span>)
    requires AreItems(xs) && |Words(xs)| < MAXARGS && At(s, i, ItemsText(xs)) && j == i + |ItemsText(xs)|
    requires Follows(s, j, "|)&;")
    ensures ParseExec(s, i) == Ok(w, SkipSpace(s, j)) && Text(s, w) == Wrap(Exec(Words(xs)), Files(xs))
  {
    var n := Lead(xs);
    var k := i + |ItemsText(xs[..n])|;
    LeadSplit(s, i, xs, j, n, k);
    var rs := LeadRead(s, i, xs, j, n, k);
    LeadItems(xs, n);
    ArgsRead(s, k, [], rs, xs[n..], j);
    var ar := ExecArgs(s, k, [], rs).value;
    w := Wrap(Exec(ar.0), ar.1);
    NoParen(s, i, xs, j);
    SkippedArgs(s, k, [], rs);
    ExecRule(s, i, rs, SkipSpace(s, k), ar.0, ar.1, SkipSpace(s, j));
    assert WordTexts(s, []) + Words(xs[n..]) == Words(xs);
    TextWrap(s, Exec(ar.0), ar.1);
  }

  /** A gap and a symbol between two texts. */
  lemma SplitAt(s: string, i: nat, x: string, g: string, c: char, y: string, j: nat) returns (k: nat, p: nat, n: nat)
    requires At(s, i, x + g + [c] + y) && j == i + |x + g + [c] + y| && IsGap(g) && IsSymbol(c) && c != '>'
    ensures At(s, i, x) && k == i + |x| <= |s| && p == SkipSpace(s, k) && Holds(s, p, c) && n == p + 1 && p == k + |g|
    ensures At(s, n, y) && j == n + |y| && At(s, k, g + [c])
  {
    k, p, n := i + |x|, i + |x| + |g|, i + |x| + |g| + 1;
    assert x + g + [c] + y == x + ((g + [c]) + y);
    AtSplit(s, i, x, (g + [c]) + y, k);
    AtSplit(s, k, g + [c], y, n);
    SymbolToken(s, k, g, c, p, n);
  }

  lemma FollowsAt(s: string, k: nat, p: nat, c: char, toks: string)
    requires k <= |s| && p == SkipSpace(s, k) && Holds(s, p, c) && IsSymbol(c) && c in toks
    ensures Follows(s, k, toks)
  {
  }

  /** Behind a command there is a symbol of `toks` or nothing, so not c. */
  lemma NotThere(s: string, j: nat, p: nat, toks: string, c: char)
    requires Follows(s, j, toks) && p == SkipSpace(s, j) && c !in toks
    ensures !Holds(s, p, c)
  {
  }

  lemma ListRead(s: string, i: nat, c: Cmd<Span>, m: nat, b: Cmd<Span>, k: nat, p: nat, n: nat, r: Cmd<Span>, end: nat)
      returns (w: Cmd<Span>)
    requires i <= |s| && ParsePipe(s, i) == Ok(c, m) && m <= |s| && InLine(s, c) && InLine(s, b) && k <= |s|
    requires Backs(s, m, c) == Backs(s, k, b) && p == SkipSpace(s, k) && Holds(s, p, ';') && n == p + 1
    requires ParseLine(s, n) == Ok(r, end)
    ensures w == List(b, r) && ParseLine(s, i) == Ok(w, end)
  {
    BacksEnd(s, k, b, p);
    LineMore(s, i, c, m, b, p, n);
    w := List(b, r);
  }

  lemma NoListRead(s: string, i: nat, c: Cmd<Span>, m: nat, b: Cmd<Span>, j: nat)
    requires i <= |s| && ParsePipe(s, i) == Ok(c, m) && m <= |s| && InLine(s, c) && InLine(s, b)
    requires Follows(s, j, ")") && Backs(s, m, c) == Backs(s, j, b)
    ensures ParseLine(s, i) == Ok(b, SkipSpace(s, j))
  {
    var p := SkipSpace(s, j);
    NotThere(s, j, p, ")", '&');
    NotThere(s, j, p, ")", ';');
    BacksEnd(s, j, b, p);
    LineEnd(s, i, c, m, b, p);
  }

  /** Wherever a layout of a command stands in a line, followed by something that may follow it, the parser reads
      exactly that command: as a line, ... */
  lemma {:induction false} ReadsLine(s: string, i: nat, t: Layout, j: nat) returns (w: Cmd<Span>)
    requires IsLayout(LineLevel, t) && At(s, i, Render(t)) && j == i + |Render(t)| && Follows(s, j, ")")
    ensures ParseLine(s, i) == Ok(w, SkipSpace(s, j)) && Text(s, w) == Meaning(t)
    decreases t, 3
  {
    if t.Listed? {
      var k, p, n := SplitAt(s, i, Render(t.left), t.gap, ';', Render(t.right), j);
      FollowsAt(s, k, p, ';', "&;)");
      var r := ReadsLine(s, n, t.right, j);
      var c, m, b := ReadsBacks(s, i, t.left, k);
      w := ListRead(s, i, c, m, b, k, p, n, r, SkipSpace(s, j));
    } else {
      var c, m, b := ReadsBacks(s, i, t, j);
      NoListRead(s, i, c, m, b, j);
      w := b;
    }
  }

  /** ... before any ';', by parsepipe, which reads c, and the loop over '&', which has b at j, ... */
  lemma {:induction false} ReadsBacks(s: string, i: nat, t: Layout, j: nat) returns (c: Cmd<Span>, m: nat, b: Cmd<Span>)
    requires IsLayout(BackLevel, t) && At(s, i, Render(t)) && j == i + |Render(t)| && Follows(s, j, "&;)")
    ensures ParsePipe(s, i) == Ok(c, m) && m <= |s| && InLine(s, c) && InLine(s, b)
    ensures Backs(s, m, c) == Backs(s, j, b) && Text(s, b) == Meaning(t)
    decreases t, 2
  {
    if t.Backed? {
      assert Render(t) == Render(t.cmd) + t.gap + ['&'] + "";
      var k, p, n := SplitAt(s, i, Render(t.cmd), t.gap, '&', "", j);
      FollowsAt(s, k, p, '&', "&;)");
      c, m, b := ReadsBacks(s, i, t.cmd, k);
      BacksMore(s, k, b, p, j);
      b := Back(b);
    } else {
      c := ReadsPipe(s, i, t, j);
      m, b := SkipSpace(s, j), c;
      SkippedBacks(s, j, c);
    }
  }

  /** ... before any '&', ... */
  lemma {:induction false} ReadsPipe(s: string, i: nat, t: Layout, j: nat) returns (w: Cmd<Span>)
    requires IsLayout(PipeLevel, t) && At(s, i, Render(t)) && j == i + |Render(t)| && Follows(s, j, "&;)")
    ensures ParsePipe(s, i) == Ok(w, SkipSpace(s, j)) && Text(s, w) == Meaning(t) && InLine(s, w)
    decreases t, 1
  {
    if t.Piped? {
      var k, p, n := SplitAt(s, i, Render(t.left), t.gap, '|', Render(t.right), j);
      FollowsAt(s, k, p, '|', "|&;)");
      var r := ReadsPipe(s, n, t.right, j);
      var l := ReadsExec(s, i, t.left, k);
      SkipTwice(s, k);
      PipeMore(s, i, l, p, p, n);
      w := Pipe(l, r);
    } else {
      w := ReadsExec(s, i, t, j);
      SkipTwice(s, j);
      NotThere(s, j, SkipSpace(s, j), "&;)", '|');
      PipeEnd(s, i, w, SkipSpace(s, j), SkipSpace(s, j));
    }
  }

  lemma BlockAssoc(g: string, x: string, g2: string, y: string)
    ensures g + "(" + x + g2 + ")" + y == "" + g + ['('] + (x + g2 + [')'] + y)
  {
    Assoc(g + "(", x + g2 + ")", y);
    Assoc(g + "(", x, g2 + ")");
    Assoc(x, g2, ")");
    Assoc(g + "(" + x, g2, ")");
  }

  lemma SplitBlock(s: string, i: nat, t: Layout, j: nat) returns (p: nat, p1: nat, k: nat, q: nat, q1: nat)
    requires t.Block? && IsGap(t.gap) && IsGap(t.gap2) && At(s, i, Render(t)) && j == i + |Render(t)|
    ensures i <= |s| && p == SkipSpace(s, i) && Holds(s, p, '(') && p1 == p + 1 && At(s, p1, Render(t.line))
    ensures k == p1 + |Render(t.line)| <= |s| && q == SkipSpace(s, k) && Holds(s, q, ')') && q1 == q + 1
    ensures At(s, q1, ItemsText(t.files)) && j == q1 + |ItemsText(t.files)|
  {
    var x, y := Render(t.line), ItemsText(t.files);
    var rest := x + t.gap2 + [')'] + y;
    BlockAssoc(t.gap, x, t.gap2, y);
    var i0;
    i0, p, p1 := SplitAt(s, i, "", t.gap, '(', rest, j);
    k, q, q1 := SplitAt(s, p1, x, t.gap2, ')', y, j);
  }

  lemma FilesRead(s: string, n: nat, xs: seq<Item>, j: nat) returns (rs: seq<Redirection<Span>>)
    requires AreItems(xs) && AllInto(xs) && At(s, n, ItemsText(xs)) && j == n + |ItemsText(xs)| && Follows(s, j, "|&;)")
    ensures Redirs(s, n) == Ok(rs, SkipSpace(s, j)) && RedirTexts(s, rs) == Files(xs)
  {
    FollowsEnds(s, j, "|&;)");
    rs := RedirsRead(s, n, xs, j);
  }

  /** ... and before any '|'. */
  lemma {:induction false} ReadsExec(s: string, i: nat, t: Layout, j: nat) returns (w: Cmd<Span>)
    requires IsLayout(ExecLevel, t) && At(s, i, Render(t)) && j == i + |Render(t)| && Follows(s, j, "|&;)")
    ensures ParseExec(s, i) == Ok(w, SkipSpace(s, j)) && Text(s, w) == Meaning(t)
    decreases t, 0
  {
    if t.Simple? {
      w := SimpleRead(s, i, t.items, j);
    } else {
      var p, p1, k, q, q1 := SplitBlock(s, i, t, j);
      FollowsAt(s, k, q, ')', ")");
      var c := ReadsLine(s, p1, t.line, k);
      var rs := FilesRead(s, q1, t.files, j);
      w := Wrap(c, rs);
      SkipTwice(s, k);
      ExecOfBlock(s, i, p);
      BlockRule(s, p, p1, c, q, q, q1, rs, SkipSpace(s, j));
      TextWrap(s, c, rs);
    }
  }

  /** Every text that spells a command parses to it. */
  lemma {:induction false} Accepts(s: string, c: Cmd<string>)
    requires Spells(s, c)
    ensures Parse(s).Ok? && Text(s, Parse(s).value) == c
  {
    var t, g :| IsLayout(LineLevel, t) && IsGap(g) && s == Render(t) + g && Meaning(t) == c;
    var j := |Render(t)|;
    assert At(s, 0, Render(t) + g);
    AtSplit(s, 0, Render(t), g, j);
    SkipGapText(s, j, g, |s|);
    var w := ReadsLine(s, 0, t, j);
  }
}
