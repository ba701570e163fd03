/**
 The shell's parser as written (user/sh.c): cursors into one character buffer,
 command nodes that hold the ends of their words, and the pass that ends every
 word with a NUL in place.
 */
module ShellCode {
  import opened Shell
  import ShellGrammar

  /** A word in the buffer: where it begins and where it ends. */
  datatype Span = Span(q: nat, e: nat)

  datatype Tree =
    | TExec(argv: seq<Span>)
    | TRedir(cmd: Tree, file: Span, mode: Mode)
    | TPipe(left: Tree, right: Tree)
    | TList(left: Tree, right: Tree)
    | TBack(cmd: Tree)

  /** A word is a run of word characters that the next character ends. */
  predicate IsSpan(buf: string, w: Span): (b: bool)
    ensures b ==> w.q < w.e <= |buf|
  {
    && w.q < w.e <= |buf|
    && (forall i :: w.q <= i < w.e ==> IsWordChar(buf[i]))
    && (w.e < |buf| ==> !IsWordChar(buf[w.e]))
  }

  predicate AreSpans(buf: string, ws: seq<Span>) {
    forall i :: 0 <= i < |ws| ==> IsSpan(buf, ws[i])
  }

  predicate Spans(buf: string, t: Tree) {
    match t
    case TExec(argv) => AreSpans(buf, argv)
    case TRedir(c, f, _) => Spans(buf, c) && IsSpan(buf, f)
    case TPipe(l, r) => Spans(buf, l) && Spans(buf, r)
    case TList(l, r) => Spans(buf, l) && Spans(buf, r)
    case TBack(c) => Spans(buf, c)
  }

  function Texts(buf: string, ws: seq<Span>): (r: seq<string>)
    requires AreSpans(buf, ws)
    ensures |r| == |ws| && forall i :: 0 <= i < |ws| ==> r[i] == buf[ws[i].q..ws[i].e]
  {
    seq(|ws|, i requires 0 <= i < |ws| => buf[ws[i].q..ws[i].e])
  }

  /** The command a tree stands for while its words are still counted. */
  function Meaning(buf: string, t: Tree): Cmd
    requires Spans(buf, t)
  {
    match t
    case TExec(argv) => Exec(Texts(buf, argv))
    case TRedir(c, f, m) => Redir(Meaning(buf, c), Redirect(m, buf[f.q..f.e]))
    case TPipe(l, r) => Pipe(Meaning(buf, l), Meaning(buf, r))
    case TList(l, r) => List(Meaning(buf, l), Meaning(buf, r))
    case TBack(c) => Back(Meaning(buf, c))
  }

  // ---------------------------------------------------------------- the scanner

  const WHITESPACE: string := " \t\r\n\U{0B}"
  const SYMBOLS: string := "<|>&;()"

  /** The characters that the scanner goes by. */
  lemma Classes(c: char)
    ensures c in WHITESPACE <==> IsSpace(c)
    ensures c in SYMBOLS <==> IsSymbol(c)
  {
  }

  function From(buf: string, s: nat): seq<Token>
    requires s <= |buf|
  {
    Lex(buf[s..])
  }

  /** The character a token begins with: all that peek looks at. */
  function Lead(t: Token): char {
    match t
    case Sym(c) => c
    case Append => '>'
    case Word(s) => if s == "" then '\0' else s[0]
  }

  /** What gettoken returns for a token. */
  function Kind(t: Token): char {
    match t
    case Sym(c) => c
    case Append => '+'
    case Word(_) => 'a'
  }

  lemma SkipOne(buf: string, s: nat)
    requires s < |buf| && IsSpace(buf[s])
    ensures From(buf, s) == From(buf, s + 1)
  {
    assert buf[s..][1..] == buf[s + 1..];
  }

  method SkipSpace(buf: string, s: nat) returns (k: nat)
    requires s <= |buf|
    ensures s <= k <= |buf| && From(buf, k) == From(buf, s)
    ensures k < |buf| ==> !IsSpace(buf[k])
  {
    hide Lex;
    k := s;
    while k < |buf| && buf[k] in WHITESPACE
      invariant s <= k <= |buf| && From(buf, k) == From(buf, s)
    {
      Classes(buf[k]);
      SkipOne(buf, k);
      k := k + 1;
    }
    if k < |buf| {
      Classes(buf[k]);
    }
  }

  lemma HeadToken(buf: string, k: nat)
    requires k <= |buf| && (k < |buf| ==> !IsSpace(buf[k]))
    ensures From(buf, k) == [] <==> k == |buf|
    ensures k < |buf| ==> Lead(From(buf, k)[0]) == buf[k] && IsToken(From(buf, k)[0])
  {
    var s := buf[k..];
    LexTokens(s);
    if k < |buf| {
      assert s[0] == buf[k];
    }
  }

  method Peek(buf: string, s: nat, toks: string) returns (k: nat, hit: bool)
    requires s <= |buf|
    ensures s <= k <= |buf| && From(buf, k) == From(buf, s)
    ensures From(buf, k) == [] <==> k == |buf|
    ensures From(buf, k) != [] ==> IsToken(From(buf, k)[0])
    ensures hit <==> From(buf, k) != [] && Lead(From(buf, k)[0]) in toks
  {
    hide Lex, Lead;
    k := SkipSpace(buf, s);
    HeadToken(buf, k);
    hit := k < |buf| && buf[k] in toks;
  }

  /** One token, when the cursor stands on it: its kind, and where it ends. */
  method Scan(buf: string, q: nat) returns (tok: char, e: nat)
    requires q <= |buf| && '\0' !in buf && (q < |buf| ==> !IsSpace(buf[q]))
    ensures q <= e <= |buf|
    ensures q == |buf| ==> tok == '\0' && e == q && From(buf, q) == []
    ensures q < |buf| ==> q < e && From(buf, q) != [] && tok == Kind(From(buf, q)[0])
                          && From(buf, q)[1..] == From(buf, e)
    ensures q < |buf| && tok == 'a' ==> IsSpan(buf, Span(q, e)) && From(buf, q)[0] == Word(buf[q..e])
  {
    if q < |buf| {
      Classes(buf[q]);
    }
    if q == |buf| {
      tok, e := '\0', q;
    } else if buf[q] == '>' {
      tok, e := '>', q + 1;
      if e < |buf| && buf[e] == '>' {
        tok, e := '+', e + 1;
      }
      assert buf[q..][1..] == buf[q + 1..];
      assert buf[q..][0] == '>' && (q + 1 < |buf| ==> buf[q..][1] == buf[q + 1] && buf[q..][2..] == buf[q + 2..]);
    } else if buf[q] in SYMBOLS {
      tok, e := buf[q], q + 1;
      assert buf[q..][0] == buf[q] && buf[q..][1..] == buf[q + 1..];
    } else {
      tok, e := 'a', q;
      while e < |buf| && buf[e] !in WHITESPACE && buf[e] !in SYMBOLS
        invariant q <= e <= |buf| && forall i :: q <= i < e ==> IsWordChar(buf[i])
      {
        Classes(buf[e]);
        e := e + 1;
      }
      if e < |buf| {
        Classes(buf[e]);
      }
      WordAtStart(buf, q, e);
    }
  }

  lemma WordAtStart(buf: string, q: nat, e: nat)
    requires IsSpan(buf, Span(q, e))
    ensures From(buf, q) == [Word(buf[q..e])] + From(buf, e)
  {
    var s := buf[q..];
    var k := WordLen(s);
    assert forall i :: 0 <= i < e - q ==> s[i] == buf[q + i];
    assert e < |buf| ==> s[e - q] == buf[e];
    assert k == e - q;
    assert s[0] == buf[q] && s[..k] == buf[q..e] && s[k..] == buf[e..];
  }

  method GetToken(buf: string, s: nat) returns (tok: char, w: Span, k: nat)
    requires s <= |buf| && '\0' !in buf
    ensures s <= k <= |buf|
    ensures From(buf, s) == [] ==> tok == '\0'
    ensures From(buf, s) != [] ==> s < k && tok == Kind(From(buf, s)[0]) && From(buf, s)[1..] == From(buf, k)
    ensures From(buf, s) != [] && tok == 'a' ==> IsSpan(buf, w) && From(buf, s)[0] == Word(buf[w.q..w.e])
  {
    hide Lex;
    var q := SkipSpace(buf, s);
    var e;
    tok, e := Scan(buf, q);
    w := Span(q, e);
    k := SkipSpace(buf, e);
  }

  // ---------------------------------------------------------------- the parse routines

  /** A routine returns a tree and moves the cursor, or the shell's panic ends it. */
  datatype Outcome = Done(tree: Tree, s: nat) | Panic(error: Error)

  /** The outcome of a routine started at s is what the grammar says of the tokens there. */
  predicate Agrees(buf: string, s: nat, o: Outcome, p: Parsed<Cmd>) {
    match o
    case Done(t, k) =>
      && p.Ok? && s <= k <= |buf| && Spans(buf, t)
      && Meaning(buf, t) == p.value && From(buf, k) == p.rest
    case Panic(e) => p == Err(e)
  }

  /** The redirections read after a command, put around it. */
  function Around(c: Cmd, p: Parsed<seq<Redirect>>): Parsed<Cmd> {
    match p
    case Ok(rs, rest) => Ok(Wrap(c, rs), rest)
    case Err(e) => Err(e)
  }

  lemma RedirStep(c: Cmd, ts: seq<Token>)
    requires IsRedirect(ts) && |ts| > 1 && ts[1].Word?
    ensures Around(c, PRedirs(ts)) == Around(Redir(c, Redirect(ModeOf(ts[0]), ts[1].s)), PRedirs(ts[2..]))
  {
    var p := PRedirs(ts[2..]);
    if p.Ok? {
      var r := Redirect(ModeOf(ts[0]), ts[1].s);
      assert ([r] + p.value)[1..] == p.value;
    }
  }

  method ParseRedirs(buf: string, tree: Tree, s: nat) returns (o: Outcome)
    requires s <= |buf| && '\0' !in buf && Spans(buf, tree)
    ensures Agrees(buf, s, o, Around(Meaning(buf, tree), PRedirs(From(buf, s))))
  {
    hide From, IsSpan, PRedirs;
    var t := tree;
    var k, more := Peek(buf, s, "<>");
    while more
      invariant s <= k <= |buf| && Spans(buf, t)
      invariant more <==> IsRedirect(From(buf, k))
      invariant Around(Meaning(buf, tree), PRedirs(From(buf, s))) == Around(Meaning(buf, t), PRedirs(From(buf, k)))
      decreases |buf| - k
    {
      ghost var ts := From(buf, k);
      var op, _, k1 := GetToken(buf, k);
      var tok, w, k2 := GetToken(buf, k1);
      if tok != 'a' {
        MissingFileAt(ts);
        return Panic(MissingFile);
      }
      assert ts[2..] == From(buf, k2);
      RedirStep(Meaning(buf, t), ts);
      t := TRedir(t, w, if op == '<' then Input else if op == '>' then Output else Extend);
      k, more := Peek(buf, k2, "<>");
    }
    NoRedirs(From(buf, k));
    o := Done(t, k);
  }

  lemma MissingFileAt(ts: seq<Token>)
    requires IsRedirect(ts) && (|ts| > 1 ==> Kind(ts[1]) != 'a')
    ensures PRedirs(ts) == Err(MissingFile)
  {
  }

  /** Setting the words of the exec node under a chain of redirections. */
  function Fill(t: Tree, argv: seq<Span>): Tree {
    match t
    case TExec(_) => TExec(argv)
    case TRedir(c, f, m) => TRedir(Fill(c, argv), f, m)
    case _ => t
  }

  function Filled(c: Cmd, args: seq<string>): Cmd {
    match c
    case Exec(_) => Exec(args)
    case Redir(d, r) => Redir(Filled(d, args), r)
    case _ => c
  }

  lemma {:induction false} FillMeaning(buf: string, t: Tree, argv: seq<Span>)
    requires Spans(buf, t) && AreSpans(buf, argv)
    ensures Spans(buf, Fill(t, argv)) && Meaning(buf, Fill(t, argv)) == Filled(Meaning(buf, t), Texts(buf, argv))
  {
    if t.TRedir? {
      FillMeaning(buf, t.cmd, argv);
    }
  }

  lemma {:induction false} FilledWrap(c: Cmd, rs: seq<Redirect>, args: seq<string>)
    ensures Filled(Wrap(c, rs), args) == Wrap(Filled(c, args), rs)
    decreases |rs|
  {
    if rs != [] {
      FilledWrap(Redir(c, rs[0]), rs[1..], args);
    }
  }

  lemma {:induction false} WrapTwice(c: Cmd, rs: seq<Redirect>, more: seq<Redirect>)
    ensures Wrap(Wrap(c, rs), more) == Wrap(c, rs + more)
    decreases |rs|
  {
    if rs == [] {
      assert rs + more == more;
    } else {
      WrapTwice(Redir(c, rs[0]), rs[1..], more);
      assert (rs + more)[1..] == rs[1..] + more;
    }
  }

  /** The tree of a simple command so far, and the words and redirections it holds. */
  ghost predicate Simple(buf: string, t: Tree, argv: seq<Span>, rs: seq<Redirect>) {
    Spans(buf, t) && AreSpans(buf, argv) && Meaning(buf, t) == Wrap(Exec(Texts(buf, argv)), rs)
  }

  lemma SimpleWord(buf: string, t: Tree, argv: seq<Span>, rs: seq<Redirect>, w: Span)
    requires Simple(buf, t, argv, rs) && IsSpan(buf, w)
    ensures Simple(buf, Fill(t, argv + [w]), argv + [w], rs)
    ensures Texts(buf, argv + [w]) == Texts(buf, argv) + [buf[w.q..w.e]]
  {
    FillMeaning(buf, t, argv + [w]);
    FilledWrap(Exec(Texts(buf, argv)), rs, Texts(buf, argv + [w]));
  }

  /** A word of a simple command, then the redirections after it. */
  method ParseWord(buf: string, tree: Tree, argv: seq<Span>, ghost rs: seq<Redirect>, w: Span, s: nat)
    returns (o: Outcome, ghost more: seq<Redirect>)
    requires s <= |buf| && '\0' !in buf && IsSpan(buf, w) && Simple(buf, tree, argv, rs)
    ensures Texts(buf, argv + [w]) == Texts(buf, argv) + [buf[w.q..w.e]]
    ensures o.Done? ==> s <= o.s <= |buf| && Simple(buf, o.tree, argv + [w], rs + more)
                        && PRedirs(From(buf, s)) == Ok(more, From(buf, o.s))
    ensures o.Panic? ==> PRedirs(From(buf, s)) == Err(o.error)
  {
    hide From, PRedirs, Meaning, Spans, Wrap;
    SimpleWord(buf, tree, argv, rs, w);
    o := ParseRedirs(buf, Fill(tree, argv + [w]), s);
    more := [];
    if o.Done? {
      more := PRedirs(From(buf, s)).value;
      WrapTwice(Exec(Texts(buf, argv + [w])), rs, more);
    }
  }

  method ParseArgs(buf: string, tree: Tree, ghost rs: seq<Redirect>, s: nat) returns (o: Outcome)
    requires s <= |buf| && '\0' !in buf && Simple(buf, tree, [], rs)
    ensures Agrees(buf, s, o, PArgs([], rs, From(buf, s)))
  {
    hide From, PRedirs, Meaning, Spans, Wrap, IsSpan, Texts;
    var t, argv, k: nat := tree, [], s;
    ghost var done := rs;
    var stop;
    k, stop := Peek(buf, k, "|)&;");
    while !stop
      invariant s <= k <= |buf| && Simple(buf, t, argv, done) && |argv| < MAXARGS
      invariant PArgs([], rs, From(buf, s)) == PArgs(Texts(buf, argv), done, From(buf, k))
      invariant stop <==> From(buf, k) != [] && EndsExec(From(buf, k))
      invariant From(buf, k) != [] ==> IsToken(From(buf, k)[0])
      decreases |buf| - k
    {
      ghost var ts := From(buf, k);
      var tok, w, k1 := GetToken(buf, k);
      if tok == '\0' {
        break;
      }
      if tok != 'a' {
        return Panic(Syntax);
      }
      if |argv| + 1 >= MAXARGS {
        return Panic(TooManyArgs);
      }
      ghost var more;
      o, more := ParseWord(buf, t, argv, done, w, k1);
      if o.Panic? {
        return;
      }
      t, argv, done := o.tree, argv + [w], done + more;
      k, stop := Peek(buf, o.s, "|)&;");
    }
    o := Done(t, k);
  }

  method ParseExec(buf: string, s: nat) returns (o: Outcome)
    requires s <= |buf| && '\0' !in buf
    ensures Agrees(buf, s, o, PExec(From(buf, s)))
    decreases |buf| - s, 0
  {
    hide From, PRedirs, PBlock, PArgs, Wrap;
    var k, block := Peek(buf, s, "(");
    if block {
      o := ParseBlock(buf, k);
      return;
    }
    var t := TExec([]);
    o := ParseRedirs(buf, t, k);
    if o.Done? {
      ghost var rs := PRedirs(From(buf, k)).value;
      assert Simple(buf, o.tree, [], rs);
      o := ParseArgs(buf, o.tree, rs, o.s);
    }
  }

  method ParseBlock(buf: string, s: nat) returns (o: Outcome)
    requires s <= |buf| && '\0' !in buf && Starts(From(buf, s), '(')
    ensures Agrees(buf, s, o, PBlock(From(buf, s)))
    decreases |buf| - s, -1
  {
    hide From, PRedirs, PLine, Wrap;
    var _, _, k := GetToken(buf, s);
    o := ParseLine(buf, k);
    if o.Done? {
      var k1, shut := Peek(buf, o.s, ")");
      if !shut {
        return Panic(MissingParen);
      }
      var _, _, k2 := GetToken(buf, k1);
      o := ParseRedirs(buf, o.tree, k2);
    }
  }

  method ParsePipe(buf: string, s: nat) returns (o: Outcome)
    requires s <= |buf| && '\0' !in buf
    ensures Agrees(buf, s, o, PPipe(From(buf, s)))
    decreases |buf| - s, 1
  {
    hide From, PExec;
    o := ParseExec(buf, s);
    if o.Done? {
      var k, bar := Peek(buf, o.s, "|");
      if bar {
        var _, _, k1 := GetToken(buf, k);
        var left := o.tree;
        o := ParsePipe(buf, k1);
        if o.Done? {
          o := Done(TPipe(left, o.tree), o.s);
        }
      }
    }
  }

  method ParseBacks(buf: string, tree: Tree, s: nat) returns (t: Tree, k: nat)
    requires s <= |buf| && '\0' !in buf && Spans(buf, tree)
    ensures s <= k <= |buf| && Spans(buf, t)
    ensures PBacks(Meaning(buf, tree), From(buf, s)) == (Meaning(buf, t), From(buf, k))
  {
    hide From;
    t := tree;
    var amp;
    k, amp := Peek(buf, s, "&");
    while amp
      invariant s <= k <= |buf| && Spans(buf, t) && (amp <==> Starts(From(buf, k), '&'))
      invariant PBacks(Meaning(buf, tree), From(buf, s)) == PBacks(Meaning(buf, t), From(buf, k))
      decreases |buf| - k
    {
      var _, _, k1 := GetToken(buf, k);
      t := TBack(t);
      k, amp := Peek(buf, k1, "&");
    }
  }

  method ParseLine(buf: string, s: nat) returns (o: Outcome)
    requires s <= |buf| && '\0' !in buf
    ensures Agrees(buf, s, o, PLine(From(buf, s)))
    decreases |buf| - s, 2
  {
    hide From, PPipe, PBacks;
    o := ParsePipe(buf, s);
    if o.Done? {
      var t, k := ParseBacks(buf, o.tree, o.s);
      var k1, semi := Peek(buf, k, ";");
      if semi {
        var _, _, k2 := GetToken(buf, k1);
        o := ParseLine(buf, k2);
        if o.Done? {
          o := Done(TList(t, o.tree), o.s);
        }
      } else {
        o := Done(t, k1);
      }
    }
  }

  // ---------------------------------------------------------------- ending the words in place

  /** The C string at position q. */
  function CString(s: string, q: nat): string
    decreases |s| - q
  {
    if q >= |s| || s[q] == '\0' then "" else [s[q]] + CString(s, q + 1)
  }

  /** The command whose words are the C strings at the beginnings of the tree's words. */
  function Reading(s: string, t: Tree): Cmd {
    match t
    case TExec(argv) => Exec(seq(|argv|, i requires 0 <= i < |argv| => CString(s, argv[i].q)))
    case TRedir(c, f, m) => Redir(Reading(s, c), Redirect(m, CString(s, f.q)))
    case TPipe(l, r) => Pipe(Reading(s, l), Reading(s, r))
    case TList(l, r) => List(Reading(s, l), Reading(s, r))
    case TBack(c) => Back(Reading(s, c))
  }

  /** The buffer still holds every word, and the NUL at its end. */
  predicate Intact(buf: string, s: string): (b: bool)
    ensures b ==> |buf| < |s|
  {
    && |buf| < |s| && s[|buf|] == '\0'
    && forall i :: 0 <= i < |buf| && IsWordChar(buf[i]) ==> s[i] == buf[i]
  }

  predicate Kept(s: string, s': string) {
    |s'| == |s| && forall i :: 0 <= i < |s| && s[i] == '\0' ==> s'[i] == '\0'
  }

  /** Every word of the tree is followed by a NUL. */
  predicate Ended(buf: string, s: string, t: Tree)
    requires Spans(buf, t) && |buf| < |s|
  {
    match t
    case TExec(argv) => forall i :: 0 <= i < |argv| ==> s[argv[i].e] == '\0'
    case TRedir(c, f, _) => Ended(buf, s, c) && s[f.e] == '\0'
    case TPipe(l, r) => Ended(buf, s, l) && Ended(buf, s, r)
    case TList(l, r) => Ended(buf, s, l) && Ended(buf, s, r)
    case TBack(c) => Ended(buf, s, c)
  }

  lemma {:induction false} EndedKept(buf: string, s: string, s': string, t: Tree)
    requires Spans(buf, t) && |buf| < |s| && Ended(buf, s, t) && Kept(s, s')
    ensures Ended(buf, s', t)
  {
    match t
    case TExec(argv) =>
    case TRedir(c, f, m) => EndedKept(buf, s, s', c);
    case TPipe(l, r) => EndedKept(buf, s, s', l); EndedKept(buf, s, s', r);
    case TList(l, r) => EndedKept(buf, s, s', l); EndedKept(buf, s, s', r);
    case TBack(c) => EndedKept(buf, s, s', c);
  }

  lemma {:induction false} CStringIs(s: string, q: nat, e: nat)
    requires q <= e < |s| && s[e] == '\0' && '\0' !in s[q..e]
    ensures CString(s, q) == s[q..e]
    decreases e - q
  {
    if q < e {
      assert s[q] == s[q..e][0];
      assert s[q..e] == [s[q]] + s[q + 1..e];
      CStringIs(s, q + 1, e);
    }
  }

  lemma WordReads(buf: string, s: string, w: Span)
    requires '\0' !in buf && IsSpan(buf, w) && Intact(buf, s) && s[w.e] == '\0'
    ensures CString(s, w.q) == buf[w.q..w.e]
  {
    assert s[w.q..w.e] == buf[w.q..w.e];
    CStringIs(s, w.q, w.e);
  }

  lemma {:induction false} EndedReads(buf: string, s: string, t: Tree)
    requires '\0' !in buf && Intact(buf, s) && Spans(buf, t) && Ended(buf, s, t)
    ensures Reading(s, t) == Meaning(buf, t)
  {
    hide CString, IsSpan, Intact;
    match t
    case TExec(argv) =>
      forall i | 0 <= i < |argv| ensures CString(s, argv[i].q) == Texts(buf, argv)[i] {
        WordReads(buf, s, argv[i]);
      }
      assert Reading(s, t).args == Texts(buf, argv);
    case TRedir(c, f, m) => WordReads(buf, s, f); EndedReads(buf, s, c);
    case TPipe(l, r) => EndedReads(buf, s, l); EndedReads(buf, s, r);
    case TList(l, r) => EndedReads(buf, s, l); EndedReads(buf, s, r);
    case TBack(c) => EndedReads(buf, s, c);
  }

  /** Ending one word never breaks another: a word never holds the end of a word. */
  method EndWord(a: array<char>, w: Span, ghost buf: string)
    requires Intact(buf, a[..]) && IsSpan(buf, w)
    modifies a
    ensures Intact(buf, a[..]) && Kept(old(a[..]), a[..]) && a[w.e] == '\0'
  {
    a[w.e] := '\0';
  }

  method NulTerminate(a: array<char>, t: Tree, ghost buf: string)
    requires Intact(buf, a[..]) && Spans(buf, t)
    modifies a
    ensures Intact(buf, a[..]) && Kept(old(a[..]), a[..]) && Ended(buf, a[..], t)
    decreases t
  {
    hide IsSpan, Intact;
    match t
    case TExec(argv) =>
      for i := 0 to |argv|
        invariant Intact(buf, a[..]) && Kept(old(a[..]), a[..])
        invariant forall j :: 0 <= j < i ==> a[argv[j].e] == '\0'
      {
        ghost var was := a[..];
        EndWord(a, argv[i], buf);
        assert forall j :: 0 <= j < i ==> was[argv[j].e] == '\0';
      }
    case TRedir(c, f, _) =>
      NulTerminate(a, c, buf);
      ghost var was := a[..];
      EndWord(a, f, buf);
      EndedKept(buf, was, a[..], c);
    case TPipe(l, r) =>
      NulTerminate(a, l, buf);
      ghost var was := a[..];
      NulTerminate(a, r, buf);
      EndedKept(buf, was, a[..], l);
    case TList(l, r) =>
      NulTerminate(a, l, buf);
      ghost var was := a[..];
      NulTerminate(a, r, buf);
      EndedKept(buf, was, a[..], l);
    case TBack(c) =>
      NulTerminate(a, c, buf);
  }

  /** Outcome of the whole parse: the command the shell goes on to run, or its panic. */
  datatype Command = Command(tree: Tree) | Failed(error: Error)

  method StrLen(a: array<char>) returns (n: nat)
    requires '\0' in a[..]
    ensures n < a.Length && a[n] == '\0' && '\0' !in a[..n] && CString(a[..], 0) == a[..n]
  {
    n := 0;
    while a[n] != '\0'
      invariant n < a.Length && '\0' !in a[..n]
      decreases a.Length - n
    {
      n := n + 1;
    }
    CStringIs(a[..], 0, n);
    assert a[..][0..n] == a[..n];
  }

  /**
   Parsing the line in the buffer, and ending its words there: the command is one that
   the grammar gives to the line, or the error one that the grammar refuses it for.
   */
  method ParseCmd(a: array<char>) returns (r: Command)
    requires '\0' in a[..]
    modifies a
    ensures var p := Parse(Lex(old(CString(a[..], 0))));
            match r
            case Command(t) => p == Ok(Reading(a[..], t), [])
            case Failed(e) => p == Err(e) && a[..] == old(a[..])
    ensures var ts := Lex(old(CString(a[..], 0)));
            match r
            case Command(t) => exists l :: ShellGrammar.Derives(l, ts, Reading(a[..], t))
            case Failed(e) => ShellGrammar.Refused(ts, e)
  {
    hide PLine, CString;
    var n := StrLen(a);
    var buf := a[..n];
    assert buf[0..] == buf;
    var o := ParseLine(buf, 0);
    ghost var ts := Lex(buf);
    if o.Panic? {
      ShellGrammar.RefusesIff(ts, o.error);
      return Failed(o.error);
    }
    var k, _ := Peek(buf, o.s, "");
    if k != n {
      ShellGrammar.RefusesIff(ts, Leftovers);
      return Failed(Leftovers);
    }
    assert Intact(buf, a[..]);
    NulTerminate(a, o.tree, buf);
    EndedReads(buf, a[..], o.tree);
    ShellGrammar.ParsesIff(ts, Reading(a[..], o.tree));
    r := Command(o.tree);
  }
}
