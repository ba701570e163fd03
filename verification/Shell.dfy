/**
 The shell's parser (user/sh.c), as a grammar over tokens, and a printer it
 inverts.

 The functions here say what the parser computes: `Lex` is repeated gettoken, and
 the P... functions are the parse... routines on the tokens still to come. The
 code itself, on a character buffer with a cursor, is in ShellCode.dfy.
 */
module Shell {

  const MAXARGS: nat := 10

  // ---------------------------------------------------------------- characters and tokens

  predicate IsSpace(c: char) {
    c == ' ' || c == '\t' || c == '\r' || c == '\n' || c == '\U{0B}'
  }

  predicate IsSymbol(c: char) {
    c == '<' || c == '|' || c == '>' || c == '&' || c == ';' || c == '(' || c == ')'
  }

  predicate IsWordChar(c: char) {
    !IsSpace(c) && !IsSymbol(c)
  }

  datatype Token = Sym(c: char) | Append | Word(s: string)

  predicate IsWord(s: string) {
    s != "" && forall i :: 0 <= i < |s| ==> IsWordChar(s[i])
  }

  /** The length of the word at the start of s. */
  function WordLen(s: string): (k: nat)
    ensures k <= |s| && (forall i :: 0 <= i < k ==> IsWordChar(s[i])) && (k < |s| ==> !IsWordChar(s[k]))
  {
    if s == "" || !IsWordChar(s[0]) then 0 else 1 + WordLen(s[1..])
  }

  function Lex(s: string): seq<Token> {
    if s == "" then []
    else if IsSpace(s[0]) then Lex(s[1..])
    else if s[0] == '>' && |s| > 1 && s[1] == '>' then [Append] + Lex(s[2..])
    else if IsSymbol(s[0]) then [Sym(s[0])] + Lex(s[1..])
    else [Word(s[..WordLen(s)])] + Lex(s[WordLen(s)..])
  }

  function Show(t: Token): string {
    match t
    case Sym(c) => [c]
    case Append => ">>"
    case Word(s) => s
  }

  function Render(ts: seq<Token>): string {
    if ts == [] then "" else Show(ts[0]) + " " + Render(ts[1..])
  }

  predicate IsToken(t: Token) {
    match t
    case Sym(c) => IsSymbol(c)
    case Append => true
    case Word(s) => IsWord(s)
  }

  lemma WordLenOf(w: string, rest: string)
    requires IsWord(w)
    ensures WordLen(w + " " + rest) == |w|
  {
    var s := w + " " + rest;
    assert forall i :: 0 <= i < |w| ==> s[i] == w[i];
    assert s[|w|] == ' ';
  }

  lemma LexBlank(rest: string)
    ensures Lex(" " + rest) == Lex(rest)
  {
    assert (" " + rest)[1..] == rest;
  }

  lemma LexShow(t: Token, rest: string)
    requires IsToken(t)
    ensures Lex(Show(t) + " " + rest) == [t] + Lex(rest)
  {
    var s := Show(t) + " " + rest;
    LexBlank(rest);
    match t
    case Sym(c) =>
      assert s[0] == c && s[1] == ' ' && s[1..] == " " + rest;
    case Append =>
      assert s[0] == '>' && s[1] == '>' && s[2..] == " " + rest;
    case Word(w) =>
      WordLenOf(w, rest);
      assert s[0] == w[0] && s[..|w|] == w && s[|w|..] == " " + rest;
  }

  /** Tokens set apart by blanks are read back as they were. */
  lemma {:induction false} LexRender(ts: seq<Token>)
    requires forall i :: 0 <= i < |ts| ==> IsToken(ts[i])
    ensures Lex(Render(ts)) == ts
  {
    if ts != [] {
      var t, rest := ts[0], Render(ts[1..]);
      LexRender(ts[1..]);
      LexShow(t, rest);
      assert ts == [t] + ts[1..];
    }
  }

  // ---------------------------------------------------------------- commands

  /** <, > and >>. */
  datatype Mode = Input | Output | Extend

  datatype Redirect = Redirect(mode: Mode, file: string)

  datatype Cmd =
    | Exec(args: seq<string>)
    | Redir(cmd: Cmd, r: Redirect)
    | Pipe(left: Cmd, right: Cmd)
    | List(left: Cmd, right: Cmd)
    | Back(cmd: Cmd)

  datatype Error = MissingFile | Syntax | TooManyArgs | MissingParen | Leftovers

  datatype Parsed<T> = Ok(value: T, rest: seq<Token>) | Err(error: Error)

  predicate Starts(ts: seq<Token>, c: char) {
    ts != [] && ts[0] == Sym(c)
  }

  /** The redirection a token begins, if it begins one. */
  predicate IsRedirect(ts: seq<Token>) {
    ts != [] && (ts[0] == Sym('<') || ts[0] == Sym('>') || ts[0] == Append)
  }

  function ModeOf(t: Token): Mode {
    if t == Sym('<') then Input else if t == Append then Extend else Output
  }

  /** Wrap a command in redirections, the first one innermost. */
  function Wrap(c: Cmd, rs: seq<Redirect>): Cmd
    decreases rs
  {
    if rs == [] then c else Wrap(Redir(c, rs[0]), rs[1..])
  }

  // ---------------------------------------------------------------- the grammar

  function PRedirs(ts: seq<Token>): (r: Parsed<seq<Redirect>>)
    ensures r.Ok? ==> |r.rest| <= |ts|
  {
    if !IsRedirect(ts) then Ok([], ts)
    else if |ts| == 1 || !ts[1].Word? then Err(MissingFile)
    else
      match PRedirs(ts[2..])
      case Ok(rs, rest) => Ok([Redirect(ModeOf(ts[0]), ts[1].s)] + rs, rest)
      case Err(e) => Err(e)
  }

  predicate EndsExec(ts: seq<Token>) {
    ts == [] || Starts(ts, '|') || Starts(ts, ')') || Starts(ts, '&') || Starts(ts, ';')
  }

  function PArgs(args: seq<string>, rs: seq<Redirect>, ts: seq<Token>): (r: Parsed<Cmd>)
    ensures r.Ok? ==> |r.rest| <= |ts|
    decreases |ts|
  {
    if EndsExec(ts) then Ok(Wrap(Exec(args), rs), ts)
    else if !ts[0].Word? then Err(Syntax)
    else if |args| + 1 >= MAXARGS then Err(TooManyArgs)
    else
      match PRedirs(ts[1..])
      case Ok(more, rest) => PArgs(args + [ts[0].s], rs + more, rest)
      case Err(e) => Err(e)
  }

  function PExec(ts: seq<Token>): (r: Parsed<Cmd>)
    ensures r.Ok? ==> |r.rest| <= |ts|
    decreases |ts|, 0
  {
    if Starts(ts, '(') then PBlock(ts)
    else
      match PRedirs(ts)
      case Ok(rs, rest) => PArgs([], rs, rest)
      case Err(e) => Err(e)
  }

  function PBlock(ts: seq<Token>): (r: Parsed<Cmd>)
    requires Starts(ts, '(')
    ensures r.Ok? ==> |r.rest| <= |ts|
    decreases |ts|, -1
  {
    match PLine(ts[1..])
    case Err(e) => Err(e)
    case Ok(c, rest) =>
      if !Starts(rest, ')') then Err(MissingParen)
      else
        match PRedirs(rest[1..])
        case Ok(rs, rest') => Ok(Wrap(c, rs), rest')
        case Err(e) => Err(e)
  }

  function PPipe(ts: seq<Token>): (r: Parsed<Cmd>)
    ensures r.Ok? ==> |r.rest| <= |ts|
    decreases |ts|, 1
  {
    match PExec(ts)
    case Err(e) => Err(e)
    case Ok(c, rest) =>
      if !Starts(rest, '|') then Ok(c, rest)
      else
        match PPipe(rest[1..])
        case Ok(d, rest') => Ok(Pipe(c, d), rest')
        case Err(e) => Err(e)
  }

  /** The loop over '&': each one puts what is before it in the background. */
  function PBacks(c: Cmd, ts: seq<Token>): (r: (Cmd, seq<Token>))
    ensures |r.1| <= |ts| && !Starts(r.1, '&')
    decreases |ts|
  {
    if Starts(ts, '&') then PBacks(Back(c), ts[1..]) else (c, ts)
  }

  function PLine(ts: seq<Token>): (r: Parsed<Cmd>)
    ensures r.Ok? ==> |r.rest| <= |ts|
    decreases |ts|, 2
  {
    match PPipe(ts)
    case Err(e) => Err(e)
    case Ok(c, rest) =>
      var (c', rest') := PBacks(c, rest);
      if !Starts(rest', ';') then Ok(c', rest')
      else
        match PLine(rest'[1..])
        case Ok(d, rest'') => Ok(List(c', d), rest'')
        case Err(e) => Err(e)
  }

  function Parse(ts: seq<Token>): Parsed<Cmd> {
    match PLine(ts)
    case Err(e) => Err(e)
    case Ok(c, rest) => if rest == [] then Ok(c, []) else Err(Leftovers)
  }

  // ---------------------------------------------------------------- the printer

  predicate Printable(c: Cmd) {
    match c
    case Exec(args) => |args| < MAXARGS && forall i :: 0 <= i < |args| ==> IsWord(args[i])
    case Redir(d, r) => Printable(d) && IsWord(r.file)
    case Pipe(l, r) => Printable(l) && Printable(r)
    case List(l, r) => Printable(l) && Printable(r)
    case Back(d) => Printable(d)
  }

  function Words(args: seq<string>): (ts: seq<Token>)
    ensures |ts| == |args| && forall i :: 0 <= i < |args| ==> ts[i] == Word(args[i])
  {
    seq(|args|, i requires 0 <= i < |args| => Word(args[i]))
  }

  function ModeToken(m: Mode): Token {
    match m
    case Input => Sym('<')
    case Output => Sym('>')
    case Extend => Append
  }

  function ShowLine(c: Cmd): seq<Token>
    decreases c, 3
  {
    match c
    case List(l, r) => ShowBack(l) + [Sym(';')] + ShowLine(r)
    case _ => ShowBack(c)
  }

  function ShowBack(c: Cmd): seq<Token>
    decreases c, 2
  {
    match c
    case Back(d) => ShowBack(d) + [Sym('&')]
    case _ => ShowPipe(c)
  }

  function ShowPipe(c: Cmd): seq<Token>
    decreases c, 1
  {
    match c
    case Pipe(l, r) => ShowExec(l) + [Sym('|')] + ShowPipe(r)
    case _ => ShowExec(c)
  }

  /** A command that can stand in a pipeline: parentheses go around anything else. */
  function ShowExec(c: Cmd): seq<Token>
    decreases c, 0
  {
    match c
    case Exec(args) => Words(args)
    case Redir(d, r) => ShowExec(d) + [ModeToken(r.mode), Word(r.file)]
    case Pipe(l, r) => [Sym('(')] + (ShowExec(l) + [Sym('|')] + ShowPipe(r)) + [Sym(')')]
    case List(l, r) => [Sym('(')] + (ShowBack(l) + [Sym(';')] + ShowLine(r)) + [Sym(')')]
    case Back(d) => [Sym('(')] + (ShowBack(d) + [Sym('&')]) + [Sym(')')]
  }

  // ---------------------------------------------------------------- parsing undoes printing

  function ShowRedirs(rs: seq<Redirect>): seq<Token> {
    if rs == [] then [] else [ModeToken(rs[0].mode), Word(rs[0].file)] + ShowRedirs(rs[1..])
  }

  lemma {:induction false} RedirsRound(rs: seq<Redirect>, rest: seq<Token>)
    requires !IsRedirect(rest)
    ensures PRedirs(ShowRedirs(rs) + rest) == Ok(rs, rest)
  {
    if rs == [] {
      assert ShowRedirs(rs) + rest == rest;
    } else {
      var more := ShowRedirs(rs[1..]) + rest;
      RedirsRound(rs[1..], rest);
      var ts := [ModeToken(rs[0].mode), Word(rs[0].file)] + more;
      assert ShowRedirs(rs) + rest == ts;
      assert ts[0] == ModeToken(rs[0].mode) && ts[1] == Word(rs[0].file) && ts[2..] == more;
      assert rs == [Redirect(rs[0].mode, rs[0].file)] + rs[1..];
    }
  }

  lemma {:induction false} WrapLast(c: Cmd, rs: seq<Redirect>, r: Redirect)
    ensures Wrap(c, rs + [r]) == Redir(Wrap(c, rs), r)
    decreases |rs|
  {
    if rs == [] {
      assert Wrap(c, rs + [r]) == Wrap(Redir(c, r), []);
    } else {
      WrapLast(Redir(c, rs[0]), rs[1..], r);
      assert (rs + [r])[1..] == rs[1..] + [r];
    }
  }

  lemma {:induction false} ShowRedirsLast(rs: seq<Redirect>, r: Redirect)
    ensures ShowRedirs(rs + [r]) == ShowRedirs(rs) + [ModeToken(r.mode), Word(r.file)]
  {
    if rs == [] {
      assert ShowRedirs([r]) == [ModeToken(r.mode), Word(r.file)] + ShowRedirs([]);
    } else {
      ShowRedirsLast(rs[1..], r);
      assert (rs + [r])[1..] == rs[1..] + [r];
    }
  }

  /** A command under its redirections. */
  function Peel(c: Cmd): (p: (Cmd, seq<Redirect>))
    ensures !p.0.Redir?
  {
    match c
    case Redir(d, r) => (Peel(d).0, Peel(d).1 + [r])
    case _ => (c, [])
  }

  lemma {:induction false} Peeled(c: Cmd)
    requires Printable(c)
    ensures c == Wrap(Peel(c).0, Peel(c).1) && Printable(Peel(c).0)
    ensures ShowExec(c) == ShowExec(Peel(c).0) + ShowRedirs(Peel(c).1)
  {
    if c.Redir? {
      Peeled(c.cmd);
      var (b, rs) := Peel(c.cmd);
      WrapLast(b, rs, c.r);
      ShowRedirsLast(rs, c.r);
      assert ShowExec(c) == ShowExec(b) + (ShowRedirs(rs) + [ModeToken(c.r.mode), Word(c.r.file)]);
    }
  }

  lemma NoRedirs(ts: seq<Token>)
    requires !IsRedirect(ts)
    ensures PRedirs(ts) == Ok([], ts)
  {
  }

  lemma ArgsStep(args: seq<string>, rs: seq<Redirect>, w: string, ts: seq<Token>)
    requires |args| + 1 < MAXARGS && PRedirs(ts).Ok?
    ensures PArgs(args, rs, [Word(w)] + ts) == PArgs(args + [w], rs + PRedirs(ts).value, PRedirs(ts).rest)
  {
    hide PRedirs;
    assert ([Word(w)] + ts)[1..] == ts;
  }

  lemma ArgsEnd(args: seq<string>, rs: seq<Redirect>, ts: seq<Token>)
    requires EndsExec(ts)
    ensures PArgs(args, rs, ts) == Ok(Wrap(Exec(args), rs), ts)
  {
  }

  lemma {:induction false} ArgsRound(done: seq<string>, args: seq<string>, rs: seq<Redirect>, rest: seq<Token>)
    requires args != [] && |done| + |args| < MAXARGS && EndsExec(rest)
    ensures PArgs(done, [], Words(args) + ShowRedirs(rs) + rest) == Ok(Wrap(Exec(done + args), rs), rest)
    decreases |args|
  {
    hide ShowRedirs, Wrap, PRedirs, PArgs;
    var none: seq<Redirect> := [];
    var more := Words(args[1..]) + ShowRedirs(rs) + rest;
    assert Words(args) + ShowRedirs(rs) + rest == [Word(args[0])] + more;
    if |args| == 1 {
      RedirsRound(rs, rest);
      assert more == ShowRedirs(rs) + rest;
      assert none + rs == rs && args == [args[0]];
      ArgsStep(done, [], args[0], more);
      ArgsEnd(done + args, rs, rest);
    } else {
      assert more[0] == Word(args[1]);
      NoRedirs(more);
      ArgsStep(done, [], args[0], more);
      ArgsRound(done + [args[0]], args[1..], rs, rest);
      assert none + none == none;
      assert done + [args[0]] + args[1..] == done + args;
    }
  }

  lemma NoParen(rs: seq<Redirect>, rest: seq<Token>)
    requires EndsExec(rest)
    ensures !Starts(ShowRedirs(rs) + rest, '(')
  {
    if rs == [] {
      assert ShowRedirs(rs) + rest == rest;
    }
  }

  lemma SimpleRound(args: seq<string>, rs: seq<Redirect>, rest: seq<Token>)
    requires |args| < MAXARGS && EndsExec(rest)
    ensures PExec(Words(args) + ShowRedirs(rs) + rest) == Ok(Wrap(Exec(args), rs), rest)
  {
    hide ShowRedirs, Wrap, PBlock;
    var ts := Words(args) + ShowRedirs(rs) + rest;
    if args == [] {
      RedirsRound(rs, rest);
      NoParen(rs, rest);
      assert ts == ShowRedirs(rs) + rest;
    } else {
      assert ts[0] == Word(args[0]);
      ArgsRound([], args, rs, rest);
      assert [] + args == args;
    }
  }

  predicate EndsPipe(ts: seq<Token>) {
    ts == [] || Starts(ts, ')') || Starts(ts, '&') || Starts(ts, ';')
  }

  predicate EndsLine(ts: seq<Token>) {
    ts == [] || Starts(ts, ')')
  }

  lemma BlockRound(c: Cmd, body: seq<Token>, rs: seq<Redirect>, rest: seq<Token>)
    requires EndsExec(rest)
    requires PLine(body + ([Sym(')')] + ShowRedirs(rs) + rest)) == Ok(c, [Sym(')')] + ShowRedirs(rs) + rest)
    ensures PExec([Sym('(')] + body + [Sym(')')] + ShowRedirs(rs) + rest) == Ok(Wrap(c, rs), rest)
  {
    hide PLine, ShowRedirs, Wrap;
    var after := [Sym(')')] + ShowRedirs(rs) + rest;
    var ts := [Sym('(')] + body + [Sym(')')] + ShowRedirs(rs) + rest;
    assert ts[0] == Sym('(') && ts[1..] == body + after;
    assert after[0] == Sym(')') && after[1..] == ShowRedirs(rs) + rest;
    RedirsRound(rs, rest);
  }

  /** The four levels of the printer on one command. */
  lemma Levels(c: Cmd)
    ensures !c.List? ==> ShowLine(c) == ShowBack(c)
    ensures !c.Back? ==> ShowBack(c) == ShowPipe(c)
    ensures !c.Pipe? ==> ShowPipe(c) == ShowExec(c)
    ensures !c.Exec? && !c.Redir? ==> ShowExec(c) == [Sym('(')] + ShowLine(c) + [Sym(')')]
  {
    if c.Back? || c.Pipe? {
      assert ShowLine(c) == ShowBack(c);
    }
    if c.Pipe? {
      assert ShowBack(c) == ShowPipe(c);
    }
  }

  lemma {:induction false} ExecRound(c: Cmd, rest: seq<Token>)
    requires Printable(c) && EndsExec(rest)
    ensures PExec(ShowExec(c) + rest) == Ok(c, rest)
    decreases |ShowExec(c)|, 0
  {
    Peeled(c);
    var (b, rs) := Peel(c);
    if b.Exec? {
      SimpleRound(b.args, rs, rest);
    } else {
      var body := ShowLine(b);
      var after := [Sym(')')] + ShowRedirs(rs) + rest;
      Levels(b);
      LineRound(b, after);
      BlockRound(b, body, rs, rest);
    }
  }

  lemma {:induction false} PipeRound(c: Cmd, rest: seq<Token>)
    requires Printable(c) && EndsPipe(rest)
    ensures PPipe(ShowPipe(c) + rest) == Ok(c, rest)
    decreases |ShowPipe(c)|, 1
  {
    hide ShowExec, PExec;
    if c.Pipe? {
      var more := [Sym('|')] + ShowPipe(c.right) + rest;
      ExecRound(c.left, more);
      PipeRound(c.right, rest);
      assert ShowPipe(c) + rest == ShowExec(c.left) + more;
      assert more[1..] == ShowPipe(c.right) + rest;
    } else {
      ExecRound(c, rest);
    }
  }

  /** Whatever PPipe leaves of a printed background command, PBacks turns back into it. */
  lemma {:induction false} BackRound(c: Cmd, rest: seq<Token>) returns (b: Cmd, ts: seq<Token>)
    requires Printable(c) && EndsPipe(rest)
    ensures PPipe(ShowBack(c) + rest) == Ok(b, ts) && PBacks(b, ts) == PBacks(c, rest)
    decreases |ShowBack(c)|, 2
  {
    hide ShowPipe, PPipe;
    if c.Back? {
      b, ts := BackRound(c.cmd, [Sym('&')] + rest);
      assert ShowBack(c) + rest == ShowBack(c.cmd) + ([Sym('&')] + rest);
      assert ([Sym('&')] + rest)[1..] == rest;
    } else {
      PipeRound(c, rest);
      b, ts := c, rest;
    }
  }

  lemma {:induction false} LineRound(c: Cmd, rest: seq<Token>)
    requires Printable(c) && EndsLine(rest)
    ensures PLine(ShowLine(c) + rest) == Ok(c, rest)
    decreases |ShowLine(c)|, 3
  {
    hide ShowBack, PPipe;
    if c.List? {
      var more := [Sym(';')] + ShowLine(c.right) + rest;
      var b, ts := BackRound(c.left, more);
      LineRound(c.right, rest);
      assert ShowLine(c) + rest == ShowBack(c.left) + more;
      assert more[1..] == ShowLine(c.right) + rest;
    } else {
      var b, ts := BackRound(c, rest);
    }
  }

  predicate AllTokens(ts: seq<Token>) {
    forall i :: 0 <= i < |ts| ==> IsToken(ts[i])
  }

  lemma {:induction false} ShownAreTokens(c: Cmd)
    requires Printable(c)
    ensures AllTokens(ShowLine(c)) && AllTokens(ShowBack(c)) && AllTokens(ShowPipe(c)) && AllTokens(ShowExec(c))
  {
    Levels(c);
    match c
    case Exec(args) =>
    case Redir(d, r) => ShownAreTokens(d);
    case Pipe(l, r) => ShownAreTokens(l); ShownAreTokens(r);
    case List(l, r) => ShownAreTokens(l); ShownAreTokens(r);
    case Back(d) => ShownAreTokens(d);
  }

  /** Every command the shell can hold has a text that parses to exactly it. */
  lemma ParseInvertsShow(c: Cmd)
    requires Printable(c)
    ensures Parse(Lex(Render(ShowLine(c)))) == Ok(c, [])
  {
    ShownAreTokens(c);
    LexRender(ShowLine(c));
    LineRound(c, []);
    assert ShowLine(c) + [] == ShowLine(c);
  }

  // ---------------------------------------------------------------- what the parser accepts

  lemma {:induction false} LexTokens(s: string)
    ensures AllTokens(Lex(s))
    decreases |s|
  {
    if s != "" {
      if IsSpace(s[0]) {
        LexTokens(s[1..]);
      } else if s[0] == '>' && |s| > 1 && s[1] == '>' {
        LexTokens(s[2..]);
      } else if IsSymbol(s[0]) {
        LexTokens(s[1..]);
      } else {
        LexTokens(s[WordLen(s)..]);
      }
    }
  }

  predicate Files(rs: seq<Redirect>) {
    forall i :: 0 <= i < |rs| ==> IsWord(rs[i].file)
  }

  lemma {:induction false} RedirsSound(ts: seq<Token>)
    requires AllTokens(ts)
    ensures var p := PRedirs(ts); p.Ok? ==> Files(p.value) && AllTokens(p.rest) && !IsRedirect(p.rest)
  {
    if IsRedirect(ts) && |ts| > 1 && ts[1].Word? {
      RedirsSound(ts[2..]);
      assert IsToken(ts[1]);
    }
  }

  lemma {:induction false} WrapPrintable(c: Cmd, rs: seq<Redirect>)
    requires Printable(c) && Files(rs)
    ensures Printable(Wrap(c, rs))
    decreases |rs|
  {
    if rs != [] {
      WrapPrintable(Redir(c, rs[0]), rs[1..]);
    }
  }

  predicate Accepted(p: Parsed<Cmd>) {
    p.Ok? ==> Printable(p.value) && AllTokens(p.rest)
  }

  lemma {:induction false} ArgsSound(args: seq<string>, rs: seq<Redirect>, ts: seq<Token>)
    requires AllTokens(ts) && Files(rs) && Printable(Exec(args))
    ensures Accepted(PArgs(args, rs, ts))
    decreases |ts|
  {
    if EndsExec(ts) {
      WrapPrintable(Exec(args), rs);
    } else if ts[0].Word? && |args| + 1 < MAXARGS {
      RedirsSound(ts[1..]);
      var p := PRedirs(ts[1..]);
      assert IsToken(ts[0]);
      if p.Ok? {
        ArgsSound(args + [ts[0].s], rs + p.value, p.rest);
      }
    }
  }

  lemma {:induction false} ExecSound(ts: seq<Token>)
    requires AllTokens(ts)
    ensures Accepted(PExec(ts))
    decreases |ts|, 0
  {
    hide PArgs, PLine, PRedirs;
    if Starts(ts, '(') {
      LineSound(ts[1..]);
      var p := PLine(ts[1..]);
      if p.Ok? && Starts(p.rest, ')') {
        RedirsSound(p.rest[1..]);
        var q := PRedirs(p.rest[1..]);
        if q.Ok? {
          WrapPrintable(p.value, q.value);
        }
      }
    } else {
      RedirsSound(ts);
      var p := PRedirs(ts);
      if p.Ok? {
        ArgsSound([], p.value, p.rest);
      }
    }
  }

  lemma {:induction false} PipeSound(ts: seq<Token>)
    requires AllTokens(ts)
    ensures Accepted(PPipe(ts))
    decreases |ts|, 1
  {
    ExecSound(ts);
    var p := PExec(ts);
    if p.Ok? && Starts(p.rest, '|') {
      PipeSound(p.rest[1..]);
    }
  }

  lemma {:induction false} BacksSound(c: Cmd, ts: seq<Token>)
    requires Printable(c) && AllTokens(ts)
    ensures Printable(PBacks(c, ts).0) && AllTokens(PBacks(c, ts).1)
    decreases |ts|
  {
    if Starts(ts, '&') {
      BacksSound(Back(c), ts[1..]);
    }
  }

  lemma {:induction false} LineSound(ts: seq<Token>)
    requires AllTokens(ts)
    ensures Accepted(PLine(ts))
    decreases |ts|, 2
  {
    hide PPipe, PBacks;
    PipeSound(ts);
    var p := PPipe(ts);
    if p.Ok? {
      BacksSound(p.value, p.rest);
      var (c, rest) := PBacks(p.value, p.rest);
      if Starts(rest, ';') {
        LineSound(rest[1..]);
      }
    }
  }

  /**
   Printing a parsed line and parsing that again changes nothing: the printer covers
   every command the parser can build.
   */
  lemma ShowIsFaithful(line: string)
    ensures var p := Parse(Lex(line));
            p.Ok? ==> Printable(p.value) && Parse(Lex(Render(ShowLine(p.value)))) == p
  {
    LexTokens(line);
    LineSound(Lex(line));
    var p := Parse(Lex(line));
    if p.Ok? {
      ParseInvertsShow(p.value);
    }
  }
}
