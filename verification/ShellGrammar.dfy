/**
 What the shell's parser accepts (user/sh.c), said without it: a grammar of lines,
 with the tokens of each and the command each stands for. The parser accepts exactly
 the tokens of the lines of this grammar, and builds exactly their commands; where it
 fails on a simple command, this says with which error.
 */
module ShellGrammar {
  import opened Shell

  /** A word, or a redirection with its file: the two may come in any order. */
  datatype Item = Arg(w: string) | To(r: Redirect)

  datatype Unit = Simple(items: seq<Item>) | Block(body: Line, rs: seq<Redirect>)

  datatype Pipeline = Single(u: Unit) | Bar(u: Unit, right: Pipeline)

  /** A pipeline, the '&'s after it, and what follows a ';'. */
  datatype Line = Last(p: Pipeline, amps: nat) | Then(p: Pipeline, amps: nat, more: Line)

  // ---------------------------------------------------------------- the tokens of a line

  function ItemTokens(it: Item): seq<Token> {
    match it
    case Arg(w) => [Word(w)]
    case To(r) => [ModeToken(r.mode), Word(r.file)]
  }

  function ItemsTokens(items: seq<Item>): seq<Token> {
    if items == [] then [] else ItemTokens(items[0]) + ItemsTokens(items[1..])
  }

  function Amps(n: nat): (ts: seq<Token>)
    ensures |ts| == n && forall i :: 0 <= i < n ==> ts[i] == Sym('&')
  {
    seq(n, _ => Sym('&'))
  }

  function UnitTokens(u: Unit): seq<Token> {
    match u
    case Simple(items) => ItemsTokens(items)
    case Block(body, rs) => [Sym('(')] + LineTokens(body) + [Sym(')')] + ShowRedirs(rs)
  }

  function PipelineTokens(p: Pipeline): seq<Token> {
    match p
    case Single(u) => UnitTokens(u)
    case Bar(u, right) => UnitTokens(u) + [Sym('|')] + PipelineTokens(right)
  }

  function LineTokens(l: Line): seq<Token> {
    match l
    case Last(p, amps) => PipelineTokens(p) + Amps(amps)
    case Then(p, amps, more) => PipelineTokens(p) + Amps(amps) + [Sym(';')] + LineTokens(more)
  }

  // ---------------------------------------------------------------- the command of a line

  function Args(items: seq<Item>): seq<string> {
    if items == [] then []
    else if items[0].Arg? then [items[0].w] + Args(items[1..])
    else Args(items[1..])
  }

  function Redirs(items: seq<Item>): seq<Redirect> {
    if items == [] then []
    else if items[0].To? then [items[0].r] + Redirs(items[1..])
    else Redirs(items[1..])
  }

  /** A command under redirections, the last one outermost. */
  function Under(c: Cmd, rs: seq<Redirect>): Cmd {
    if rs == [] then c else Redir(Under(c, rs[..|rs| - 1]), rs[|rs| - 1])
  }

  function Behind(c: Cmd, n: nat): Cmd {
    if n == 0 then c else Back(Behind(c, n - 1))
  }

  function UnitCmd(u: Unit): Cmd {
    match u
    case Simple(items) => Under(Exec(Args(items)), Redirs(items))
    case Block(body, rs) => Under(LineCmd(body), rs)
  }

  function PipelineCmd(p: Pipeline): Cmd {
    match p
    case Single(u) => UnitCmd(u)
    case Bar(u, right) => Pipe(UnitCmd(u), PipelineCmd(right))
  }

  function LineCmd(l: Line): Cmd {
    match l
    case Last(p, amps) => Behind(PipelineCmd(p), amps)
    case Then(p, amps, more) => List(Behind(PipelineCmd(p), amps), LineCmd(more))
  }

  // ---------------------------------------------------------------- which lines, and where they end

  predicate UnitOk(u: Unit) {
    match u
    case Simple(items) => |Args(items)| < MAXARGS
    case Block(body, _) => LineOk(body)
  }

  predicate PipelineOk(p: Pipeline) {
    match p
    case Single(u) => UnitOk(u)
    case Bar(u, right) => UnitOk(u) && PipelineOk(right)
  }

  predicate LineOk(l: Line) {
    match l
    case Last(p, _) => PipelineOk(p)
    case Then(p, _, more) => PipelineOk(p) && LineOk(more)
  }

  /** Is a unit at its end before these tokens? */
  predicate UnitStops(u: Unit, rest: seq<Token>) {
    if u.Simple? then EndsExec(rest) else !IsRedirect(rest)
  }

  predicate PipelineStops(p: Pipeline, rest: seq<Token>) {
    match p
    case Single(u) => UnitStops(u, rest) && !Starts(rest, '|')
    case Bar(_, right) => PipelineStops(right, rest)
  }

  predicate LineStops(l: Line, rest: seq<Token>) {
    match l
    case Last(p, amps) => (amps == 0 ==> PipelineStops(p, rest)) && !Starts(rest, '&') && !Starts(rest, ';')
    case Then(_, _, more) => LineStops(more, rest)
  }

  /** No word and no redirection with its file begins here. */
  predicate NoItem(ts: seq<Token>) {
    ts == [] || (!ts[0].Word? && !(IsRedirect(ts) && |ts| > 1 && ts[1].Word?))
  }

  lemma {:induction false} LineCloses(l: Line, rest: seq<Token>)
    requires EndsLine(rest)
    ensures LineStops(l, rest)
  {
    if l.Then? {
      LineCloses(l.more, rest);
    } else {
      PipelineCloses(l.p, rest);
    }
  }

  lemma {:induction false} PipelineCloses(p: Pipeline, rest: seq<Token>)
    requires EndsPipe(rest)
    ensures PipelineStops(p, rest)
  {
    if p.Bar? {
      PipelineCloses(p.right, rest);
    }
  }

  // ---------------------------------------------------------------- redirections

  lemma {:induction false} WrapIsUnder(c: Cmd, rs: seq<Redirect>)
    ensures Wrap(c, rs) == Under(c, rs)
  {
    if rs != [] {
      var n := |rs| - 1;
      WrapIsUnder(c, rs[..n]);
      WrapLast(c, rs[..n], rs[n]);
      assert rs == rs[..n] + [rs[n]];
    }
  }

  lemma {:induction false} RedirsMade(ts: seq<Token>)
    requires PRedirs(ts).Ok?
    ensures var p := PRedirs(ts); ts == ShowRedirs(p.value) + p.rest && !IsRedirect(p.rest)
  {
    if IsRedirect(ts) {
      RedirsMade(ts[2..]);
      var p := PRedirs(ts[2..]);
      var r := Redirect(ModeOf(ts[0]), ts[1].s);
      assert ([r] + p.value)[1..] == p.value;
      assert ts == [ModeToken(r.mode), Word(r.file)] + ts[2..];
    }
  }

  lemma {:induction false} RedirsBroken(rs: seq<Redirect>, rest: seq<Token>)
    requires IsRedirect(rest) && NoItem(rest)
    ensures PRedirs(ShowRedirs(rs) + rest) == Err(MissingFile)
  {
    if rs == [] {
      assert ShowRedirs(rs) + rest == rest;
    } else {
      RedirsBroken(rs[1..], rest);
      var ts := [ModeToken(rs[0].mode), Word(rs[0].file)] + (ShowRedirs(rs[1..]) + rest);
      assert ShowRedirs(rs) + rest == ts;
      assert ts[0] == ModeToken(rs[0].mode) && ts[1] == Word(rs[0].file) && ts[2..] == ShowRedirs(rs[1..]) + rest;
    }
  }

  // ---------------------------------------------------------------- simple commands

  /** The redirections at the front of a list of items. */
  function Front(items: seq<Item>): (k: nat)
    ensures k <= |items| && (k < |items| ==> items[k].Arg?) && forall i :: 0 <= i < k ==> items[i].To?
  {
    if items == [] || items[0].Arg? then 0 else 1 + Front(items[1..])
  }

  lemma {:induction false} FrontTokens(items: seq<Item>)
    ensures var k := Front(items);
            ItemsTokens(items) == ShowRedirs(Redirs(items[..k])) + ItemsTokens(items[k..])
  {
    var k := Front(items);
    if k == 0 {
      assert items[..0] == [] && items[0..] == items;
    } else {
      FrontTokens(items[1..]);
      FrontRedirs(items);
      assert items[1..][k - 1..] == items[k..];
    }
  }

  lemma FrontRedirs(items: seq<Item>)
    requires Front(items) > 0
    ensures var k := Front(items); var rs := Redirs(items[..k]);
            Front(items[1..]) == k - 1 && rs == [items[0].r] + rs[1..] && rs[1..] == Redirs(items[1..][..k - 1])
  {
    var k := Front(items);
    assert items[..k][0] == items[0] && items[..k][1..] == items[1..][..k - 1];
  }

  lemma {:induction false} FrontWords(items: seq<Item>)
    ensures var k := Front(items);
            Args(items) == Args(items[k..]) && Redirs(items) == Redirs(items[..k]) + Redirs(items[k..])
  {
    var k := Front(items);
    if k == 0 {
      assert items[..0] == [] && items[0..] == items;
    } else {
      FrontWords(items[1..]);
      FrontRedirs(items);
      hide Front;
      assert items[1..][k - 1..] == items[k..];
      assert Args(items) == Args(items[1..]);
      assert Redirs(items) == [items[0].r] + Redirs(items[1..]);
    }
  }

  /** What becomes of a simple command of these words and redirections before these tokens. */
  function Verdict(args: seq<string>, rs: seq<Redirect>, rest: seq<Token>): Parsed<Cmd> {
    if |args| >= MAXARGS then Err(TooManyArgs)
    else if EndsExec(rest) then Ok(Under(Exec(args), rs), rest)
    else if IsRedirect(rest) then Err(MissingFile)
    else Err(Syntax)
  }

  lemma FrontReads(items: seq<Item>, rest: seq<Token>)
    requires NoItem(rest)
    ensures var k := Front(items); var p := PRedirs(ItemsTokens(items) + rest);
            if k == |items| && IsRedirect(rest) then p == Err(MissingFile)
            else p == Ok(Redirs(items[..k]), ItemsTokens(items[k..]) + rest)
  {
    hide PRedirs, ShowRedirs, Redirs, ItemsTokens;
    FrontTokens(items);
    var k := Front(items);
    var rs := Redirs(items[..k]);
    var more := ItemsTokens(items[k..]) + rest;
    assert ItemsTokens(items) + rest == ShowRedirs(rs) + more;
    MoreReads(items[k..], rest);
    if k == |items| && IsRedirect(rest) {
      RedirsBroken(rs, more);
    } else {
      RedirsRound(rs, more);
    }
  }

  lemma MoreReads(items: seq<Item>, rest: seq<Token>)
    requires items != [] ==> items[0].Arg?
    ensures items == [] ==> ItemsTokens(items) + rest == rest
    ensures items != [] ==> !IsRedirect(ItemsTokens(items) + rest)
  {
    if items != [] {
      assert (ItemsTokens(items) + rest)[0] == Word(items[0].w);
    } else {
      assert ItemsTokens(items) + rest == rest;
    }
  }

  lemma {:induction false} ArgsRead(done: seq<string>, rs: seq<Redirect>, items: seq<Item>, rest: seq<Token>)
    requires |done| < MAXARGS && NoItem(rest)
    requires if items == [] then !IsRedirect(rest) else items[0].Arg?
    ensures PArgs(done, rs, ItemsTokens(items) + rest) == Verdict(done + Args(items), rs + Redirs(items), rest)
    decreases |items|
  {
    hide PRedirs, Wrap, Under, PArgs;
    if items == [] {
      assert ItemsTokens(items) + rest == rest && done + [] == done && rs + [] == rs;
      ArgsLast(done, rs, rest);
    } else {
      var w, after := items[0].w, items[1..];
      var k := Front(after);
      var more := Redirs(after[..k]);
      ItemsFirst(items, rest);
      FrontReads(after, rest);
      FrontWords(after);
      ArgsNext(done, rs, w, ItemsTokens(after) + rest);
      assert done + Args(items) == done + [w] + Args(after[k..]);
      assert rs + Redirs(items) == rs + more + Redirs(after[k..]);
      if k == |after| && IsRedirect(rest) {
        assert Args(after[k..]) == [];
      } else if |done| + 1 < MAXARGS {
        ArgsRead(done + [w], rs + more, after[k..], rest);
      }
    }
  }

  lemma ItemsFirst(items: seq<Item>, rest: seq<Token>)
    requires items != [] && items[0].Arg?
    ensures ItemsTokens(items) + rest == [Word(items[0].w)] + (ItemsTokens(items[1..]) + rest)
    ensures Args(items) == [items[0].w] + Args(items[1..]) && Redirs(items) == Redirs(items[1..])
  {
  }

  lemma ArgsLast(args: seq<string>, rs: seq<Redirect>, rest: seq<Token>)
    requires |args| < MAXARGS && NoItem(rest) && !IsRedirect(rest)
    ensures PArgs(args, rs, rest) == Verdict(args, rs, rest)
  {
    WrapIsUnder(Exec(args), rs);
  }

  lemma ArgsNext(args: seq<string>, rs: seq<Redirect>, w: string, ts: seq<Token>)
    ensures var r := PArgs(args, rs, [Word(w)] + ts); var p := PRedirs(ts);
            if |args| + 1 >= MAXARGS then r == Err(TooManyArgs)
            else if p.Ok? then r == PArgs(args + [w], rs + p.value, p.rest)
            else r == Err(p.error)
  {
    hide PRedirs;
    assert ([Word(w)] + ts)[1..] == ts;
  }

  /**
   A simple command, on any tokens: words and redirections in any order, redirections
   before the first word among them, make one command of all the words under all the
   redirections, both in order; if not, this is the error.
   */
  lemma SimpleCases(items: seq<Item>, rest: seq<Token>)
    requires NoItem(rest) && !(items == [] && Starts(rest, '('))
    ensures PExec(ItemsTokens(items) + rest) == Verdict(Args(items), Redirs(items), rest)
  {
    hide PRedirs, PArgs, PBlock;
    var ts := ItemsTokens(items) + rest;
    assert !Starts(ts, '(') by {
      if items == [] {
        assert ts == rest;
      }
    }
    FrontReads(items, rest);
    FrontWords(items);
    var k := Front(items);
    if k == |items| && IsRedirect(rest) {
      assert Args(items[k..]) == [];
    } else {
      ArgsRead([], Redirs(items[..k]), items[k..], rest);
      assert [] + Args(items[k..]) == Args(items);
    }
  }

  /** Any tokens are the items they begin with and the rest. */
  lemma {:induction false} Cut(ts: seq<Token>) returns (items: seq<Item>, rest: seq<Token>)
    ensures ts == ItemsTokens(items) + rest && NoItem(rest)
    decreases |ts|
  {
    if NoItem(ts) {
      return [], ts;
    }
    var it := if ts[0].Word? then Arg(ts[0].s) else To(Redirect(ModeOf(ts[0]), ts[1].s));
    var n := |ItemTokens(it)|;
    assert ts[..n] == ItemTokens(it);
    items, rest := Cut(ts[n..]);
    assert ([it] + items)[1..] == items;
    assert ts == ItemTokens(it) + (ItemsTokens(items) + rest);
    items := [it] + items;
  }

  // ---------------------------------------------------------------- the lines of the grammar are read

  lemma SimpleReads(items: seq<Item>, rest: seq<Token>)
    requires |Args(items)| < MAXARGS && EndsExec(rest)
    ensures PExec(ItemsTokens(items) + rest) == Ok(UnitCmd(Simple(items)), rest)
  {
    SimpleCases(items, rest);
  }

  lemma {:induction false} UnitReads(u: Unit, rest: seq<Token>)
    requires UnitOk(u) && UnitStops(u, rest)
    ensures PExec(UnitTokens(u) + rest) == Ok(UnitCmd(u), rest)
    decreases u, 0
  {
    hide PExec, PRedirs, LineTokens, PLine, UnitTokens;
    if u.Simple? {
      SimpleReads(u.items, rest);
      assert UnitTokens(u) == ItemsTokens(u.items) by {
        SimpleTokens(u.items);
      }
    } else {
      var after := [Sym(')')] + (ShowRedirs(u.rs) + rest);
      LineCloses(u.body, after);
      LineReads(u.body, after);
      BlockReads(u.body, after);
      RedirsRound(u.rs, rest);
      WrapIsUnder(LineCmd(u.body), u.rs);
      assert after[1..] == ShowRedirs(u.rs) + rest;
      BlockTokens(u.body, u.rs, rest);
    }
  }

  lemma SimpleTokens(items: seq<Item>)
    ensures UnitTokens(Simple(items)) == ItemsTokens(items)
  {
  }

  lemma BlockTokens(l: Line, rs: seq<Redirect>, rest: seq<Token>)
    ensures UnitTokens(Block(l, rs)) + rest == [Sym('(')] + LineTokens(l) + ([Sym(')')] + (ShowRedirs(rs) + rest))
  {
  }

  lemma ThenTokens(p: Pipeline, amps: nat, more: Line, rest: seq<Token>)
    ensures LineTokens(Then(p, amps, more)) + rest ==
            PipelineTokens(p) + (Amps(amps) + ([Sym(';')] + (LineTokens(more) + rest)))
  {
  }

  /** A block: its line, then ')' or the error of a missing one, then redirections. */
  lemma BlockReads(l: Line, after: seq<Token>)
    requires PLine(LineTokens(l) + after) == Ok(LineCmd(l), after)
    ensures var r := PExec([Sym('(')] + LineTokens(l) + after);
            if !Starts(after, ')') then r == Err(MissingParen)
            else
              var p := PRedirs(after[1..]);
              if p.Ok? then r == Ok(Wrap(LineCmd(l), p.value), p.rest) else r == Err(p.error)
  {
    hide PLine, PRedirs, Wrap, LineTokens;
    var ts := [Sym('(')] + LineTokens(l) + after;
    assert ts[0] == Sym('(') && ts[1..] == LineTokens(l) + after;
  }

  lemma {:induction false} PipelineReads(p: Pipeline, rest: seq<Token>)
    requires PipelineOk(p) && PipelineStops(p, rest)
    ensures PPipe(PipelineTokens(p) + rest) == Ok(PipelineCmd(p), rest)
    decreases p, 1
  {
    hide PExec;
    match p
    case Single(u) => UnitReads(u, rest);
    case Bar(u, right) =>
      var more := [Sym('|')] + PipelineTokens(right) + rest;
      UnitReads(u, more);
      PipelineReads(right, rest);
      assert PipelineTokens(p) + rest == UnitTokens(u) + more;
      assert more[1..] == PipelineTokens(right) + rest;
  }

  lemma {:induction false} BehindMore(c: Cmd, n: nat)
    ensures Behind(Back(c), n) == Back(Behind(c, n))
  {
    if n > 0 {
      BehindMore(c, n - 1);
    }
  }

  lemma {:induction false} AmpsRead(c: Cmd, n: nat, rest: seq<Token>)
    requires !Starts(rest, '&')
    ensures PBacks(c, Amps(n) + rest) == (Behind(c, n), rest)
    decreases n
  {
    if n == 0 {
      assert Amps(n) + rest == rest;
    } else {
      AmpsRead(Back(c), n - 1, rest);
      BehindMore(c, n - 1);
      assert (Amps(n) + rest)[1..] == Amps(n - 1) + rest;
    }
  }

  /** A pipeline and its '&'s, before what does not go on with either. */
  lemma SegmentReads(p: Pipeline, amps: nat, rest: seq<Token>)
    requires forall ts :: PipelineStops(p, ts) ==> PPipe(PipelineTokens(p) + ts) == Ok(PipelineCmd(p), ts)
    requires (amps == 0 ==> PipelineStops(p, rest)) && !Starts(rest, '&')
    ensures var r := PPipe(PipelineTokens(p) + Amps(amps) + rest);
            r.Ok? && PBacks(r.value, r.rest) == (Behind(PipelineCmd(p), amps), rest)
  {
    hide PPipe, PBacks, Behind;
    var more := Amps(amps) + rest;
    if amps == 0 {
      assert more == rest;
    } else {
      assert more[0] == Sym('&');
      PipelineCloses(p, more);
    }
    assert PipelineTokens(p) + Amps(amps) + rest == PipelineTokens(p) + more;
    AmpsRead(PipelineCmd(p), amps, rest);
  }

  /** Every line of the grammar is read as its command, up to where it stops. */
  lemma {:induction false} LineReads(l: Line, rest: seq<Token>)
    requires LineOk(l) && LineStops(l, rest)
    ensures PLine(LineTokens(l) + rest) == Ok(LineCmd(l), rest)
    decreases l, 2
  {
    hide PPipe, PBacks, PipelineTokens, Behind;
    var p := l.p;
    forall ts | PipelineStops(p, ts)
      ensures PPipe(PipelineTokens(p) + ts) == Ok(PipelineCmd(p), ts)
    {
      PipelineReads(p, ts);
    }
    match l
    case Last(_, amps) =>
      SegmentReads(p, amps, rest);
    case Then(_, amps, more) =>
      var after := [Sym(';')] + LineTokens(more) + rest;
      PipelineCloses(p, after);
      SegmentReads(p, amps, after);
      LineReads(more, rest);
      assert LineTokens(l) + rest == PipelineTokens(p) + Amps(amps) + after;
      assert after[1..] == LineTokens(more) + rest;
  }

  // ---------------------------------------------------------------- and nothing else is

  lemma {:induction false} UnitMade(ts: seq<Token>) returns (u: Unit)
    requires PExec(ts).Ok?
    ensures var r := PExec(ts);
            UnitOk(u) && ts == UnitTokens(u) + r.rest && UnitStops(u, r.rest) && r.value == UnitCmd(u)
    decreases |ts|, 0
  {
    hide PRedirs, PArgs, PLine;
    if Starts(ts, '(') {
      var l := LineMade(ts[1..]);
      var inner := PLine(ts[1..]);
      RedirsMade(inner.rest[1..]);
      var rs := PRedirs(inner.rest[1..]).value;
      WrapIsUnder(inner.value, rs);
      u := Block(l, rs);
      assert inner.rest == [Sym(')')] + inner.rest[1..];
      assert ts == [Sym('(')] + ts[1..];
      BlockTokens(l, rs, PRedirs(inner.rest[1..]).rest);
    } else {
      var items, rest := Cut(ts);
      if items == [] {
        assert ts == rest;
      }
      SimpleCases(items, rest);
      u := Simple(items);
    }
  }

  lemma {:induction false} PipelineMade(ts: seq<Token>) returns (p: Pipeline)
    requires PPipe(ts).Ok?
    ensures var r := PPipe(ts);
            PipelineOk(p) && ts == PipelineTokens(p) + r.rest && PipelineStops(p, r.rest) && r.value == PipelineCmd(p)
    decreases |ts|, 1
  {
    hide PExec;
    var u := UnitMade(ts);
    var r := PExec(ts);
    if Starts(r.rest, '|') {
      var right := PipelineMade(r.rest[1..]);
      p := Bar(u, right);
      assert r.rest == [Sym('|')] + r.rest[1..];
      assert ts == PipelineTokens(p) + PPipe(ts).rest;
    } else {
      p := Single(u);
    }
  }

  lemma NoAmps(rest: seq<Token>)
    ensures Amps(0) + rest == rest
  {
  }

  lemma {:induction false} AmpsMade(c: Cmd, ts: seq<Token>) returns (n: nat)
    ensures var (d, rest) := PBacks(c, ts); ts == Amps(n) + rest && d == Behind(c, n)
    decreases |ts|
  {
    if Starts(ts, '&') {
      n := AmpsMade(Back(c), ts[1..]);
      BehindMore(c, n);
      assert ts == [Sym('&')] + ts[1..];
      n := n + 1;
      assert ts == Amps(n) + PBacks(c, ts).1;
    } else {
      n := 0;
      assert ts == Amps(0) + ts;
    }
  }

  /** Whatever PLine accepts is a line of the grammar, and its command that line's. */
  lemma {:induction false} LineMade(ts: seq<Token>) returns (l: Line)
    requires PLine(ts).Ok?
    ensures var r := PLine(ts);
            LineOk(l) && ts == LineTokens(l) + r.rest && LineStops(l, r.rest) && r.value == LineCmd(l)
    decreases |ts|, 2
  {
    hide PPipe, PBacks, PipelineTokens, Behind, Amps;
    var p := PipelineMade(ts);
    var r := PPipe(ts);
    var n := AmpsMade(r.value, r.rest);
    var (c, rest) := PBacks(r.value, r.rest);
    if n == 0 {
      NoAmps(rest);
    }
    if Starts(rest, ';') {
      var more := LineMade(rest[1..]);
      l := Then(p, n, more);
      assert rest == [Sym(';')] + rest[1..];
      ThenTokens(p, n, more, PLine(rest[1..]).rest);
    } else {
      l := Last(p, n);
      assert ts == LineTokens(l) + rest;
    }
  }

  /** A line of the grammar that has these tokens and stands for this command. */
  predicate Derives(l: Line, ts: seq<Token>, c: Cmd) {
    LineOk(l) && LineTokens(l) == ts && LineCmd(l) == c
  }

  /** The parser accepts a sequence of tokens with a command if and only if the grammar derives it. */
  lemma ParsesIff(ts: seq<Token>, c: Cmd)
    ensures Parse(ts) == Ok(c, []) <==> exists l :: Derives(l, ts, c)
  {
    hide PLine, LineTokens, LineCmd;
    if Parse(ts) == Ok(c, []) {
      var l := LineMade(ts);
      assert LineTokens(l) + [] == LineTokens(l);
      assert Derives(l, ts, c);
    }
    if l :| Derives(l, ts, c) {
      LineCloses(l, []);
      LineReads(l, []);
      assert LineTokens(l) + [] == LineTokens(l);
    }
  }

  // ---------------------------------------------------------------- what is refused, and why

  /**
   Where the parser gives up: at a simple command that is too long or is followed by
   what it cannot take, inside parentheses, at a parenthesis that is not closed, or at
   a redirection after one that is.
   */
  datatype BadUnit =
    | BadSimple(items: seq<Item>, rest: seq<Token>)
    | BadBody(bad: BadLine)
    | Unclosed(body: Line, rest: seq<Token>)
    | BadRedir(body: Line, rs: seq<Redirect>, rest: seq<Token>)

  datatype BadPipeline = BadHere(bad: BadUnit) | BadRight(u: Unit, right: BadPipeline)

  datatype BadLine = BadNow(bad: BadPipeline) | BadLater(p: Pipeline, amps: nat, later: BadLine)

  function BadUnitTokens(b: BadUnit): seq<Token> {
    match b
    case BadSimple(items, rest) => ItemsTokens(items) + rest
    case BadBody(bad) => [Sym('(')] + BadLineTokens(bad)
    case Unclosed(body, rest) => [Sym('(')] + LineTokens(body) + rest
    case BadRedir(body, rs, rest) => [Sym('(')] + LineTokens(body) + ([Sym(')')] + (ShowRedirs(rs) + rest))
  }

  function BadPipelineTokens(b: BadPipeline): seq<Token> {
    match b
    case BadHere(bad) => BadUnitTokens(bad)
    case BadRight(u, right) => UnitTokens(u) + ([Sym('|')] + BadPipelineTokens(right))
  }

  function BadLineTokens(b: BadLine): seq<Token> {
    match b
    case BadNow(bad) => BadPipelineTokens(bad)
    case BadLater(p, amps, later) => PipelineTokens(p) + Amps(amps) + ([Sym(';')] + BadLineTokens(later))
  }

  predicate BadUnitOk(b: BadUnit) {
    match b
    case BadSimple(items, rest) =>
      NoItem(rest) && !(items == [] && Starts(rest, '(')) && (|Args(items)| >= MAXARGS || !EndsExec(rest))
    case BadBody(bad) => BadLineOk(bad)
    case Unclosed(body, rest) => LineOk(body) && LineStops(body, rest) && !Starts(rest, ')')
    case BadRedir(body, _, rest) => LineOk(body) && IsRedirect(rest) && NoItem(rest)
  }

  predicate BadPipelineOk(b: BadPipeline) {
    match b
    case BadHere(bad) => BadUnitOk(bad)
    case BadRight(u, right) => UnitOk(u) && BadPipelineOk(right)
  }

  predicate BadLineOk(b: BadLine) {
    match b
    case BadNow(bad) => BadPipelineOk(bad)
    case BadLater(p, _, later) => PipelineOk(p) && BadLineOk(later)
  }

  function UnitError(b: BadUnit): Error {
    match b
    case BadSimple(items, rest) =>
      if |Args(items)| >= MAXARGS then TooManyArgs else if IsRedirect(rest) then MissingFile else Syntax
    case BadBody(bad) => LineError(bad)
    case Unclosed(_, _) => MissingParen
    case BadRedir(_, _, _) => MissingFile
  }

  function PipelineError(b: BadPipeline): Error {
    match b
    case BadHere(bad) => UnitError(bad)
    case BadRight(_, right) => PipelineError(right)
  }

  function LineError(b: BadLine): Error {
    match b
    case BadNow(bad) => PipelineError(bad)
    case BadLater(_, _, later) => LineError(later)
  }

  lemma {:induction false} BadUnitReads(b: BadUnit)
    requires BadUnitOk(b)
    ensures PExec(BadUnitTokens(b)) == Err(UnitError(b))
    decreases b, 0
  {
    hide LineTokens, PLine, PRedirs, ShowRedirs, PArgs;
    match b
    case BadSimple(items, rest) => SimpleCases(items, rest);
    case BadBody(bad) =>
      BadLineReads(bad);
      assert BadUnitTokens(b)[1..] == BadLineTokens(bad);
    case Unclosed(body, rest) =>
      LineReads(body, rest);
      BlockReads(body, rest);
    case BadRedir(body, rs, rest) =>
      var after := [Sym(')')] + (ShowRedirs(rs) + rest);
      LineCloses(body, after);
      LineReads(body, after);
      BlockReads(body, after);
      RedirsBroken(rs, rest);
      assert after[1..] == ShowRedirs(rs) + rest;
  }

  lemma {:induction false} BadPipelineReads(b: BadPipeline)
    requires BadPipelineOk(b)
    ensures PPipe(BadPipelineTokens(b)) == Err(PipelineError(b))
    decreases b, 1
  {
    hide PExec, UnitTokens;
    match b
    case BadHere(bad) => BadUnitReads(bad);
    case BadRight(u, right) =>
      var more := [Sym('|')] + BadPipelineTokens(right);
      UnitReads(u, more);
      BadPipelineReads(right);
      assert more[1..] == BadPipelineTokens(right);
  }

  lemma {:induction false} BadLineReads(b: BadLine)
    requires BadLineOk(b)
    ensures PLine(BadLineTokens(b)) == Err(LineError(b))
    decreases b, 2
  {
    hide PPipe, PBacks, PipelineTokens, Behind, Amps;
    match b
    case BadNow(bad) => BadPipelineReads(bad);
    case BadLater(p, amps, later) =>
      forall ts | PipelineStops(p, ts)
        ensures PPipe(PipelineTokens(p) + ts) == Ok(PipelineCmd(p), ts)
      {
        PipelineReads(p, ts);
      }
      var after := [Sym(';')] + BadLineTokens(later);
      PipelineCloses(p, after);
      SegmentReads(p, amps, after);
      BadLineReads(later);
      assert after[1..] == BadLineTokens(later);
  }

  lemma {:induction false} RedirsBad(ts: seq<Token>) returns (rs: seq<Redirect>, rest: seq<Token>)
    requires PRedirs(ts).Err?
    ensures ts == ShowRedirs(rs) + rest && IsRedirect(rest) && NoItem(rest)
  {
    if NoItem(ts) {
      rs, rest := [], ts;
    } else {
      rs, rest := RedirsBad(ts[2..]);
      var r := Redirect(ModeOf(ts[0]), ts[1].s);
      assert ([r] + rs)[1..] == rs;
      assert ts == [ModeToken(r.mode), Word(r.file)] + ts[2..];
      rs := [r] + rs;
    }
  }

  lemma {:induction false} BadUnitMade(ts: seq<Token>) returns (b: BadUnit)
    requires PExec(ts).Err?
    ensures BadUnitOk(b) && BadUnitTokens(b) == ts
    decreases |ts|, 0
  {
    hide PRedirs, PArgs, PLine, LineTokens, LineCmd;
    if Starts(ts, '(') {
      assert ts == [Sym('(')] + ts[1..];
      var inner := PLine(ts[1..]);
      if inner.Err? {
        var bad := BadLineMade(ts[1..]);
        b := BadBody(bad);
      } else {
        var l := LineMade(ts[1..]);
        if Starts(inner.rest, ')') {
          var rs, rest := RedirsBad(inner.rest[1..]);
          assert inner.rest == [Sym(')')] + inner.rest[1..];
          b := BadRedir(l, rs, rest);
        } else {
          b := Unclosed(l, inner.rest);
        }
      }
    } else {
      var items, rest := Cut(ts);
      if items == [] {
        assert ts == rest;
      }
      SimpleCases(items, rest);
      b := BadSimple(items, rest);
    }
  }

  lemma {:induction false} BadPipelineMade(ts: seq<Token>) returns (b: BadPipeline)
    requires PPipe(ts).Err?
    ensures BadPipelineOk(b) && BadPipelineTokens(b) == ts
    decreases |ts|, 1
  {
    hide PExec, UnitTokens, UnitCmd;
    if PExec(ts).Err? {
      var bad := BadUnitMade(ts);
      b := BadHere(bad);
    } else {
      var u := UnitMade(ts);
      var rest := PExec(ts).rest;
      var right := BadPipelineMade(rest[1..]);
      assert rest == [Sym('|')] + rest[1..];
      b := BadRight(u, right);
    }
  }

  lemma {:induction false} BadLineMade(ts: seq<Token>) returns (b: BadLine)
    requires PLine(ts).Err?
    ensures BadLineOk(b) && BadLineTokens(b) == ts
    decreases |ts|, 2
  {
    hide PPipe, PBacks, PipelineTokens, Behind, Amps, PipelineCmd;
    var r := PPipe(ts);
    if r.Err? {
      var bad := BadPipelineMade(ts);
      b := BadNow(bad);
    } else {
      var p := PipelineMade(ts);
      var n := AmpsMade(r.value, r.rest);
      var rest := PBacks(r.value, r.rest).1;
      var later := BadLineMade(rest[1..]);
      assert rest == [Sym(';')] + rest[1..];
      b := BadLater(p, n, later);
    }
  }

  /** A reason to refuse these tokens: a place where the parser gives up, or a whole line with more after it. */
  ghost predicate Refused(ts: seq<Token>, e: Error) {
    || (exists b :: BadLineOk(b) && BadLineTokens(b) == ts && LineError(b) == e)
    || (e == Leftovers && exists l, rest :: Whole(l, rest) && LineTokens(l) + rest == ts)
  }

  predicate Whole(l: Line, rest: seq<Token>) {
    LineOk(l) && LineStops(l, rest) && rest != []
  }

  /** The parser refuses tokens with an error if and only if the grammar has that reason to. */
  lemma RefusesIff(ts: seq<Token>, e: Error)
    ensures Parse(ts) == Err(e) <==> Refused(ts, e)
  {
    hide PLine, LineTokens, LineCmd, BadLineTokens;
    if Parse(ts) == Err(e) {
      var p := PLine(ts);
      if p.Err? {
        var b := BadLineMade(ts);
        BadLineReads(b);
      } else {
        var l := LineMade(ts);
        assert Whole(l, p.rest);
      }
    }
    if b :| BadLineOk(b) && BadLineTokens(b) == ts && LineError(b) == e {
      BadLineReads(b);
    }
    if l, rest :| Whole(l, rest) && LineTokens(l) + rest == ts {
      LineReads(l, rest);
    }
  }

  // ---------------------------------------------------------------- the text of tokens

  predicate Blank(s: string) {
    forall i :: 0 <= i < |s| ==> IsSpace(s[i])
  }

  /** Tokens with blanks before, between and after them. */
  function Layout(ts: seq<Token>, gaps: seq<string>): string
    requires |gaps| == |ts| + 1
  {
    if ts == [] then gaps[0] else gaps[0] + (Show(ts[0]) + Layout(ts[1..], gaps[1..]))
  }

  /** Two tokens that would be read as others if nothing stood between them. */
  predicate Fuses(t: Token, u: Token) {
    (t.Word? && u.Word?) || (t == Sym('>') && (u == Sym('>') || u == Append))
  }

  predicate Apart(ts: seq<Token>, gaps: seq<string>, i: nat)
    requires |gaps| == |ts| + 1 && i + 1 < |ts|
  {
    gaps[i + 1] == "" ==> !Fuses(ts[i], ts[i + 1])
  }

  predicate Laid(ts: seq<Token>, gaps: seq<string>) {
    && |gaps| == |ts| + 1
    && (forall i :: 0 <= i < |gaps| ==> Blank(gaps[i]))
    && (forall i :: 0 <= i < |ts| - 1 ==> Apart(ts, gaps, i))
  }

  lemma {:induction false} LexGap(gap: string, s: string)
    requires Blank(gap)
    ensures Lex(gap + s) == Lex(s)
  {
    if gap == "" {
      assert gap + s == s;
    } else {
      LexGap(gap[1..], s);
      assert (gap + s)[0] == gap[0] && (gap + s)[1..] == gap[1..] + s;
    }
  }

  /** May this text follow the token directly? */
  predicate Follows(t: Token, s: string) {
    s == "" || ((t.Word? ==> !IsWordChar(s[0])) && (t == Sym('>') ==> s[0] != '>'))
  }

  lemma LexFirst(t: Token, s: string)
    requires IsToken(t) && Follows(t, s)
    ensures Lex(Show(t) + s) == [t] + Lex(s)
  {
    var all := Show(t) + s;
    match t
    case Sym(c) => assert all[0] == c && all[1..] == s;
    case Append => assert all[0] == '>' && all[1] == '>' && all[2..] == s;
    case Word(w) =>
      assert forall i :: 0 <= i < |w| ==> all[i] == w[i];
      assert s != "" ==> all[|w|] == s[0];
      assert WordLen(all) == |w|;
      assert all[..|w|] == w && all[|w|..] == s;
  }

  lemma LayoutFollows(ts: seq<Token>, gaps: seq<string>)
    requires ts != [] && Laid(ts, gaps) && AllTokens(ts)
    ensures Follows(ts[0], Layout(ts[1..], gaps[1..]))
  {
    assert Blank(gaps[1]);
    if |ts| > 1 {
      assert Apart(ts, gaps, 0) && IsToken(ts[0]) && IsToken(ts[1]);
      var s := Layout(ts[1..], gaps[1..]);
      if gaps[1] == "" {
        assert s[0] == Show(ts[1])[0];
      } else {
        assert s[0] == gaps[1][0];
      }
    }
  }

  lemma LaidRest(ts: seq<Token>, gaps: seq<string>)
    requires ts != [] && Laid(ts, gaps)
    ensures Laid(ts[1..], gaps[1..])
  {
    forall i | 0 <= i < |ts[1..]| - 1
      ensures Apart(ts[1..], gaps[1..], i)
    {
      assert Apart(ts, gaps, i + 1);
    }
  }

  lemma {:induction false} LexLayout(ts: seq<Token>, gaps: seq<string>)
    requires Laid(ts, gaps) && AllTokens(ts)
    ensures Lex(Layout(ts, gaps)) == ts
    decreases |ts|
  {
    hide Lex, Fuses;
    if ts == [] {
      LexGap(gaps[0], "");
      assert gaps[0] + "" == gaps[0];
      LexNothing();
    } else {
      var more := Layout(ts[1..], gaps[1..]);
      LexGap(gaps[0], Show(ts[0]) + more);
      LayoutFollows(ts, gaps);
      LexFirst(ts[0], more);
      LaidRest(ts, gaps);
      LexLayout(ts[1..], gaps[1..]);
      assert ts == [ts[0]] + ts[1..];
    }
  }

  lemma LexNothing()
    ensures Lex("") == []
  {
  }

  /** The gaps of a text whose first token, or first blank, is put before those of the rest. */
  lemma LaidMore(t: Token, ts: seq<Token>, gaps: seq<string>)
    requires Laid(ts, gaps) && AllTokens(ts) && IsToken(t) && Follows(t, Layout(ts, gaps))
    ensures Laid([t] + ts, [""] + gaps) && Layout([t] + ts, [""] + gaps) == Show(t) + Layout(ts, gaps)
  {
    var us, hs := [t] + ts, [""] + gaps;
    assert us[1..] == ts && hs[1..] == gaps;
    forall i | 0 <= i < |us| - 1
      ensures Apart(us, hs, i)
    {
      if i > 0 {
        assert Apart(ts, gaps, i - 1);
      } else if hs[1] == "" {
        assert IsToken(ts[0]);
        assert Layout(ts, gaps)[0] == Show(ts[0])[0];
      }
    }
  }

  lemma LaidBlank(c: char, ts: seq<Token>, gaps: seq<string>)
    requires Laid(ts, gaps) && IsSpace(c)
    ensures Laid(ts, [[c] + gaps[0]] + gaps[1..])
    ensures Layout(ts, [[c] + gaps[0]] + gaps[1..]) == [c] + Layout(ts, gaps)
  {
    var hs := [[c] + gaps[0]] + gaps[1..];
    assert hs[1..] == gaps[1..] && Blank(gaps[0]);
    forall i | 0 <= i < |ts| - 1
      ensures Apart(ts, hs, i)
    {
      assert Apart(ts, gaps, i);
    }
  }

  /** How much of a text its first token takes. */
  function FirstLen(s: string): (n: nat)
    requires s != "" && !IsSpace(s[0])
    ensures 0 < n <= |s|
  {
    if s[0] == '>' && |s| > 1 && s[1] == '>' then 2 else if IsSymbol(s[0]) then 1 else WordLen(s)
  }

  lemma LexOne(s: string)
    requires s != "" && !IsSpace(s[0])
    ensures var n := FirstLen(s);
            Lex(s) != [] && Lex(s)[1..] == Lex(s[n..]) && Show(Lex(s)[0]) == s[..n]
            && IsToken(Lex(s)[0]) && Follows(Lex(s)[0], s[n..])
  {
    var n := FirstLen(s);
    assert s[n..] != "" ==> s[n..][0] == s[n];
  }

  lemma {:induction false} LexLaid(s: string) returns (gaps: seq<string>)
    ensures Laid(Lex(s), gaps) && Layout(Lex(s), gaps) == s
    decreases |s|
  {
    hide Lex, IsSpace, Apart;
    if s == "" {
      LexNothing();
      gaps := [""];
    } else if IsSpace(s[0]) {
      gaps := LexLaid(s[1..]);
      LaidBlank(s[0], Lex(s[1..]), gaps);
      assert s == [s[0]] + s[1..];
      LexGap([s[0]], s[1..]);
      gaps := [[s[0]] + gaps[0]] + gaps[1..];
    } else {
      var n := FirstLen(s);
      LexOne(s);
      var t := Lex(s)[0];
      gaps := LexLaid(s[n..]);
      LexTokens(s[n..]);
      LaidMore(t, Lex(s[n..]), gaps);
      assert Lex(s) == [t] + Lex(s[n..]);
      assert s == s[..n] + s[n..];
      gaps := [""] + gaps;
    }
  }

  /**
   A text is read as these tokens if and only if it is these tokens with blanks about
   them, none needed except where two of them would be read as one.
   */
  lemma LexIff(s: string, ts: seq<Token>)
    ensures Lex(s) == ts <==> AllTokens(ts) && exists gaps :: Laid(ts, gaps) && Layout(ts, gaps) == s
  {
    if Lex(s) == ts {
      LexTokens(s);
      var gaps := LexLaid(s);
    }
    if AllTokens(ts) {
      if gaps :| Laid(ts, gaps) && Layout(ts, gaps) == s {
        LexLayout(ts, gaps);
      }
    }
  }
}
