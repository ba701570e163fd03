/**
 The pattern matcher and the line-buffering loop of user/grep.c.

 A pattern denotes a language of strings, given here by cutting a string into
 one piece per pattern item. The matcher is proved sound and complete for that
 denotation, and the buffering loop is proved to print a function of the whole
 input, however `read` chops the input up.
 */
module Grep {

  const NUL: char := '\0'
  const BUFSIZE: nat := 1024

  /** A C string: its length is the distance to the terminator, so it holds no NUL. */
  type CString = s: string | NUL !in s

  // ---------------------------------------------------------------- denotation

  datatype Item = One(c: char) | Star(c: char)

  predicate Fits(c: char, x: char) {
    c == '.' || c == x
  }

  ghost predicate ItemMatches(item: Item, w: string) {
    match item
    case One(c) => |w| == 1 && Fits(c, w[0])
    case Star(c) => forall k :: 0 <= k < |w| ==> Fits(c, w[k])
  }

  /** The items of a pattern, with a trailing '$' left out. */
  function Items(re: string): seq<Item> {
    if re == "" || re == "$" then []
    else if |re| > 1 && re[1] == '*' then [Star(re[0])] + Items(re[2..])
    else [One(re[0])] + Items(re[1..])
  }

  /** Does the pattern end in an anchoring '$'? */
  predicate EndAnchored(re: string) {
    if re == "" then false
    else if re == "$" then true
    else if |re| > 1 && re[1] == '*' then EndAnchored(re[2..])
    else EndAnchored(re[1..])
  }

  /** `cuts` divides w into consecutive pieces, piece i matching item i. */
  ghost predicate Cuts(items: seq<Item>, w: string, cuts: seq<nat>) {
    && |cuts| == |items| + 1
    && cuts[0] == 0
    && cuts[|items|] == |w|
    && forall i :: 0 <= i < |items| ==> PieceMatches(items, w, cuts, i)
  }

  ghost predicate PieceMatches(items: seq<Item>, w: string, cuts: seq<nat>, i: int)
    requires 0 <= i < |items| && |cuts| == |items| + 1
  {
    cuts[i] <= cuts[i + 1] <= |w| && ItemMatches(items[i], w[cuts[i]..cuts[i + 1]])
  }

  ghost predicate InLanguage(items: seq<Item>, w: string) {
    exists cuts :: Cuts(items, w, cuts)
  }

  /** Some prefix of text, all of it if the pattern is end-anchored, is in the language of re. */
  ghost predicate MatchesHere(re: string, text: string) {
    exists k :: 0 <= k <= |text| && HereUpTo(re, text, k)
  }

  ghost predicate HereUpTo(re: string, text: string, k: int)
    requires 0 <= k <= |text|
  {
    (EndAnchored(re) ==> k == |text|) && InLanguage(Items(re), text[..k])
  }

  /** Some substring of text, placed as the anchors demand, is in the language of re. */
  ghost predicate Matches(re: string, text: string) {
    if re != "" && re[0] == '^' then MatchesHere(re[1..], text)
    else exists j :: 0 <= j <= |text| && MatchesHere(re, text[j..])
  }

  lemma {:induction false} EmptyLanguage(w: string)
    ensures InLanguage([], w) <==> w == ""
  {
    if w == "" {
      assert Cuts([], w, [0]);
    }
  }

  /** A nonempty item list takes a first piece, and leaves the rest to the other items. */
  lemma {:induction false} ConsLanguage(item: Item, items: seq<Item>, w: string)
    ensures InLanguage([item] + items, w) <==>
            exists j :: 0 <= j <= |w| && ItemMatches(item, w[..j]) && InLanguage(items, w[j..])
  {
    if InLanguage([item] + items, w) {
      var cuts :| Cuts([item] + items, w, cuts);
      SplitCuts(item, items, w, cuts);
    }
    if j :| 0 <= j <= |w| && ItemMatches(item, w[..j]) && InLanguage(items, w[j..]) {
      var rest :| Cuts(items, w[j..], rest);
      JoinCuts(item, items, w, j, rest);
    }
  }

  lemma {:induction false} SplitCuts(item: Item, items: seq<Item>, w: string, cuts: seq<nat>)
    requires Cuts([item] + items, w, cuts)
    ensures cuts[1] <= |w| && ItemMatches(item, w[..cuts[1]]) && InLanguage(items, w[cuts[1]..])
  {
    var all, j := [item] + items, cuts[1];
    assert PieceMatches(all, w, cuts, 0);
    assert w[cuts[0]..cuts[1]] == w[..j];
    CutsMonotone(all, w, cuts, 1);
    var rest: seq<nat> := seq(|items| + 1, i requires 0 <= i <= |items| => cuts[i + 1] - j);
    forall i | 0 <= i < |items|
      ensures PieceMatches(items, w[j..], rest, i)
    {
      assert PieceMatches(all, w, cuts, i + 1);
      assert w[j..][rest[i]..rest[i + 1]] == w[cuts[i + 1]..cuts[i + 2]];
    }
    assert Cuts(items, w[j..], rest);
  }

  lemma {:induction false} JoinCuts(item: Item, items: seq<Item>, w: string, j: nat, rest: seq<nat>)
    requires j <= |w| && ItemMatches(item, w[..j]) && Cuts(items, w[j..], rest)
    ensures InLanguage([item] + items, w)
  {
    var all := [item] + items;
    var cuts: seq<nat> := [0] + seq(|rest|, i requires 0 <= i < |rest| => rest[i] + j);
    forall i | 0 <= i < |all|
      ensures PieceMatches(all, w, cuts, i)
    {
      if i == 0 {
        assert w[cuts[0]..cuts[1]] == w[..j];
      } else {
        assert PieceMatches(items, w[j..], rest, i - 1);
        assert w[cuts[i]..cuts[i + 1]] == w[j..][rest[i - 1]..rest[i]];
      }
    }
    assert Cuts(all, w, cuts);
  }

  lemma {:induction false} CutsMonotone(items: seq<Item>, w: string, cuts: seq<nat>, i: nat)
    requires Cuts(items, w, cuts) && i < |cuts|
    ensures forall k :: i <= k < |cuts| ==> cuts[i] <= cuts[k] <= |w|
    decreases |cuts| - i
  {
    if i + 1 < |cuts| {
      assert PieceMatches(items, w, cuts, i);
      CutsMonotone(items, w, cuts, i + 1);
    }
  }

  // ---------------------------------------------------------------- how a pattern unfolds

  lemma {:induction false} UnfoldEmpty(text: string)
    ensures MatchesHere("", text)
  {
    EmptyLanguage(text[..0]);
    assert HereUpTo("", text, 0);
  }

  lemma {:induction false} UnfoldEnd(text: string)
    ensures MatchesHere("$", text) <==> text == ""
  {
    EmptyLanguage(text[..|text|]);
    assert text[..|text|] == text;
    if text == "" {
      assert HereUpTo("$", text, 0);
    }
  }

  lemma {:induction false} UnfoldOne(re: string, text: string)
    requires re != "" && re != "$" && !(|re| > 1 && re[1] == '*')
    ensures MatchesHere(re, text) <==>
            text != "" && Fits(re[0], text[0]) && MatchesHere(re[1..], text[1..])
  {
    forall k | 0 <= k <= |text|
      ensures HereUpTo(re, text, k) <==>
              k > 0 && Fits(re[0], text[0]) && HereUpTo(re[1..], text[1..], k - 1)
    {
      ConsLanguage(One(re[0]), Items(re[1..]), text[..k]);
      if k > 0 {
        assert text[..k][1..] == text[1..][..k - 1];
        assert text[..k][..1] == [text[0]];
      }
    }
    if text != "" && MatchesHere(re[1..], text[1..]) {
      var k :| 0 <= k <= |text[1..]| && HereUpTo(re[1..], text[1..], k);
      assert Fits(re[0], text[0]) ==> HereUpTo(re, text, k + 1);
    }
  }

  lemma {:induction false} UnfoldStar(re: string, text: string)
    requires |re| > 1 && re[1] == '*'
    ensures MatchesHere(re, text) <==> StarFrom(re[0], re[2..], text, 0)
  {
    var c, rest := re[0], re[2..];
    if MatchesHere(re, text) {
      var k :| 0 <= k <= |text| && HereUpTo(re, text, k);
      ConsLanguage(Star(c), Items(rest), text[..k]);
      var j :| 0 <= j <= k && ItemMatches(Star(c), text[..k][..j]) && InLanguage(Items(rest), text[..k][j..]);
      assert forall i :: 0 <= i < j ==> text[..k][..j][i] == text[i];
      assert text[..k][j..] == text[j..][..k - j];
      assert Run(c, text, 0, j) && HereUpTo(rest, text[j..], k - j);
    }
    if StarFrom(c, rest, text, 0) {
      var j :| 0 <= j <= |text| && Run(c, text, 0, j) && MatchesHere(rest, text[j..]);
      var k :| 0 <= k <= |text[j..]| && HereUpTo(rest, text[j..], k);
      var w := text[..j + k];
      assert w[..j] == text[..j] && w[j..] == text[j..][..k];
      ConsLanguage(Star(c), Items(rest), w);
      assert HereUpTo(re, text, j + k);
    }
  }

  predicate Run(c: char, text: string, i: int, j: int)
    requires 0 <= i <= j <= |text|
  {
    forall k :: i <= k < j ==> Fits(c, text[k])
  }

  /** From position i on, a run of c and then a match of re. */
  ghost predicate StarFrom(c: char, re: string, text: string, i: int)
    requires 0 <= i <= |text|
  {
    exists j :: i <= j <= |text| && Run(c, text, i, j) && MatchesHere(re, text[j..])
  }

  // ---------------------------------------------------------------- the matcher

  method Match(re: CString, text: CString) returns (found: bool)
    ensures found <==> Matches(re, text)
  {
    if re != "" && re[0] == '^' {
      found := MatchHere(re[1..], text);
      return;
    }
    var i := 0;
    while true
      invariant 0 <= i <= |text|
      invariant forall j :: 0 <= j < i ==> !MatchesHere(re, text[j..])
      decreases |text| - i
    {
      var here := MatchHere(re, text[i..]);
      if here {
        return true;
      }
      if i == |text| {
        return false;
      }
      i := i + 1;
    }
  }

  /** Search for re at the beginning of text. */
  method MatchHere(re: CString, text: CString) returns (found: bool)
    ensures found <==> MatchesHere(re, text)
    decreases |re|, 1
  {
    if re == "" {
      UnfoldEmpty(text);
      return true;
    }
    if |re| > 1 && re[1] == '*' {
      UnfoldStar(re, text);
      found := MatchStar(re[0], re[2..], text);
      return;
    }
    if re[0] == '$' && |re| == 1 {
      assert re == "$";
      UnfoldEnd(text);
      return text == "";
    }
    UnfoldOne(re, text);
    if text != "" && (re[0] == '.' || re[0] == text[0]) {
      found := MatchHere(re[1..], text[1..]);
      return;
    }
    return false;
  }

  /** Search for c*re at the beginning of text. */
  method MatchStar(c: char, re: CString, text: CString) returns (found: bool)
    ensures found <==> StarFrom(c, re, text, 0)
    decreases |re|, 2
  {
    var i := 0;
    while true
      invariant 0 <= i <= |text| && Run(c, text, 0, i)
      invariant forall j :: 0 <= j < i ==> !MatchesHere(re, text[j..])
      decreases |text| - i
    {
      var here := MatchHere(re, text[i..]);
      if here {
        return true;
      }
      if i == |text| || !(text[i] == c || c == '.') {
        assert forall j :: i < j <= |text| ==> !Run(c, text, 0, j);
        return false;
      }
      i := i + 1;
    }
  }

  // ---------------------------------------------------------------- the line loop

  /** Position of the first newline, or the length if there is none. */
  function LineEnd(s: string): (k: nat)
    ensures k <= |s| && '\n' !in s[..k]
    ensures k < |s| ==> s[k] == '\n'
  {
    if s == "" || s[0] == '\n' then 0
    else
      var k := LineEnd(s[1..]) + 1;
      assert s[..k] == [s[0]] + s[1..][..k - 1];
      k
  }

  /** A line, without its newline, that the buffer can hold and that is a C string. */
  predicate Readable(line: string) {
    |line| + 1 < BUFSIZE && NUL !in line
  }

  /** What grep prints for an input: the matching lines, up to the first line it cannot read. */
  ghost function Printed(re: string, input: string): string
    decreases |input|
  {
    var k := LineEnd(input);
    if k == |input| || !Readable(input[..k]) then ""
    else (if Matches(re, input[..k]) then input[..k + 1] else "") + Printed(re, input[k + 1..])
  }

  /** An input as its newline-terminated lines. */
  function Unlines(lines: seq<string>): string {
    if lines == [] then "" else lines[0] + "\n" + Unlines(lines[1..])
  }

  ghost function Selected(re: string, lines: seq<string>): seq<string> {
    if lines == [] then []
    else (if Matches(re, lines[0]) then [lines[0]] else []) + Selected(re, lines[1..])
  }

  lemma {:induction false} LineEndOf(line: string, rest: string)
    requires '\n' !in line
    ensures LineEnd(line + "\n" + rest) == |line|
  {
    var s := line + "\n" + rest;
    var k := LineEnd(s);
    assert s[|line|] == '\n' && forall j :: 0 <= j < |line| ==> s[j] == line[j];
    assert forall j :: 0 <= j < k ==> s[..k][j] == s[j];
  }

  lemma {:induction false} PrintedCons(re: string, line: string, rest: string)
    requires '\n' !in line && Readable(line)
    ensures Printed(re, line + "\n" + rest) ==
            (if Matches(re, line) then line + "\n" else "") + Printed(re, rest)
  {
    var s := line + "\n" + rest;
    LineEndOf(line, rest);
    assert s[..|line|] == line && s[..|line| + 1] == line + "\n" && s[|line| + 1..] == rest;
  }

  /** How many lines, from the first, the buffer can hold. */
  function ReadableCount(lines: seq<string>): (n: nat)
    ensures n <= |lines|
  {
    if lines == [] || !Readable(lines[0]) then 0 else 1 + ReadableCount(lines[1..])
  }

  /** The newline-terminated lines of an input, and what comes after the last newline. */
  function Lines(input: string): seq<string>
    decreases |input|
  {
    var k := LineEnd(input);
    if k == |input| then [] else [input[..k]] + Lines(input[k + 1..])
  }

  function Tail(input: string): string
    decreases |input|
  {
    var k := LineEnd(input);
    if k == |input| then input else Tail(input[k + 1..])
  }

  lemma {:induction false} LinesStep(input: string)
    ensures var k := LineEnd(input);
            if k == |input| then Lines(input) == [] && Tail(input) == input && Unlines([]) == ""
            else Lines(input) == [input[..k]] + Lines(input[k + 1..]) && Tail(input) == Tail(input[k + 1..])
  {
    hide LineEnd;
  }

  /** Every input is its lines and its tail, cut at every newline. */
  lemma {:induction false} InputIsLines(input: string)
    ensures input == Unlines(Lines(input)) + Tail(input) && '\n' !in Tail(input)
    ensures forall l :: l in Lines(input) ==> '\n' !in l
    decreases |input|
  {
    hide LineEnd, Lines, Tail, Unlines;
    var k := LineEnd(input);
    LinesStep(input);
    if k == |input| {
      assert input[..k] == input;
    } else {
      var rest := input[k + 1..];
      InputIsLines(rest);
      UnlinesCons(input[..k], Lines(rest));
      assert input == input[..k] + "\n" + rest;
    }
  }

  lemma {:induction false} UnlinesCons(line: string, rest: seq<string>)
    ensures Unlines([line] + rest) == line + "\n" + Unlines(rest)
  {
    assert ([line] + rest)[1..] == rest;
  }

  /** There is no other way to cut it so. */
  lemma {:induction false} LinesOf(lines: seq<string>, tail: string)
    requires '\n' !in tail && forall l :: l in lines ==> '\n' !in l
    ensures Lines(Unlines(lines) + tail) == lines && Tail(Unlines(lines) + tail) == tail
  {
    hide LineEnd, Lines, Tail;
    var input := Unlines(lines) + tail;
    if lines == [] {
      assert input == tail;
      assert LineEnd(tail) == |tail|;
    } else {
      hide Unlines;
      var line, rest := lines[0], Unlines(lines[1..]) + tail;
      LinesOf(lines[1..], tail);
      LineEndOf(line, rest);
      UnlinesCons(line, lines[1..]);
      assert [line] + lines[1..] == lines;
      assert input == line + "\n" + rest;
      assert input[..|line|] == line && input[|line| + 1..] == rest;
    }
    LinesStep(input);
  }

  /** grep is a filter on the lines before the first one it cannot hold, and prints nothing after. */
  lemma {:induction false} PrintsReadableLines(re: string, input: string)
    ensures Printed(re, input) == Unlines(Selected(re, Lines(input)[..ReadableCount(Lines(input))]))
    decreases |input|
  {
    hide LineEnd, Matches, Lines, Unlines, ReadableCount, Printed, Selected, Readable;
    LinesStep(input);
    PrintedStep(re, input);
    NoneSelected(re);
    var k, lines := LineEnd(input), Lines(input);
    if k == |input| {
      assert lines[..ReadableCount(lines)] == [];
    } else {
      var line, rest := input[..k], Lines(input[k + 1..]);
      CountCons(line, rest);
      if Readable(line) {
        PrintsReadableLines(re, input[k + 1..]);
        SelectedCons(re, line, rest, ReadableCount(rest));
        UnlinesCons(line, Selected(re, rest[..ReadableCount(rest)]));
      } else {
        assert lines[..0] == [];
      }
    }
  }

  lemma {:induction false} PrintedStep(re: string, input: string)
    ensures var k := LineEnd(input);
            if k == |input| || !Readable(input[..k]) then Printed(re, input) == ""
            else Printed(re, input)
                   == (if Matches(re, input[..k]) then input[..k] + "\n" else "") + Printed(re, input[k + 1..])
  {
    hide LineEnd, Readable, Matches;
    var k := LineEnd(input);
    assert k < |input| ==> input[..k + 1] == input[..k] + "\n";
  }

  lemma {:induction false} NoneSelected(re: string)
    ensures Unlines(Selected(re, [])) == ""
  {
  }

  lemma {:induction false} CountCons(line: string, rest: seq<string>)
    ensures ReadableCount([line] + rest) == if Readable(line) then 1 + ReadableCount(rest) else 0
  {
    assert ([line] + rest)[1..] == rest;
  }

  lemma {:induction false} SelectedCons(re: string, line: string, rest: seq<string>, n: nat)
    requires n <= |rest|
    ensures Selected(re, ([line] + rest)[..n + 1])
         == if Matches(re, line) then [line] + Selected(re, rest[..n]) else Selected(re, rest[..n])
  {
    assert ([line] + rest)[..n + 1][1..] == rest[..n];
  }

  lemma {:induction false} SelectedSplit(re: string, lines: seq<string>, n: nat)
    requires n <= |lines|
    ensures Selected(re, lines) == Selected(re, lines[..n]) + Selected(re, lines[n..])
  {
    if n == 0 {
      assert lines[0..] == lines && Selected(re, lines[..0]) == [];
    } else {
      SelectedSplit(re, lines[1..], n - 1);
      assert lines[..n][1..] == lines[1..][..n - 1] && lines[1..][n - 1..] == lines[n..];
    }
  }

  lemma {:induction false} UnlinesSplit(a: seq<string>, b: seq<string>)
    ensures Unlines(a + b) == Unlines(a) + Unlines(b)
  {
    if a == [] {
      assert a + b == b;
    } else {
      assert (a + b)[1..] == a[1..] + b;
      UnlinesSplit(a[1..], b);
    }
  }

  lemma {:induction false} SelectedNone(re: string, lines: seq<string>)
    ensures Selected(re, lines) == [] <==> forall l :: l in lines ==> !Matches(re, l)
  {
    if lines != [] {
      SelectedNone(re, lines[1..]);
      assert forall l :: l in lines <==> l == lines[0] || l in lines[1..];
    }
  }

  /** Exactly when every matching line is printed: none lies at or after the first line that does not fit. */
  lemma {:induction false} CompleteIff(re: string, input: string)
    ensures Printed(re, input) == Unlines(Selected(re, Lines(input))) <==>
            forall l :: l in Lines(input)[ReadableCount(Lines(input))..] ==> !Matches(re, l)
  {
    var lines := Lines(input);
    var n := ReadableCount(lines);
    PrintsReadableLines(re, input);
    SelectedSplit(re, lines, n);
    SelectedNone(re, lines[n..]);
    var shown, lost := Selected(re, lines[..n]), Selected(re, lines[n..]);
    UnlinesSplit(shown, lost);
    if lost == [] {
      assert shown + lost == shown;
    }
  }

  /** One input that loses lines: a first line of 1023 bytes, and the short line after it, match and are not printed. */
  lemma LongLineLost()
    ensures var long := seq(BUFSIZE - 1, _ => 'a');
            && Matches("a", long) && Matches("a", "a") && Lines(long + "\na\n") == [long, "a"]
            && Printed("a", long + "\na\n") == ""
  {
    var long := seq(BUFSIZE - 1, _ => 'a');
    OneLetter(long);
    OneLetter("a");
    assert Unlines([long, "a"]) + "" == long + "\na\n" by {
      assert [long, "a"][1..] == ["a"] && ["a"][1..] == [];
      assert Unlines(["a"]) == "a\n";
      assert Unlines([long, "a"]) == long + "\n" + "a\n";
    }
    LinesOf([long, "a"], "");
    PrintsReadableLines("a", long + "\na\n");
    assert !Readable(long);
  }

  lemma {:induction false} OneLetter(text: string)
    requires text != "" && text[0] == 'a'
    ensures Matches("a", text)
  {
    assert Items("a") == [One('a')] by { assert "a"[1..] == ""; }
    assert !EndAnchored("a") by { assert "a"[1..] == ""; }
    var w := text[..1];
    assert w[0..1] == "a";
    assert PieceMatches([One('a')], w, [0, 1], 0);
    assert Cuts([One('a')], w, [0, 1]);
    assert text[0..] == text;
    assert HereUpTo("a", text, 1);
    assert MatchesHere("a", text[0..]);
  }

  /** A text in which strchr finds no newline. */
  predicate NoLine(s: string) {
    forall q :: 0 <= q < |s| && s[q] == '\n' ==> NUL in s[..q]
  }

  /** Once the buffer is full and shows no line, no later input can make it print. */
  lemma {:induction false} StuckPrintsNothing(re: string, s: string, tail: string)
    requires NoLine(s)
    requires |s| + 1 >= BUFSIZE || tail == ""
    ensures Printed(re, s + tail) == ""
  {
    var t := s + tail;
    var k := LineEnd(t);
    if k < |s| {
      assert s[k] == '\n';
      assert t[..k] == s[..k];
    } else if k < |t| {
      assert |t[..k]| >= |s|;
    }
  }

  /** strchr(&buf[p], '\n'): the first newline before the first NUL. */
  method FindNewline(buf: array<char>, p: nat, m: nat) returns (q: nat)
    requires p <= m < buf.Length && buf[m] == NUL
    ensures p <= q <= m
    ensures q < m ==> buf[q] == '\n' && NUL !in buf[p..q] && '\n' !in buf[p..q]
    ensures q == m ==> NoLine(buf[p..m])
  {
    q := p;
    while buf[q] != NUL
      invariant p <= q <= m
      invariant NUL !in buf[p..q] && '\n' !in buf[p..q]
      decreases m - q
    {
      if buf[q] == '\n' {
        return;
      }
      assert buf[p..q + 1] == buf[p..q] + [buf[q]];
      q := q + 1;
    }
    ghost var s := buf[p..m];
    forall i | 0 <= i < |s| && s[i] == '\n'
      ensures NUL in s[..i]
    {
      assert q < i + p by {
        assert forall j :: 0 <= j < q - p ==> buf[p..q][j] == s[j];
      }
      assert s[..i][q - p] == NUL;
    }
    q := m;
  }

  /**
   The debt of the loop: whatever input follows, printing it all is printing `out` and
   then what `pending` followed by that input prints.
   */
  ghost predicate Owes(re: string, done: string, out: string, pending: string) {
    forall tail: string :: OwesOn(re, done, out, pending, tail)
  }

  ghost predicate OwesOn(re: string, done: string, out: string, pending: string, tail: string) {
    Printed(re, done + tail) == out + Printed(re, pending + tail)
  }

  lemma OwesInitially(re: string)
    ensures Owes(re, "", "", "")
  {
    forall tail: string
      ensures OwesOn(re, "", "", "", tail)
    {
      assert "" + tail == tail;
    }
  }

  lemma OwesMore(re: string, done: string, out: string, pending: string, chunk: string)
    requires Owes(re, done, out, pending)
    ensures Owes(re, done + chunk, out, pending + chunk)
  {
    forall tail: string
      ensures OwesOn(re, done + chunk, out, pending + chunk, tail)
    {
      assert OwesOn(re, done, out, pending, chunk + tail);
      assert done + chunk + tail == done + (chunk + tail);
      assert pending + chunk + tail == pending + (chunk + tail);
    }
  }

  /** Printing the first line of what is pending pays its part of the debt. */
  lemma OwesLine(re: string, done: string, out: string, line: string, rest: string)
    requires '\n' !in line && Readable(line)
    requires Owes(re, done, out, line + "\n" + rest)
    ensures Owes(re, done, out + (if Matches(re, line) then line + "\n" else ""), rest)
  {
    var shown := if Matches(re, line) then line + "\n" else "";
    forall tail: string
      ensures OwesOn(re, done, out + shown, rest, tail)
    {
      assert OwesOn(re, done, out, line + "\n" + rest, tail);
      assert line + "\n" + rest + tail == line + "\n" + (rest + tail);
      PrintedCons(re, line, rest + tail);
      assert out + (shown + Printed(re, rest + tail)) == out + shown + Printed(re, rest + tail);
    }
  }

  /** No more input comes, or no more fits: what is left in the buffer prints nothing. */
  lemma OwesNothing(re: string, input: string, pos: nat, out: string, pending: string)
    requires pos <= |input| && NoLine(pending)
    requires Owes(re, input[..pos], out, pending)
    ensures out == Printed(re, input[..pos])
    ensures pos == |input| || |pending| + 1 >= BUFSIZE ==> out == Printed(re, input)
  {
    assert OwesOn(re, input[..pos], out, pending, "");
    assert OwesOn(re, input[..pos], out, pending, input[pos..]);
    StuckPrintsNothing(re, pending, "");
    assert input[..pos] + "" == input[..pos];
    assert input[..pos] + input[pos..] == input;
    if |pending| + 1 >= BUFSIZE {
      StuckPrintsNothing(re, pending, input[pos..]);
    } else if pos == |input| {
      assert input[..pos] == input;
    }
  }

  function Min(a: int, b: int): int {
    if a < b then a else b
  }

  /**
   The main loop. `wish(k)` is how much the k-th read would deliver, so the
   contract holds for every way of splitting the input; a value <= 0 is a failing
   read. Nothing but the input up to the point reached decides the output.
   */
  method GrepInput(re: CString, buf: array<char>, input: string, wish: nat -> int)
    returns (out: string, pos: nat)
    requires buf.Length == BUFSIZE
    modifies buf
    ensures pos <= |input| && out == Printed(re, input[..pos])
    ensures (forall k: nat :: wish(k) > 0) ==> out == Printed(re, input)
  {
    out, pos := "", 0;
    var m, count := 0, 0;
    assert input[..0] == buf[..0] == "";
    OwesInitially(re);
    while true
      invariant 0 <= m < BUFSIZE && pos <= |input| && NoLine(buf[..m])
      invariant Owes(re, input[..pos], out, buf[..m])
      decreases |input| - pos
    {
      var n := Min(wish(count), Min(BUFSIZE - m - 1, |input| - pos));
      if n <= 0 {
        OwesNothing(re, input, pos, out, buf[..m]);
        return;
      }
      count := count + 1;
      OwesMore(re, input[..pos], out, buf[..m], input[pos..pos + n]);
      assert input[..pos + n] == input[..pos] + input[pos..pos + n];
      CopyIn(buf, m, input, pos, n);
      m, pos := m + n, pos + n;
      ghost var whole := buf[..m];
      buf[m] := NUL;
      assert buf[..m] == whole;
      var p;
      out, p := PrintLines(re, buf, m, out, input[..pos]);
      if m > 0 {
        m := m - p;
        MoveDown(buf, p, m);
      }
    }
  }

  /** read(fd, &buf[m], ...) delivering n bytes of the input from pos. */
  method CopyIn(buf: array<char>, m: nat, input: string, pos: nat, n: nat)
    requires m + n < buf.Length && pos + n <= |input|
    modifies buf
    ensures buf[..m + n] == old(buf[..m]) + input[pos..pos + n]
  {
    for i := 0 to n
      invariant buf[..m + i] == old(buf[..m]) + input[pos..pos + i]
    {
      buf[m + i] := input[pos + i];
      assert buf[..m + i + 1] == buf[..m + i] + [input[pos + i]];
    }
  }

  /** memmove(buf, &buf[p], m). */
  method MoveDown(buf: array<char>, p: nat, m: nat)
    requires p + m <= buf.Length
    modifies buf
    ensures buf[..m] == old(buf[p..p + m])
  {
    for i := 0 to m
      invariant buf[..i] == old(buf[p..p + i])
      invariant buf[p + i..p + m] == old(buf[p + i..p + m])
    {
      assert buf[p + i] == buf[p + i..p + m][0] == old(buf[p + i..p + m])[0] == old(buf[p + i]);
      buf[i] := buf[p + i];
      assert buf[p + i + 1..p + m] == old(buf[p + i..p + m])[1..];
      assert buf[..i + 1] == buf[..i] + [buf[i]];
    }
  }

  /** The inner loop: print the matching lines the buffer holds, NUL-terminating each in place. */
  method PrintLines(re: CString, buf: array<char>, m: nat, out0: string, ghost done: string)
    returns (out: string, p: nat)
    requires m < buf.Length == BUFSIZE && buf[m] == NUL
    requires Owes(re, done, out0, buf[..m])
    modifies buf
    ensures p <= m && NoLine(buf[p..m]) && Owes(re, done, out, buf[p..m])
  {
    out, p := out0, 0;
    assert buf[0..m] == buf[..m];
    while true
      invariant p <= m && buf[m] == NUL && Owes(re, done, out, buf[p..m])
      decreases m - p
    {
      var q := FindNewline(buf, p, m);
      if q == m {
        return;
      }
      ghost var line, rest := buf[p..q], buf[q + 1..m];
      assert buf[p..m] == line + "\n" + rest;
      OwesLine(re, done, out, line, rest);
      buf[q] := NUL;
      assert buf[p..q] == line;
      var hit := Match(re, buf[p..q]);
      if hit {
        buf[q] := '\n';
        assert buf[p..q + 1] == line + "\n";
        out := out + buf[p..q + 1];
      } else {
        assert out + "" == out;
      }
      p := q + 1;
      assert buf[p..m] == rest;
    }
  }
}
