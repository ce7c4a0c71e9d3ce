/** Which lines of a source lie inside a request schema: brace depth across lines, with two stacks.
  *
  * Whether a line opens a schema or an input block is a regular-expression test of that line alone; here
  * it is any predicate.
  */
module LineAnalysis {
  import opened Wrappers
  import opened Text
  import CommentStrip

  // ---------------------------------------------------------------- one line

  datatype Scan = Scan(depth: int, quote: Option<char>)

  predicate IsQuote(c: char) { c == '\'' || c == '"' || c == '`' }

  /** One unquoted or quoted character; an escape is handled by the caller. */
  function Turn(st: Scan, c: char): Scan {
    if st.quote.Some? then (if c == st.quote.value then st.(quote := None) else st)
    else if IsQuote(c) then st.(quote := Some(c))
    else if c == '{' then st.(depth := st.depth + 1)
    else if c == '}' then st.(depth := st.depth - 1)
    else st
  }

  /** A backslash inside a string hides the next character of the same line. */
  function ScanFrom(text: string, i: nat, st: Scan): Scan
    decreases |text| - i
  {
    if i >= |text| then st
    else if st.quote.Some? && text[i] == '\\' then ScanFrom(text, i + 2, st)
    else ScanFrom(text, i + 1, Turn(st, text[i]))
  }

  // ---------------------------------------------------------------- what depth counts

  type Unit = CommentStrip.Unit

  /** A piece of a line that starts outside a string. A string left open comes last; one that dangles ends in a
    * backslash that escapes nothing, not even the first character of the next line. */
  datatype Token =
    | Bare(c: char)
    | StringOf(quote: char, units: seq<Unit>)
    | OpenString(quote: char, units: seq<Unit>, dangling: bool)

  /** A line: outside any string, leaving the string it starts in, or wholly inside it. */
  datatype Shape =
    | Outside(tokens: seq<Token>)
    | Leaving(units: seq<Unit>, tokens: seq<Token>)
    | Inside(units: seq<Unit>, dangling: bool)

  function TokenText(t: Token): string {
    match t
    case Bare(c) => [c]
    case StringOf(q, us) => [q] + (CommentStrip.UnitsText(us) + [q])
    case OpenString(q, us, d) => [q] + (CommentStrip.UnitsText(us) + CommentStrip.Dangling(d))
  }

  function TokensText(ts: seq<Token>): string {
    if ts == [] then [] else TokenText(ts[0]) + TokensText(ts[1..])
  }

  function ShapeText(sh: Shape, quote: Option<char>): string
    requires sh.Outside? <==> quote.None?
  {
    match sh
    case Outside(ts) => TokensText(ts)
    case Leaving(us, ts) => CommentStrip.UnitsText(us) + ([quote.value] + TokensText(ts))
    case Inside(us, d) => CommentStrip.UnitsText(us) + CommentStrip.Dangling(d)
  }

  predicate UnitsFit(us: seq<Unit>, q: char) { forall i :: 0 <= i < |us| ==> CommentStrip.UnitFits(us[i], q) }

  predicate TokenFits(t: Token) {
    match t
    case Bare(c) => !IsQuote(c)
    case StringOf(q, us) => IsQuote(q) && UnitsFit(us, q)
    case OpenString(q, us, _) => IsQuote(q) && UnitsFit(us, q)
  }

  predicate TokensFit(ts: seq<Token>) {
    ts == [] || (TokensFit(ts[1..]) && TokenFits(ts[0]) && (ts[0].OpenString? ==> ts[1..] == []))
  }

  /** `sh` is the structure of `text`, where the string `quote` is open before it. */
  predicate IsShapeOf(sh: Shape, text: string, quote: Option<char>) {
    && (sh.Outside? <==> quote.None?) && text == ShapeText(sh, quote)
    && match sh
       case Outside(ts) => TokensFit(ts)
       case Leaving(us, ts) => UnitsFit(us, quote.value) && TokensFit(ts)
       case Inside(us, _) => UnitsFit(us, quote.value)
  }

  /** Opening minus closing braces among the bare characters. */
  function TokensBalance(ts: seq<Token>): int {
    if ts == [] then 0
    else TokensBalance(ts[1..]) + (if ts[0] == Bare('{') then 1 else if ts[0] == Bare('}') then -1 else 0)
  }

  function Balance(sh: Shape): int {
    if sh.Inside? then 0 else TokensBalance(sh.tokens)
  }

  /** The string left open at the end of the tokens. */
  function TokensQuote(ts: seq<Token>): Option<char> {
    if ts == [] then None
    else if ts[0].OpenString? then Some(ts[0].quote) else TokensQuote(ts[1..])
  }

  function QuoteAfter(sh: Shape, quote: Option<char>): Option<char> {
    if sh.Inside? then quote else TokensQuote(sh.tokens)
  }

  lemma {:induction false} ScanShift(a: string, b: string, i: nat, st: Scan)
    ensures ScanFrom(a + b, |a| + i, st) == ScanFrom(b, i, st)
    decreases |b| - i
  {
    if i < |b| {
      assert (a + b)[|a| + i] == b[i];
      if st.quote.Some? && b[i] == '\\' {
        ScanShift(a, b, i + 2, st);
      } else {
        ScanShift(a, b, i + 1, Turn(st, b[i]));
      }
    }
  }

  lemma ScanOne(c: char, b: string, st: Scan)
    requires st.quote.None? || c != '\\'
    ensures ScanFrom([c] + b, 0, st) == ScanFrom(b, 0, Turn(st, c))
  {
    ScanShift([c], b, 0, Turn(st, c));
  }

  lemma ScanUnit(u: Unit, q: char, b: string, depth: int)
    requires CommentStrip.UnitFits(u, q)
    ensures ScanFrom(CommentStrip.UnitText(u) + b, 0, Scan(depth, Some(q))) == ScanFrom(b, 0, Scan(depth, Some(q)))
  {
    match u
    case Literal(c) => ScanOne(c, b, Scan(depth, Some(q)));
    case Escape(c) => ScanShift(['\\', c], b, 0, Scan(depth, Some(q)));
  }

  lemma Reassociate(a: string, b: string, c: string)
    ensures (a + b) + c == a + (b + c)
  {
  }

  lemma {:induction false} ScanUnits(us: seq<Unit>, q: char, b: string, depth: int)
    requires UnitsFit(us, q)
    ensures ScanFrom(CommentStrip.UnitsText(us) + b, 0, Scan(depth, Some(q))) == ScanFrom(b, 0, Scan(depth, Some(q)))
  {
    if us == [] {
      assert [] + b == b;
    } else {
      Reassociate(CommentStrip.UnitText(us[0]), CommentStrip.UnitsText(us[1..]), b);
      ScanUnit(us[0], q, CommentStrip.UnitsText(us[1..]) + b, depth);
      ScanUnits(us[1..], q, b, depth);
    }
  }

  /** A string's own text, from inside it, to the end of the line. */
  lemma ScanToEnd(us: seq<Unit>, q: char, dangling: bool, depth: int)
    requires UnitsFit(us, q)
    ensures ScanFrom(CommentStrip.UnitsText(us) + CommentStrip.Dangling(dangling), 0, Scan(depth, Some(q)))
            == Scan(depth, Some(q))
  {
    ScanUnits(us, q, CommentStrip.Dangling(dangling), depth);
  }

  lemma ScanToClose(us: seq<Unit>, q: char, b: string, depth: int)
    requires UnitsFit(us, q) && IsQuote(q)
    ensures ScanFrom(CommentStrip.UnitsText(us) + ([q] + b), 0, Scan(depth, Some(q))) == ScanFrom(b, 0, Scan(depth, None))
  {
    ScanUnits(us, q, [q] + b, depth);
    ScanOne(q, b, Scan(depth, Some(q)));
  }

  lemma {:induction false} ScanTokens(ts: seq<Token>, depth: int)
    requires TokensFit(ts)
    ensures ScanFrom(TokensText(ts), 0, Scan(depth, None)) == Scan(depth + TokensBalance(ts), TokensQuote(ts))
  {
    if ts != [] {
      var rest := TokensText(ts[1..]);
      match ts[0]
      case Bare(c) =>
        ScanOne(c, rest, Scan(depth, None));
        ScanTokens(ts[1..], Turn(Scan(depth, None), c).depth);
      case StringOf(q, us) =>
        Reassociate([q], CommentStrip.UnitsText(us) + [q], rest);
        Reassociate(CommentStrip.UnitsText(us), [q], rest);
        ScanOne(q, CommentStrip.UnitsText(us) + ([q] + rest), Scan(depth, None));
        ScanToClose(us, q, rest, depth);
        ScanTokens(ts[1..], depth);
      case OpenString(q, us, d) =>
        assert TokenText(ts[0]) + rest == TokenText(ts[0]);
        ScanOne(q, CommentStrip.UnitsText(us) + CommentStrip.Dangling(d), Scan(depth, None));
        ScanToEnd(us, q, d, depth);
        assert TokensBalance(ts[1..]) == 0;
    }
  }

  /** Scanning a line adds its opening minus its closing braces outside strings and escapes. */
  lemma ScanIsBalance(sh: Shape, text: string, depth: int, quote: Option<char>)
    requires IsShapeOf(sh, text, quote) && (quote.Some? ==> IsQuote(quote.value))
    ensures ScanFrom(text, 0, Scan(depth, quote)) == Scan(depth + Balance(sh), QuoteAfter(sh, quote))
    ensures QuoteAfter(sh, quote).Some? ==> IsQuote(QuoteAfter(sh, quote).value)
  {
    match sh
    case Outside(ts) =>
      ScanTokens(ts, depth);
      OpenIsQuote(ts);
    case Leaving(us, ts) =>
      ScanToClose(us, quote.value, TokensText(ts), depth);
      ScanTokens(ts, depth);
      OpenIsQuote(ts);
    case Inside(us, d) => ScanToEnd(us, quote.value, d, depth);
  }

  lemma {:induction false} OpenIsQuote(ts: seq<Token>)
    requires TokensFit(ts)
    ensures TokensQuote(ts).Some? ==> IsQuote(TokensQuote(ts).value)
  {
    if ts != [] && !ts[0].OpenString? {
      OpenIsQuote(ts[1..]);
    }
  }

  lemma StringToken(text: string) returns (t: Token, n: nat)
    requires text != [] && IsQuote(text[0])
    ensures 0 < n <= |text| && TokenText(t) == text[..n] && TokenFits(t) && (t.OpenString? ==> n == |text|)
    ensures !t.Bare?
  {
    var q, rest := text[0], text[1..];
    var us, k := CommentStrip.ReadUnits(rest, q);
    assert text == [q] + rest && rest == rest[..k] + rest[k..];
    if k < |rest| && rest[k] == q {
      t, n := StringOf(q, us), k + 2;
      assert text[..n] == [q] + (rest[..k] + [q]);
    } else {
      t, n := OpenString(q, us, k < |rest|), |text|;
      assert rest[k..] == CommentStrip.Dangling(k < |rest|);
      assert text[..n] == text;
    }
  }

  lemma PrependToken(t: Token, rest: seq<Token>, text: string, n: nat)
    requires n <= |text| && TokenFits(t) && TokensFit(rest) && (t.OpenString? ==> rest == [])
    requires TokenText(t) == text[..n] && TokensText(rest) == text[n..]
    ensures TokensFit([t] + rest) && TokensText([t] + rest) == text
  {
    var all := [t] + rest;
    assert all[0] == t && all[1..] == rest && all != [];
    assert TokensText(all) == text[..n] + text[n..];
  }

  lemma {:induction false} ReadTokens(text: string) returns (ts: seq<Token>)
    ensures TokensFit(ts) && TokensText(ts) == text
    decreases |text|
  {
    ts := [];
    if text != [] {
      var t, n := Bare(text[0]), 1;
      if IsQuote(text[0]) {
        t, n := StringToken(text);
      }
      var rest := ReadTokens(text[n..]);
      if t.OpenString? && rest != [] {
        TokensHaveText(rest);
      }
      PrependToken(t, rest, text, n);
      ts := [t] + rest;
    }
  }

  lemma TokensHaveText(ts: seq<Token>)
    requires ts != []
    ensures TokensText(ts) != []
  {
    assert |TokenText(ts[0])| > 0;
  }

  lemma CutAround(text: string, n: nat)
    requires n < |text|
    ensures text == text[..n] + ([text[n]] + text[n + 1..])
  {
  }

  lemma LeavingFits(text: string, q: char, us: seq<Unit>, n: nat, ts: seq<Token>)
    requires n < |text| && text[n] == q && UnitsFit(us, q) && CommentStrip.UnitsText(us) == text[..n]
    requires TokensFit(ts) && TokensText(ts) == text[n + 1..]
    ensures IsShapeOf(Leaving(us, ts), text, Some(q))
  {
    CutAround(text, n);
  }

  lemma InsideFits(text: string, q: char, us: seq<Unit>, n: nat)
    requires n <= |text| && UnitsFit(us, q) && CommentStrip.UnitsText(us) == text[..n]
    requires text[n..] == CommentStrip.Dangling(n < |text|)
    ensures IsShapeOf(Inside(us, n < |text|), text, Some(q))
  {
    assert text == text[..n] + text[n..];
  }

  /** Every line has such a structure. */
  lemma ReadShape(text: string, quote: Option<char>) returns (sh: Shape)
    requires quote.Some? ==> IsQuote(quote.value)
    ensures IsShapeOf(sh, text, quote)
  {
    if quote.None? {
      var ts := ReadTokens(text);
      sh := Outside(ts);
    } else {
      var us, n := CommentStrip.ReadUnits(text, quote.value);
      if n < |text| && text[n] == quote.value {
        var ts := ReadTokens(text[n + 1..]);
        LeavingFits(text, quote.value, us, n, ts);
        sh := Leaving(us, ts);
      } else {
        assert text[n..] == CommentStrip.Dangling(n < |text|);
        InsideFits(text, quote.value, us, n);
        sh := Inside(us, n < |text|);
      }
    }
  }

  method ScanLine(text: string, depth0: int, quote0: Option<char>) returns (depth: int, quote: Option<char>)
    ensures Scan(depth, quote) == ScanFrom(text, 0, Scan(depth0, quote0))
  {
    depth, quote := depth0, quote0;
    var i := 0;
    while i < |text|
      invariant ScanFrom(text, i, Scan(depth, quote)) == ScanFrom(text, 0, Scan(depth0, quote0))
    {
      var ch := text[i];
      if quote.Some? {
        if ch == '\\' {
          i := i + 1;
        } else if ch == quote.value {
          quote := None;
        }
      } else if IsQuote(ch) {
        quote := Some(ch);
      } else if ch == '{' {
        depth := depth + 1;
      } else if ch == '}' {
        depth := depth - 1;
      }
      i := i + 1;
    }
  }

  // ---------------------------------------------------------------- all lines

  /** The state before line `j`. */
  function StateAt(lines: seq<string>, j: nat): Scan
    requires j <= |lines|
  {
    if j == 0 then Scan(0, None) else ScanFrom(lines[j - 1], 0, StateAt(lines, j - 1))
  }

  function DepthAt(lines: seq<string>, j: nat): int
    requires j <= |lines|
  {
    StateAt(lines, j).depth
  }

  /** The string open before line `j`. */
  function QuoteAt(shapes: seq<Shape>, j: nat): Option<char>
    requires j <= |shapes|
  {
    if j == 0 then None else QuoteAfter(shapes[j - 1], QuoteAt(shapes, j - 1))
  }

  function TotalBalance(shapes: seq<Shape>, j: nat): int
    requires j <= |shapes|
  {
    if j == 0 then 0 else TotalBalance(shapes, j - 1) + Balance(shapes[j - 1])
  }

  /** The structures of the first `j` lines, each in the string the lines before it leave open. */
  ghost predicate ShapesUpto(lines: seq<string>, shapes: seq<Shape>, j: nat)
    requires j <= |lines| && j <= |shapes|
  {
    j == 0 || (ShapesUpto(lines, shapes, j - 1) && IsShapeOf(shapes[j - 1], lines[j - 1], QuoteAt(shapes, j - 1)))
  }

  lemma {:induction false} StateIsBalance(lines: seq<string>, shapes: seq<Shape>, j: nat)
    requires j <= |lines| && j <= |shapes| && ShapesUpto(lines, shapes, j)
    ensures StateAt(lines, j) == Scan(TotalBalance(shapes, j), QuoteAt(shapes, j))
    ensures QuoteAt(shapes, j).Some? ==> IsQuote(QuoteAt(shapes, j).value)
  {
    if j > 0 {
      StateIsBalance(lines, shapes, j - 1);
      ScanIsBalance(shapes[j - 1], lines[j - 1], TotalBalance(shapes, j - 1), QuoteAt(shapes, j - 1));
    }
  }

  lemma {:induction false} MoreShapes(lines: seq<string>, shapes: seq<Shape>, more: seq<Shape>, j: nat)
    requires j <= |lines| && j <= |shapes| && ShapesUpto(lines, shapes, j)
    ensures ShapesUpto(lines, shapes + more, j) && QuoteAt(shapes + more, j) == QuoteAt(shapes, j)
  {
    if j > 0 {
      MoreShapes(lines, shapes, more, j - 1);
    }
  }

  lemma {:induction false} ReadShapes(lines: seq<string>, j: nat) returns (shapes: seq<Shape>)
    requires j <= |lines|
    ensures |shapes| == j && ShapesUpto(lines, shapes, j)
  {
    shapes := [];
    if j > 0 {
      var before := ReadShapes(lines, j - 1);
      StateIsBalance(lines, before, j - 1);
      var last := ReadShape(lines[j - 1], QuoteAt(before, j - 1));
      MoreShapes(lines, before, [last], j - 1);
      shapes := before + [last];
    }
  }

  /** The lines before `j` have such structures, and the depth there is the number of opening minus the number of
    * closing braces they have outside strings and escapes. */
  lemma DepthIsBalance(lines: seq<string>, j: nat)
    requires j <= |lines|
    ensures exists shapes :: |shapes| == j && ShapesUpto(lines, shapes, j)
    ensures forall shapes :: |shapes| == j && ShapesUpto(lines, shapes, j) ==>
              DepthAt(lines, j) == TotalBalance(shapes, j)
  {
    var found := ReadShapes(lines, j);
    forall shapes | |shapes| == j && ShapesUpto(lines, shapes, j)
      ensures DepthAt(lines, j) == TotalBalance(shapes, j)
    {
      StateIsBalance(lines, shapes, j);
    }
  }

  /** Line `i` opened a block, and every later line up to `j` starts deeper than line `i` did. */
  ghost predicate StillOpen(lines: seq<string>, opens: string -> bool, i: nat, j: nat)
    requires i < j <= |lines|
  {
    opens(lines[i]) && forall k :: i < k <= j ==> DepthAt(lines, k) > DepthAt(lines, i)
  }

  ghost predicate InsideAt(lines: seq<string>, opens: string -> bool, j: nat)
    requires j <= |lines|
  {
    exists i :: 0 <= i < j && StillOpen(lines, opens, i, j)
  }

  predicate Increasing(s: seq<int>) { forall i, j :: 0 <= i < j < |s| ==> s[i] < s[j] }

  /** The stack before line `j` holds the starting depths of the blocks still open, outermost first. */
  ghost predicate StackAt(lines: seq<string>, opens: string -> bool, j: nat, stack: seq<int>)
    requires j <= |lines|
  {
    && Increasing(stack)
    && (forall x :: x in stack ==> x < DepthAt(lines, j))
    && (forall x :: x in stack ==> exists i :: 0 <= i < j && StillOpen(lines, opens, i, j) && DepthAt(lines, i) == x)
    && (forall i :: 0 <= i < j && StillOpen(lines, opens, i, j) ==> DepthAt(lines, i) in stack)
  }

  lemma StackDecides(lines: seq<string>, opens: string -> bool, j: nat, stack: seq<int>)
    requires j <= |lines| && StackAt(lines, opens, j, stack)
    ensures |stack| > 0 <==> InsideAt(lines, opens, j)
  {
    if |stack| > 0 {
      assert stack[0] in stack;
    }
  }

  /** Pops while the depth has come back to the top of the stack. */
  method PopTo(stack: seq<int>, depth: int) returns (r: seq<int>)
    ensures r <= stack
    ensures |r| > 0 ==> r[|r| - 1] < depth
    ensures forall i :: |r| <= i < |stack| ==> stack[i] >= depth
  {
    r := stack;
    while |r| > 0 && depth <= r[|r| - 1]
      invariant r <= stack
      invariant forall i :: |r| <= i < |stack| ==> stack[i] >= depth
    {
      r := r[..|r| - 1];
    }
  }

  function Pushed(stack: seq<int>, pushes: bool, start: int): seq<int> {
    if pushes then stack + [start] else stack
  }

  lemma PushIncreases(stack: seq<int>, pushes: bool, start: int)
    requires Increasing(stack) && forall x :: x in stack ==> x < start
    ensures Increasing(Pushed(stack, pushes, start))
    ensures forall x :: x in Pushed(stack, pushes, start) <==> x in stack || (pushes && x == start)
  {
    assert forall i :: 0 <= i < |stack| ==> stack[i] in stack;
  }

  /** Of an increasing stack, popping leaves exactly the entries below the depth. */
  lemma PopKeepsBelow(stack: seq<int>, r: seq<int>, depth: int)
    requires Increasing(stack) && r <= stack && (|r| > 0 ==> r[|r| - 1] < depth)
    requires forall i :: |r| <= i < |stack| ==> stack[i] >= depth
    ensures Increasing(r) && forall x :: x in r <==> x in stack && x < depth
  {
    forall x | x in r
      ensures x in stack && x < depth
    {
      var i :| 0 <= i < |r| && r[i] == x;
      assert stack[i] == x;
    }
    forall x | x in stack && x < depth
      ensures x in r
    {
      var i :| 0 <= i < |stack| && stack[i] == x;
      assert r[i] == x;
    }
  }

  lemma StillOpenStep(lines: seq<string>, opens: string -> bool, i: nat, j: nat)
    requires i < j < |lines|
    ensures StillOpen(lines, opens, i, j + 1) <==> StillOpen(lines, opens, i, j) && DepthAt(lines, i) < DepthAt(lines, j + 1)
  {
  }

  /** Pushing the start of an opening line and popping back to the new depth keeps the stack right. */
  lemma StackStep(lines: seq<string>, opens: string -> bool, j: nat, stack: seq<int>, r: seq<int>)
    requires j < |lines| && StackAt(lines, opens, j, stack)
    requires var pushed := Pushed(stack, opens(lines[j]), DepthAt(lines, j));
             && r <= pushed && (|r| > 0 ==> r[|r| - 1] < DepthAt(lines, j + 1))
             && forall i :: |r| <= i < |pushed| ==> pushed[i] >= DepthAt(lines, j + 1)
    ensures StackAt(lines, opens, j + 1, r)
  {
    PushIncreases(stack, opens(lines[j]), DepthAt(lines, j));
    PopKeepsBelow(Pushed(stack, opens(lines[j]), DepthAt(lines, j)), r, DepthAt(lines, j + 1));
    forall x | x in r
      ensures exists i :: 0 <= i < j + 1 && StillOpen(lines, opens, i, j + 1) && DepthAt(lines, i) == x
    {
      if x in stack {
        var i :| 0 <= i < j && StillOpen(lines, opens, i, j) && DepthAt(lines, i) == x;
        StillOpenStep(lines, opens, i, j);
      } else {
        assert StillOpen(lines, opens, j, j + 1);
      }
    }
    forall i | 0 <= i < j + 1 && StillOpen(lines, opens, i, j + 1)
      ensures DepthAt(lines, i) in r
    {
      if i < j {
        StillOpenStep(lines, opens, i, j);
      }
    }
  }

  datatype Line = Line(text: string, inputOpenAtStart: bool)

  /** A schema block and an input block are both open where line `j` starts. */
  ghost predicate Reported(
    lines: seq<string>, opensSchema: string -> bool, opensInput: string -> bool, j: nat, line: Line)
    requires j < |lines|
  {
    && line.text == lines[j]
    && (line.inputOpenAtStart <==> InsideAt(lines, opensSchema, j) && InsideAt(lines, opensInput, j))
  }

  /** The first `n` lines are reported. */
  ghost predicate AllReported(
    lines: seq<string>, opensSchema: string -> bool, opensInput: string -> bool, out: seq<Line>, n: nat)
    requires n <= |lines| && n <= |out|
  {
    n == 0
    || (AllReported(lines, opensSchema, opensInput, out, n - 1)
        && Reported(lines, opensSchema, opensInput, n - 1, out[n - 1]))
  }

  lemma {:induction false} ReportedStays(
    lines: seq<string>, opensSchema: string -> bool, opensInput: string -> bool, out: seq<Line>, more: seq<Line>, n: nat)
    requires n <= |lines| && n <= |out| && AllReported(lines, opensSchema, opensInput, out, n)
    ensures AllReported(lines, opensSchema, opensInput, out + more, n)
  {
    if n > 0 {
      ReportedStays(lines, opensSchema, opensInput, out, more, n - 1);
    }
  }

  lemma {:induction false} EachReported(
    lines: seq<string>, opensSchema: string -> bool, opensInput: string -> bool, out: seq<Line>, n: nat, j: nat)
    requires j < n <= |lines| && n <= |out| && AllReported(lines, opensSchema, opensInput, out, n)
    ensures Reported(lines, opensSchema, opensInput, j, out[j])
  {
    if j < n - 1 {
      EachReported(lines, opensSchema, opensInput, out, n - 1, j);
    }
  }

  method AnalyseLines(code: string, opensSchema: string -> bool, opensInput: string -> bool) returns (out: seq<Line>)
    ensures |out| == |Split(code, '\n')|
    ensures forall j :: 0 <= j < |out| ==> Reported(Split(code, '\n'), opensSchema, opensInput, j, out[j])
  {
    out := [];
    var schemaDepths: seq<int>, inputDepths: seq<int> := [], [];
    var depth, quote := 0, None;
    var lines := Split(code, '\n');
    for j := 0 to |lines|
      invariant |out| == j && Scan(depth, quote) == StateAt(lines, j)
      invariant StackAt(lines, opensSchema, j, schemaDepths) && StackAt(lines, opensInput, j, inputDepths)
      invariant AllReported(lines, opensSchema, opensInput, out, j)
    {
      var text := lines[j];
      StackDecides(lines, opensSchema, j, schemaDepths);
      StackDecides(lines, opensInput, j, inputDepths);
      ReportedStays(lines, opensSchema, opensInput, out, [Line(text, |schemaDepths| > 0 && |inputDepths| > 0)], j);
      out := out + [Line(text, |schemaDepths| > 0 && |inputDepths| > 0)];
      var depthAtLineStart := depth;
      depth, quote := ScanLine(text, depth, quote);
      schemaDepths := Follow(lines, opensSchema, j, schemaDepths, depthAtLineStart, depth);
      inputDepths := Follow(lines, opensInput, j, inputDepths, depthAtLineStart, depth);
    }
    forall j | 0 <= j < |out|
      ensures Reported(lines, opensSchema, opensInput, j, out[j])
    {
      EachReported(lines, opensSchema, opensInput, out, |lines|, j);
    }
  }

  /** One stack over one line. */
  method Follow(lines: seq<string>, opens: string -> bool, j: nat, stack: seq<int>, start: int, depth: int)
    returns (r: seq<int>)
    requires j < |lines| && StackAt(lines, opens, j, stack)
    requires start == DepthAt(lines, j) && depth == DepthAt(lines, j + 1)
    ensures StackAt(lines, opens, j + 1, r)
  {
    r := stack;
    if opens(lines[j]) {
      r := r + [start];
    }
    r := PopTo(r, depth);
    StackStep(lines, opens, j, stack, r);
  }
}
