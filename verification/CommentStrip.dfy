/** The two character-level comment strippers: one that knows about string literals, one that does not. */
module CommentStrip {
  import opened Wrappers

  /** What the scanner is inside of. */
  datatype Mode = Code | LineComment | BlockComment | Quoted(quote: char)

  const QUOTES: set<char> := {'\'', '"', '`'}

  /** The text with every comment character except newlines blanked; `quotes` open string literals. */
  function Strip(s: string, mode: Mode, quotes: set<char>): (r: string)
    ensures |r| == |s|
  {
    if s == [] then []
    else
      match mode
      case LineComment =>
        if s[0] == '\n' then [s[0]] + Strip(s[1..], Code, quotes) else " " + Strip(s[1..], LineComment, quotes)
      case BlockComment =>
        if s[0] == '*' && |s| > 1 && s[1] == '/' then "  " + Strip(s[2..], Code, quotes)
        else (if s[0] == '\n' then "\n" else " ") + Strip(s[1..], BlockComment, quotes)
      case Quoted(q) =>
        if s[0] == '\\' then
          if |s| == 1 then s else [s[0], s[1]] + Strip(s[2..], mode, quotes)
        else [s[0]] + Strip(s[1..], if s[0] == q then Code else mode, quotes)
      case Code =>
        if s[0] == '/' && |s| > 1 && s[1] == '*' then "  " + Strip(s[2..], BlockComment, quotes)
        else if s[0] == '/' && |s| > 1 && s[1] == '/' then "  " + Strip(s[2..], LineComment, quotes)
        else [s[0]] + Strip(s[1..], if s[0] in quotes then Quoted(s[0]) else Code, quotes)
  }

  // ---------------------------------------------------------------- one character at a time

  lemma LineCons(c: char, x: string, quotes: set<char>)
    ensures Strip([c] + x, LineComment, quotes)
            == if c == '\n' then [c] + Strip(x, Code, quotes) else " " + Strip(x, LineComment, quotes)
  {
    assert ([c] + x)[1..] == x;
  }

  lemma BlockCons(c: char, x: string, quotes: set<char>)
    requires c == '*' && x != [] ==> x[0] != '/'
    ensures Strip([c] + x, BlockComment, quotes) == (if c == '\n' then "\n" else " ") + Strip(x, BlockComment, quotes)
  {
    assert ([c] + x)[1..] == x;
  }

  lemma BlockEnd(x: string, quotes: set<char>)
    ensures Strip(['*', '/'] + x, BlockComment, quotes) == "  " + Strip(x, Code, quotes)
  {
    assert (['*', '/'] + x)[2..] == x;
  }

  lemma QuotedCons(c: char, x: string, q: char, quotes: set<char>)
    requires c != '\\'
    ensures Strip([c] + x, Quoted(q), quotes) == [c] + Strip(x, if c == q then Code else Quoted(q), quotes)
  {
    assert ([c] + x)[1..] == x;
  }

  lemma EscapeCons(c: char, x: string, q: char, quotes: set<char>)
    ensures Strip(['\\', c] + x, Quoted(q), quotes) == ['\\', c] + Strip(x, Quoted(q), quotes)
  {
    assert (['\\', c] + x)[2..] == x;
  }

  lemma CodeOpen(c: char, x: string, quotes: set<char>)
    requires c == '*' || c == '/'
    ensures Strip(['/', c] + x, Code, quotes) == "  " + Strip(x, if c == '*' then BlockComment else LineComment, quotes)
  {
    assert (['/', c] + x)[2..] == x;
  }

  lemma CodeCons(c: char, x: string, quotes: set<char>)
    requires c == '/' && x != [] ==> x[0] != '/' && x[0] != '*'
    ensures Strip([c] + x, Code, quotes) == [c] + Strip(x, if c in quotes then Quoted(c) else Code, quotes)
  {
    assert ([c] + x)[1..] == x;
  }

  // ---------------------------------------------------------------- the scanning loops

  function ModeOf(inLine: bool, inBlock: bool, inString: Option<char>): Mode {
    if inLine then LineComment else if inBlock then BlockComment
    else if inString.Some? then Quoted(inString.value) else Code
  }

  /** One turn of the scan: what is written, the new mode, and how far the index moves. */
  datatype Turn = Turn(written: string, mode: Mode, used: nat)

  function TurnAt(s: string, i: nat, mode: Mode, quotes: set<char>): (t: Turn)
    requires i < |s|
    ensures t.used == 1 || t.used == 2
  {
    var ch := s[i];
    var next := if i + 1 < |s| then [s[i + 1]] else "";
    match mode
    case LineComment => if ch == '\n' then Turn("\n", Code, 1) else Turn(" ", LineComment, 1)
    case BlockComment =>
      if ch == '*' && next == "/" then Turn("  ", Code, 2) else Turn(if ch == '\n' then "\n" else " ", BlockComment, 1)
    case Quoted(q) =>
      if ch == '\\' then Turn([ch] + next, mode, 2) else Turn([ch], if ch == q then Code else mode, 1)
    case Code =>
      if ch == '/' && next == "*" then Turn("  ", BlockComment, 2)
      else if ch == '/' && next == "/" then Turn("  ", LineComment, 2)
      else Turn([ch], if ch in quotes then Quoted(ch) else Code, 1)
  }

  /** What is still to be written when the scan stands at `i`, which may be one past the end. */
  function Rest(s: string, i: nat, mode: Mode, quotes: set<char>): string
    decreases |s| - i
  {
    if i >= |s| then []
    else
      var t := TurnAt(s, i, mode, quotes);
      t.written + Rest(s, i + t.used, t.mode, quotes)
  }

  function StripFrom(s: string, i: nat, mode: Mode, quotes: set<char>): string {
    if i <= |s| then Strip(s[i..], mode, quotes) else []
  }

  lemma TurnIsOneStep(s: string, i: nat, mode: Mode, quotes: set<char>)
    requires i < |s|
    ensures var t := TurnAt(s, i, mode, quotes);
            StripFrom(s, i, mode, quotes) == t.written + StripFrom(s, i + t.used, t.mode, quotes)
  {
    var ch, x := s[i], s[i + 1..];
    assert s[i..] == [ch] + x;
    var two := i + 1 < |s|;
    if two {
      assert s[i..] == [ch, s[i + 1]] + s[i + 2..];
      assert x[0] == s[i + 1];
    }
    match mode
    case LineComment => LineCons(ch, x, quotes);
    case BlockComment =>
      if ch == '*' && two && s[i + 1] == '/' { BlockEnd(s[i + 2..], quotes); } else { BlockCons(ch, x, quotes); }
    case Quoted(q) =>
      if ch != '\\' { QuotedCons(ch, x, q, quotes); }
      else if two { EscapeCons(s[i + 1], s[i + 2..], q, quotes); }
    case Code =>
      if ch == '/' && two && (s[i + 1] == '*' || s[i + 1] == '/') { CodeOpen(s[i + 1], s[i + 2..], quotes); }
      else { CodeCons(ch, x, quotes); }
  }

  /** A turn keeps what has been written together with what is still to be written. */
  lemma TurnKeepsTheWhole(
    s: string, i: nat, mode: Mode, quotes: set<char>, out: string, all: string, j: nat, after: Mode, more: string)
    requires i < |s| && out + Rest(s, i, mode, quotes) == all
    requires var t := TurnAt(s, i, mode, quotes); more == out + t.written && j == i + t.used && after == t.mode
    ensures more + Rest(s, j, after, quotes) == all
  {
    var t := TurnAt(s, i, mode, quotes);
    OneTurn(s, i, mode, quotes);
    Associate(out, t.written, Rest(s, i + t.used, t.mode, quotes));
  }

  lemma OneTurn(s: string, i: nat, mode: Mode, quotes: set<char>)
    requires i < |s|
    ensures var t := TurnAt(s, i, mode, quotes);
            Rest(s, i, mode, quotes) == t.written + Rest(s, i + t.used, t.mode, quotes)
  {
  }

  lemma {:induction false} RestIsStrip(s: string, i: nat, mode: Mode, quotes: set<char>)
    ensures Rest(s, i, mode, quotes) == StripFrom(s, i, mode, quotes)
    decreases |s| - i
  {
    if i < |s| {
      var t := TurnAt(s, i, mode, quotes);
      TurnIsOneStep(s, i, mode, quotes);
      RestIsStrip(s, i + t.used, t.mode, quotes);
      OneTurn(s, i, mode, quotes);
    } else if i == |s| {
      assert s[i..] == [];
    }
  }

  lemma WholeIsRest(s: string, quotes: set<char>)
    ensures Rest(s, 0, Code, quotes) == Strip(s, Code, quotes)
  {
    RestIsStrip(s, 0, Code, quotes);
    assert s[0..] == s;
  }

  /** The stripper that keeps string literals. */
  method StripComments(source: string) returns (out: string)
    ensures out == Strip(source, Code, QUOTES)
  {
    out := "";
    var i := 0;
    var inBlock, inLine := false, false;
    var inString: Option<char> := None;
    ghost var all := Strip(source, Code, QUOTES);
    WholeIsRest(source, QUOTES);
    while i < |source|
      invariant i <= |source| + 1
      invariant !(inLine && inBlock) && (inString.Some? ==> !inLine && !inBlock)
      invariant out + Rest(source, i, ModeOf(inLine, inBlock, inString), QUOTES) == all
    {
      ghost var mode, from, before := ModeOf(inLine, inBlock, inString), i, out;
      var ch := source[i];
      var next := if i + 1 < |source| then [source[i + 1]] else "";
      if inLine {
        if ch == '\n' {
          inLine := false;
          out := out + [ch];
        } else {
          out := out + " ";
        }
        i := i + 1;
      } else if inBlock {
        if ch == '*' && next == "/" {
          inBlock := false;
          out := out + "  ";
          i := i + 2;
        } else {
          out := out + if ch == '\n' then "\n" else " ";
          i := i + 1;
        }
      } else if inString.Some? {
        out := out + [ch];
        if ch == '\\' {
          out := out + next;
          i := i + 2;
        } else {
          if ch == inString.value {
            inString := None;
          }
          i := i + 1;
        }
      } else if ch == '/' && next == "*" {
        inBlock := true;
        out := out + "  ";
        i := i + 2;
      } else if ch == '/' && next == "/" {
        inLine := true;
        out := out + "  ";
        i := i + 2;
      } else {
        if ch in QUOTES {
          inString := Some(ch);
        }
        out := out + [ch];
        i := i + 1;
      }
      TurnKeepsTheWhole(source, from, mode, QUOTES, before, all, i, ModeOf(inLine, inBlock, inString), out);
    }
    assert Rest(source, i, ModeOf(inLine, inBlock, inString), QUOTES) == [];
  }

  /** The stripper that does not know string literals. */
  method StripCommentsPlain(source: string) returns (out: string)
    ensures out == Strip(source, Code, {})
  {
    out := "";
    var index := 0;
    var inBlock, inLine := false, false;
    ghost var all := Strip(source, Code, {});
    WholeIsRest(source, {});
    while index < |source|
      invariant index <= |source|
      invariant !(inLine && inBlock)
      invariant out + Rest(source, index, ModeOf(inLine, inBlock, None), {}) == all
    {
      ghost var mode, from, before := ModeOf(inLine, inBlock, None), index, out;
      var ch := source[index];
      var next := if index + 1 < |source| then [source[index + 1]] else "";
      if inLine {
        if ch == '\n' {
          inLine := false;
          out := out + [ch];
        } else {
          out := out + " ";
        }
        index := index + 1;
      } else if inBlock {
        if ch == '*' && next == "/" {
          inBlock := false;
          out := out + "  ";
          index := index + 2;
        } else {
          out := out + if ch == '\n' then "\n" else " ";
          index := index + 1;
        }
      } else if ch == '/' && next == "*" {
        inBlock := true;
        out := out + "  ";
        index := index + 2;
      } else if ch == '/' && next == "/" {
        inLine := true;
        out := out + "  ";
        index := index + 2;
      } else {
        out := out + [ch];
        index := index + 1;
      }
      TurnKeepsTheWhole(source, from, mode, {}, before, all, index, ModeOf(inLine, inBlock, None), out);
    }
    assert Rest(source, index, ModeOf(inLine, inBlock, None), {}) == [];
  }

  // ---------------------------------------------------------------- what is kept

  /** Character by character: kept, or blanked without touching the line structure. */
  predicate KeptOrBlanked(a: char, b: char) { (b == '\n' <==> a == '\n') && (b == a || b == ' ') }

  /** Newlines stay where they were, and every other character is kept or blanked: line and column numbers in
    * the result are those of the source. */
  lemma {:induction false} LinesAreKept(s: string, mode: Mode, quotes: set<char>)
    ensures forall i :: 0 <= i < |s| ==> KeptOrBlanked(s[i], Strip(s, mode, quotes)[i])
    decreases |s|
  {
    if s != [] {
      var t := TurnAt(s, 0, mode, quotes);
      var n := if t.used <= |s| then t.used else |s|;
      TurnIsOneStep(s, 0, mode, quotes);
      assert s[0..] == s;
      LinesAreKept(s[n..], t.mode, quotes);
      assert |t.written| == n;
      forall i | 0 <= i < |s|
        ensures KeptOrBlanked(s[i], Strip(s, mode, quotes)[i])
      {
        if i >= n {
          assert s[i] == s[n..][i - n];
        }
      }
    }
  }

  // ---------------------------------------------------------------- idempotence and agreement

  /** What a comment leaves behind is read as code; what a string leaves behind, as the same string. */
  function Reread(mode: Mode): Mode {
    if mode.Quoted? then mode else Code
  }

  predicate SaneQuotes(quotes: set<char>) { '/' !in quotes && ' ' !in quotes && '\n' !in quotes && '\\' !in quotes }

  /** Stripping again changes nothing, from wherever the first scan started. */
  lemma {:induction false} StripTwice(s: string, mode: Mode, quotes: set<char>)
    requires SaneQuotes(quotes)
    ensures Strip(Strip(s, mode, quotes), Reread(mode), quotes) == Strip(s, mode, quotes)
    decreases |s|
  {
    if s != [] {
      var r := Strip(s, mode, quotes);
      match mode
      case LineComment =>
        var rest := if s[0] == '\n' then Code else LineComment;
        StripTwice(s[1..], rest, quotes);
        assert r[1..] == Strip(s[1..], rest, quotes);
      case BlockComment =>
        if s[0] == '*' && |s| > 1 && s[1] == '/' {
          StripTwice(s[2..], Code, quotes);
          TwoBlanks(Strip(s[2..], Code, quotes), quotes);
        } else {
          StripTwice(s[1..], BlockComment, quotes);
          assert r[1..] == Strip(s[1..], BlockComment, quotes);
        }
      case Quoted(q) =>
        if s[0] == '\\' {
          if |s| > 1 {
            StripTwice(s[2..], mode, quotes);
            assert r[2..] == Strip(s[2..], mode, quotes);
          }
        } else {
          var rest := if s[0] == q then Code else mode;
          StripTwice(s[1..], rest, quotes);
          assert r[1..] == Strip(s[1..], rest, quotes);
        }
      case Code => CodeTwice(s, quotes);
    }
  }

  lemma TwoBlanks(t: string, quotes: set<char>)
    requires SaneQuotes(quotes)
    ensures Strip("  " + t, Code, quotes) == "  " + Strip(t, Code, quotes)
  {
    CodeCons(' ', t, quotes);
    CodeCons(' ', [' '] + t, quotes);
    assert "  " + t == [' '] + ([' '] + t);
  }

  lemma {:induction false} CodeTwice(s: string, quotes: set<char>)
    requires SaneQuotes(quotes) && s != []
    ensures Strip(Strip(s, Code, quotes), Code, quotes) == Strip(s, Code, quotes)
    decreases |s|, 0
  {
    var r := Strip(s, Code, quotes);
    if s[0] == '/' && |s| > 1 && s[1] == '*' {
      StripTwice(s[2..], BlockComment, quotes);
      TwoBlanks(Strip(s[2..], BlockComment, quotes), quotes);
    } else if s[0] == '/' && |s| > 1 && s[1] == '/' {
      StripTwice(s[2..], LineComment, quotes);
      TwoBlanks(Strip(s[2..], LineComment, quotes), quotes);
    } else {
      var rest := if s[0] in quotes then Quoted(s[0]) else Code;
      StripTwice(s[1..], rest, quotes);
      assert r[1..] == Strip(s[1..], rest, quotes);
      assert r[0] == s[0];
    }
  }

  /** Both strippers are idempotent. */
  lemma BothAreIdempotent(s: string)
    ensures Strip(Strip(s, Code, QUOTES), Code, QUOTES) == Strip(s, Code, QUOTES)
    ensures Strip(Strip(s, Code, {}), Code, {}) == Strip(s, Code, {})
  {
    StripTwice(s, Code, QUOTES);
    StripTwice(s, Code, {});
  }

  predicate NoQuoteIn(s: string, quotes: set<char>) { forall i :: 0 <= i < |s| ==> s[i] !in quotes }

  /** Where the plain stripper leaves no quote standing (there may be any number in comments), string
    * literals make no difference. */
  lemma {:induction false} StrippersAgree(s: string, mode: Mode, quotes: set<char>)
    requires SaneQuotes(quotes) && !mode.Quoted? && NoQuoteIn(Strip(s, mode, {}), quotes)
    ensures Strip(s, mode, quotes) == Strip(s, mode, {})
    decreases |s|
  {
    if s != [] {
      var r := Strip(s, mode, {});
      var (n, rest) :=
        match mode
        case LineComment => (1, if s[0] == '\n' then Code else LineComment)
        case BlockComment => if s[0] == '*' && |s| > 1 && s[1] == '/' then (2, Code) else (1, BlockComment)
        case Code =>
          if s[0] == '/' && |s| > 1 && s[1] == '*' then (2, BlockComment)
          else if s[0] == '/' && |s| > 1 && s[1] == '/' then (2, LineComment) else (1, Code);
      assert r[n..] == Strip(s[n..], rest, {});
      assert r[0] !in quotes;
      assert NoQuoteIn(r[n..], quotes) by {
        forall i | 0 <= i < |r[n..]|
          ensures r[n..][i] !in quotes
        {
          assert r[n..][i] == r[n + i];
        }
      }
      StrippersAgree(s[n..], rest, quotes);
    }
  }

  /** In particular on every source without quotes. */
  lemma QuoteFreeSourcesAgree(s: string)
    requires NoQuoteIn(s, QUOTES)
    ensures Strip(s, Code, QUOTES) == Strip(s, Code, {})
  {
    LinesAreKept(s, Code, {});
    StrippersAgree(s, Code, QUOTES);
  }

  // ---------------------------------------------------------------- against the token structure

  /** A source as its author meant it. The unclosed ones may only come last; a dangling string ends in a
    * backslash that escapes nothing. */
  datatype Token =
    | Plain(c: char)
    | LineOf(body: string)
    | BlockOf(body: string)
    | StringOf(quote: char, units: seq<Unit>)
    | UnclosedBlock(body: string)
    | UnclosedString(quote: char, units: seq<Unit>, dangling: bool)

  datatype Unit = Literal(c: char) | Escape(c: char)

  function UnitText(u: Unit): string {
    match u
    case Literal(c) => [c]
    case Escape(c) => ['\\', c]
  }

  function UnitsText(us: seq<Unit>): string {
    if us == [] then []
    else UnitText(us[0]) + UnitsText(us[1..])
  }

  function Dangling(d: bool): string { if d then ['\\'] else [] }

  function TextOf(t: Token): string {
    match t
    case Plain(c) => [c]
    case LineOf(b) => "//" + b
    case BlockOf(b) => "/*" + b + "*/"
    case StringOf(q, us) => [q] + UnitsText(us) + [q]
    case UnclosedBlock(b) => "/*" + b
    case UnclosedString(q, us, dangling) => [q] + (UnitsText(us) + Dangling(dangling))
  }

  function Blanks(s: string): (r: string)
    ensures |r| == |s|
  {
    seq(|s|, i requires 0 <= i < |s| => if s[i] == '\n' then '\n' else ' ')
  }

  /** The token with its comment, delimiters included, blanked. */
  function BlankedText(t: Token): string {
    match t
    case LineOf(_) | BlockOf(_) | UnclosedBlock(_) => Blanks(TextOf(t))
    case _ => TextOf(t)
  }

  function Source(ts: seq<Token>): string {
    if ts == [] then [] else TextOf(ts[0]) + Source(ts[1..])
  }

  function BlankedSource(ts: seq<Token>): string {
    if ts == [] then [] else BlankedText(ts[0]) + BlankedSource(ts[1..])
  }

  predicate NoBlockEnd(b: string) { forall i :: 0 <= i < |b| - 1 ==> !(b[i] == '*' && b[i + 1] == '/') }

  predicate UnitFits(u: Unit, q: char) { u.Literal? ==> u.c != q && u.c != '\\' }

  /** The token can be followed by `after` and still be read as itself. */
  predicate Fits(t: Token, after: string, quotes: set<char>) {
    match t
    case Plain(c) => c !in quotes && (c == '/' && after != [] ==> after[0] != '/' && after[0] != '*')
    case LineOf(b) => '\n' !in b && (after != [] ==> after[0] == '\n')
    case BlockOf(b) => NoBlockEnd(b)
    case StringOf(q, us) => q in quotes && q != '\\' && forall i :: 0 <= i < |us| ==> UnitFits(us[i], q)
    case UnclosedBlock(b) => NoBlockEnd(b) && after == []
    case UnclosedString(q, us, _) => q in quotes && (forall i :: 0 <= i < |us| ==> UnitFits(us[i], q)) && after == []
  }

  predicate WellFormed(ts: seq<Token>, quotes: set<char>) {
    ts == [] || (Fits(ts[0], Source(ts[1..]), quotes) && WellFormed(ts[1..], quotes))
  }

  lemma BlanksCons(c: char, s: string)
    ensures Blanks([c] + s) == [if c == '\n' then '\n' else ' '] + Blanks(s)
  {
  }

  lemma {:induction false} StripLine(b: string, after: string, quotes: set<char>)
    requires SaneQuotes(quotes) && '\n' !in b && (after != [] ==> after[0] == '\n')
    ensures Strip(b + after, LineComment, quotes) == Blanks(b) + Strip(after, Code, quotes)
    decreases |b|
  {
    if b == [] {
      assert b + after == after;
      assert Blanks(b) == [];
    } else {
      assert b[0] in b;
      assert b + after == [b[0]] + (b[1..] + after);
      LineCons(b[0], b[1..] + after, quotes);
      StripLine(b[1..], after, quotes);
      BlanksFirst(b);
      Associate([' '], Blanks(b[1..]), Strip(after, Code, quotes));
    }
  }

  lemma BlanksFirst(b: string)
    requires b != []
    ensures Blanks(b) == [if b[0] == '\n' then '\n' else ' '] + Blanks(b[1..])
  {
    BlanksCons(b[0], b[1..]);
    assert [b[0]] + b[1..] == b;
  }

  lemma Associate(a: string, b: string, c: string)
    ensures a + (b + c) == (a + b) + c
  {
  }

  lemma {:induction false} StripOpenBlock(b: string, quotes: set<char>)
    requires NoBlockEnd(b)
    ensures Strip(b, BlockComment, quotes) == Blanks(b)
    decreases |b|
  {
    if b != [] {
      assert b == [b[0]] + b[1..];
      BlockCons(b[0], b[1..], quotes);
      StripOpenBlock(b[1..], quotes);
      BlanksCons(b[0], b[1..]);
    }
  }

  /** The body of a closed block, its end and what follows it. */
  function Closed(b: string, after: string): string { b + (['*', '/'] + after) }

  lemma {:induction false} StripBlock(b: string, after: string, quotes: set<char>)
    requires NoBlockEnd(b)
    ensures Strip(Closed(b, after), BlockComment, quotes) == Blanks(b) + "  " + Strip(after, Code, quotes)
    decreases |b|
  {
    if b == [] {
      assert Closed(b, after) == ['*', '/'] + after;
      BlockEnd(after, quotes);
      assert Blanks(b) == [];
    } else {
      var x := Closed(b[1..], after);
      ClosedUnfold(b, after);
      BlockCons(b[0], x, quotes);
      StripBlock(b[1..], after, quotes);
      BlanksCons(b[0], b[1..]);
      assert [b[0]] + b[1..] == b;
      Regroup([if b[0] == '\n' then '\n' else ' '], Blanks(b[1..]), "  ", Strip(after, Code, quotes));
    }
  }

  lemma ClosedUnfold(b: string, after: string)
    requires b != []
    ensures Closed(b, after) == [b[0]] + Closed(b[1..], after)
    ensures Closed(b[1..], after)[0] == if |b| > 1 then b[1] else '*'
  {
  }

  lemma Regroup(a: string, b: string, c: string, d: string)
    ensures a + (b + c + d) == (a + b) + c + d
  {
  }

  lemma UnitsTail(us: seq<Unit>, q: char)
    requires us != [] && forall i :: 0 <= i < |us| ==> UnitFits(us[i], q)
    ensures forall i :: 0 <= i < |us[1..]| ==> UnitFits(us[1..][i], q)
  {
  }

  lemma StripUnit(u: Unit, q: char, x: string, quotes: set<char>)
    requires UnitFits(u, q)
    ensures Strip(UnitText(u) + x, Quoted(q), quotes) == UnitText(u) + Strip(x, Quoted(q), quotes)
  {
    match u
    case Literal(c) => QuotedCons(c, x, q, quotes);
    case Escape(c) => EscapeCons(c, x, q, quotes);
  }

  lemma {:induction false} StripUnits(us: seq<Unit>, q: char, after: string, quotes: set<char>)
    requires forall i :: 0 <= i < |us| ==> UnitFits(us[i], q)
    ensures Strip(UnitsText(us) + after, Quoted(q), quotes) == UnitsText(us) + Strip(after, Quoted(q), quotes)
    decreases |us|
  {
    if us == [] {
      assert UnitsText(us) + after == after;
    } else {
      var rest := UnitsText(us[1..]);
      UnitsTail(us, q);
      StripUnits(us[1..], q, after, quotes);
      assert UnitsText(us) + after == UnitText(us[0]) + (rest + after);
      StripUnit(us[0], q, rest + after, quotes);
    }
  }

  lemma StripOpenString(q: char, us: seq<Unit>, after: string, quotes: set<char>)
    requires SaneQuotes(quotes) && q in quotes && forall i :: 0 <= i < |us| ==> UnitFits(us[i], q)
    ensures Strip([q] + (UnitsText(us) + after), Code, quotes) == [q] + (UnitsText(us) + Strip(after, Quoted(q), quotes))
  {
    CodeCons(q, UnitsText(us) + after, quotes);
    StripUnits(us, q, after, quotes);
  }

  lemma StripString(q: char, us: seq<Unit>, after: string, quotes: set<char>)
    requires SaneQuotes(quotes) && q in quotes && forall i :: 0 <= i < |us| ==> UnitFits(us[i], q)
    ensures Strip(TextOf(StringOf(q, us)) + after, Code, quotes) == TextOf(StringOf(q, us)) + Strip(after, Code, quotes)
  {
    var u, rest := UnitsText(us), Strip(after, Code, quotes);
    calc {
      Strip(([q] + u + [q]) + after, Code, quotes);
      { assert ([q] + u + [q]) + after == [q] + (u + ([q] + after)); }
      Strip([q] + (u + ([q] + after)), Code, quotes);
      { StripOpenString(q, us, [q] + after, quotes); }
      [q] + (u + Strip([q] + after, Quoted(q), quotes));
      { QuotedCons(q, after, q, quotes); }
      [q] + (u + ([q] + rest));
      ([q] + u + [q]) + rest;
    }
  }

  lemma StripUnclosedString(q: char, us: seq<Unit>, d: bool, quotes: set<char>)
    requires SaneQuotes(quotes) && q in quotes && forall i :: 0 <= i < |us| ==> UnitFits(us[i], q)
    ensures Strip(TextOf(UnclosedString(q, us, d)), Code, quotes) == TextOf(UnclosedString(q, us, d))
  {
    StripOpenString(q, us, Dangling(d), quotes);
  }

  lemma BlanksConcat(a: string, b: string)
    ensures Blanks(a + b) == Blanks(a) + Blanks(b)
  {
  }

  lemma StripLineComment(b: string, after: string, quotes: set<char>)
    requires SaneQuotes(quotes) && Fits(LineOf(b), after, quotes)
    ensures Strip(TextOf(LineOf(b)) + after, Code, quotes) == BlankedText(LineOf(b)) + Strip(after, Code, quotes)
  {
    assert TextOf(LineOf(b)) + after == ['/', '/'] + (b + after);
    CodeOpen('/', b + after, quotes);
    StripLine(b, after, quotes);
    BlanksConcat("//", b);
    assert Blanks("//") == "  ";
  }

  lemma StripBlockComment(b: string, after: string, quotes: set<char>)
    requires NoBlockEnd(b)
    ensures Strip(TextOf(BlockOf(b)) + after, Code, quotes) == BlankedText(BlockOf(b)) + Strip(after, Code, quotes)
  {
    assert TextOf(BlockOf(b)) + after == ['/', '*'] + Closed(b, after);
    CodeOpen('*', Closed(b, after), quotes);
    StripBlock(b, after, quotes);
    BlanksConcat("/*", b);
    BlanksConcat("/*" + b, "*/");
    assert Blanks("/*") == "  " && Blanks("*/") == "  ";
  }

  lemma StripUnclosedBlock(b: string, quotes: set<char>)
    requires NoBlockEnd(b)
    ensures Strip(TextOf(UnclosedBlock(b)), Code, quotes) == BlankedText(UnclosedBlock(b))
  {
    assert TextOf(UnclosedBlock(b)) == ['/', '*'] + b;
    CodeOpen('*', b, quotes);
    StripOpenBlock(b, quotes);
    BlanksConcat("/*", b);
    assert Blanks("/*") == "  ";
  }

  lemma StripToken(t: Token, after: string, quotes: set<char>)
    requires SaneQuotes(quotes) && Fits(t, after, quotes)
    ensures Strip(TextOf(t) + after, Code, quotes) == BlankedText(t) + Strip(after, Code, quotes)
  {
    match t
    case Plain(c) => CodeCons(c, after, quotes);
    case LineOf(b) => StripLineComment(b, after, quotes);
    case BlockOf(b) => StripBlockComment(b, after, quotes);
    case StringOf(q, us) => StripString(q, us, after, quotes);
    case UnclosedBlock(b) =>
      StripUnclosedBlock(b, quotes);
      assert TextOf(t) + after == TextOf(t);
    case UnclosedString(q, us, d) =>
      StripUnclosedString(q, us, d, quotes);
      assert TextOf(t) + after == TextOf(t);
  }

  /** The stripper blanks exactly the comments of a source, and its strings are left alone whatever they hold. */
  lemma {:induction false} StripBlanksTheComments(ts: seq<Token>, quotes: set<char>)
    requires SaneQuotes(quotes) && WellFormed(ts, quotes)
    ensures Strip(Source(ts), Code, quotes) == BlankedSource(ts)
  {
    if ts != [] {
      StripToken(ts[0], Source(ts[1..]), quotes);
      StripBlanksTheComments(ts[1..], quotes);
    }
  }

  // ---------------------------------------------------------------- every source has a token structure

  lemma LineEnd(s: string, from: nat) returns (n: nat)
    requires from <= |s|
    ensures from <= n <= |s| && '\n' !in s[from..n] && (n < |s| ==> s[n] == '\n')
  {
    n := from;
    while n < |s| && s[n] != '\n'
      invariant from <= n <= |s| && '\n' !in s[from..n]
    {
      n := n + 1;
    }
  }

  /** The first end of a block comment at or after `from`, or the end of the source. */
  lemma FirstBlockEnd(s: string, from: nat) returns (n: nat)
    requires from <= |s|
    ensures from <= n <= |s| && (n < |s| ==> n + 1 < |s| && s[n] == '*' && s[n + 1] == '/')
    ensures forall i :: from <= i < n && i + 1 < |s| ==> !(s[i] == '*' && s[i + 1] == '/')
  {
    n := from;
    while n < |s| && !(n + 1 < |s| && s[n] == '*' && s[n + 1] == '/')
      invariant from <= n <= |s|
      invariant forall i :: from <= i < n && i + 1 < |s| ==> !(s[i] == '*' && s[i + 1] == '/')
    {
      n := n + 1;
    }
  }

  /** The units of a string literal up to its closing quote, to a dangling backslash, or to the end. */
  lemma {:induction false} ReadUnits(s: string, q: char) returns (us: seq<Unit>, n: nat)
    requires q != '\\'
    ensures n <= |s| && UnitsText(us) == s[..n] && forall i :: 0 <= i < |us| ==> UnitFits(us[i], q)
    ensures n < |s| ==> s[n] == q || (s[n] == '\\' && n + 1 == |s|)
    decreases |s|
  {
    us, n := [], 0;
    if s != [] && s[0] != q && !(s[0] == '\\' && |s| == 1) {
      var u := if s[0] == '\\' then Escape(s[1]) else Literal(s[0]);
      var k := |UnitText(u)|;
      us, n := ReadUnits(s[k..], q);
      assert UnitText(u) == s[..k];
      assert s[..k] + s[k..][..n] == s[..k + n];
      us, n := [u] + us, k + n;
    }
  }

  /** The first token of a non-empty source. */
  lemma FirstToken(s: string, quotes: set<char>) returns (t: Token, n: nat)
    requires SaneQuotes(quotes) && s != []
    ensures 0 < n <= |s| && TextOf(t) == s[..n] && Fits(t, s[n..], quotes)
  {
    if |s| > 1 && s[0] == '/' && s[1] == '/' {
      n := LineEnd(s, 2);
      t := LineOf(s[2..n]);
    } else if |s| > 1 && s[0] == '/' && s[1] == '*' {
      n := FirstBlockEnd(s, 2);
      if n < |s| {
        t := BlockOf(s[2..n]);
        n := n + 2;
      } else {
        t := UnclosedBlock(s[2..]);
      }
    } else if s[0] in quotes {
      t, n := StringToken(s, quotes);
    } else {
      t, n := Plain(s[0]), 1;
    }
  }

  lemma StringToken(s: string, quotes: set<char>) returns (t: Token, n: nat)
    requires SaneQuotes(quotes) && s != [] && s[0] in quotes
    ensures 0 < n <= |s| && TextOf(t) == s[..n] && Fits(t, s[n..], quotes)
  {
    var q, rest := s[0], s[1..];
    var us, k := ReadUnits(rest, q);
    assert s == [q] + rest;
    if k < |rest| && rest[k] == q {
      t, n := StringOf(q, us), k + 2;
      assert s[..n] == [q] + rest[..k] + [q];
    } else {
      t, n := UnclosedString(q, us, k < |rest|), |s|;
      assert rest == rest[..k] + rest[k..];
      assert rest[k..] == Dangling(k < |rest|);
    }
  }

  /** Every source is made of such tokens. */
  lemma {:induction false} Tokenise(s: string, quotes: set<char>) returns (ts: seq<Token>)
    requires SaneQuotes(quotes)
    ensures WellFormed(ts, quotes) && Source(ts) == s
    decreases |s|
  {
    ts := [];
    if s != [] {
      var t, n := FirstToken(s, quotes);
      var rest := Tokenise(s[n..], quotes);
      ts := [t] + rest;
      assert ts[1..] == rest;
      assert s == s[..n] + s[n..];
    }
  }

  /** So whatever the source, stripping it is blanking the comments of its token structure. */
  lemma StripIsBlanking(s: string, quotes: set<char>)
    requires SaneQuotes(quotes)
    ensures exists ts :: WellFormed(ts, quotes) && Source(ts) == s && Strip(s, Code, quotes) == BlankedSource(ts)
  {
    var ts := Tokenise(s, quotes);
    StripBlanksTheComments(ts, quotes);
  }
}
