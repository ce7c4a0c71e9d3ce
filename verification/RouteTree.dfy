/** Rebuilding full route paths from an indented tree of path segments. */
module RouteTree {
  import opened Wrappers
  import opened Text

  // ---------------------------------------------------------------- matching one line

  /** `[\s│├└─]`. */
  predicate IsGlyph(c: char) { IsSpace(c) || c in "\U{2502}\U{251C}\U{2514}\U{2500}" }

  function GlyphPrefix(s: string): (n: nat)
    ensures n <= |s|
  {
    if s == [] || !IsGlyph(s[0]) then 0 else 1 + GlyphPrefix(s[1..])
  }

  function NonSpaceRun(s: string): (n: nat)
    ensures n <= |s|
  {
    if s == [] || IsSpace(s[0]) then 0 else 1 + NonSpaceRun(s[1..])
  }

  lemma {:induction false} GlyphPrefixIsMaximal(s: string)
    ensures var n := GlyphPrefix(s); (forall i :: 0 <= i < n ==> IsGlyph(s[i])) && (n < |s| ==> !IsGlyph(s[n]))
  {
    if s != [] && IsGlyph(s[0]) {
      GlyphPrefixIsMaximal(s[1..]);
      assert forall i :: 1 <= i < |s| ==> s[i] == s[1..][i - 1];
    }
  }

  lemma {:induction false} NonSpaceRunIsMaximal(s: string)
    ensures var n := NonSpaceRun(s); (forall i :: 0 <= i < n ==> !IsSpace(s[i])) && (n < |s| ==> IsSpace(s[n]))
  {
    if s != [] && !IsSpace(s[0]) {
      NonSpaceRunIsMaximal(s[1..]);
      assert forall i :: 1 <= i < |s| ==> s[i] == s[1..][i - 1];
    }
  }

  function IndexOf(s: string, c: char): Option<nat> {
    if s == [] then None
    else if s[0] == c then Some(0)
    else
      match IndexOf(s[1..], c)
      case Some(n) => Some(n + 1)
      case None => None
  }

  /** `\s*\(([^)]*)\)\s*$`: the text between the parentheses. */
  function MethodsOf(s: string): Option<string> {
    var t := TrimStart(s);
    if t == [] || t[0] != '(' then None
    else
      var body := t[1..];
      match IndexOf(body, ')')
      case None => None
      case Some(n) => if n < |body| && TrimStart(body[n + 1..]) == [] then Some(body[..n]) else None
  }

  /** `(\/\S*)` is greedy: the longest run, up to `k` characters, that the rest of the pattern accepts. */
  function SegmentLength(s: string, k: nat): Option<nat>
    requires k <= |s|
  {
    if k == 0 then None
    else if MethodsOf(s[k..]).Some? then Some(k)
    else SegmentLength(s, k - 1)
  }

  datatype Matched = Matched(depth: nat, segment: string, methods: string)

  /** A segment and its methods, after `p` columns of glyphs. */
  function MatchRest(rest: string, p: nat): Option<Matched> {
    if rest == [] || rest[0] != '/' then None
    else
      match SegmentLength(rest, NonSpaceRun(rest))
      case None => None
      case Some(k) =>
        if k <= |rest| && MethodsOf(rest[k..]).Some? then Some(Matched(p / 4, rest[..k], MethodsOf(rest[k..]).value)) else None
  }

  /** Each level of the tree contributes four columns. */
  function MatchLine(line: string): Option<Matched> {
    MatchRest(line[GlyphPrefix(line)..], GlyphPrefix(line))
  }

  // ---------------------------------------------------------------- the stack

  /** An array with holes, as `stack.length = depth` may leave behind. */
  type Stack = seq<Option<string>>

  function Resize(s: Stack, n: nat): (r: Stack)
    ensures |r| == n && forall i :: 0 <= i < n ==> r[i] == if i < |s| then s[i] else None
  {
    if n <= |s| then s[..n] else s + seq(n - |s|, _ => None)
  }

  function ParentOf(s: Stack, depth: nat): string {
    if depth > 0 && depth <= |s| && s[depth - 1].Some? then s[depth - 1].value else ""
  }

  predicate StartsV1(segment: string) { "/v1" <= segment }

  datatype Entry = Entry(path: string, methods: string)

  function FullPath(s: Stack, m: Matched): string {
    if StartsV1(m.segment) then m.segment else ParentOf(s, m.depth) + m.segment
  }

  /** A line that does not match leaves the stack alone. */
  function Push(o: Option<Matched>, s: Stack): Stack {
    match o
    case None => s
    case Some(m) => Resize(s, m.depth) + [Some(FullPath(s, m))]
  }

  function EntryOf(o: Option<Matched>, s: Stack): seq<Entry> {
    match o
    case None => []
    case Some(m) => [Entry(FullPath(s, m), m.methods)]
  }

  function StackAfter(ms: seq<Option<Matched>>, s: Stack): Stack {
    if ms == [] then s else StackAfter(ms[1..], Push(ms[0], s))
  }

  function Entries(ms: seq<Option<Matched>>, s: Stack): seq<Entry> {
    if ms == [] then [] else EntryOf(ms[0], s) + Entries(ms[1..], Push(ms[0], s))
  }

  function Matches(lines: seq<string>): (r: seq<Option<Matched>>)
    ensures |r| == |lines|
  {
    if lines == [] then [] else [MatchLine(lines[0])] + Matches(lines[1..])
  }

  lemma {:induction false} MatchesConcat(a: seq<string>, b: seq<string>)
    ensures Matches(a + b) == Matches(a) + Matches(b)
  {
    if a == [] {
      assert a + b == b;
    } else {
      assert (a + b)[1..] == a[1..] + b;
      MatchesConcat(a[1..], b);
    }
  }

  lemma {:induction false} StackConcat(a: seq<Option<Matched>>, b: seq<Option<Matched>>, s: Stack)
    ensures StackAfter(a + b, s) == StackAfter(b, StackAfter(a, s))
    decreases |a|
  {
    if a == [] {
      assert a + b == b;
    } else {
      assert (a + b)[1..] == a[1..] + b && (a + b)[0] == a[0];
      StackConcat(a[1..], b, Push(a[0], s));
    }
  }

  lemma EntriesAssociate(a: seq<Entry>, b: seq<Entry>, c: seq<Entry>)
    ensures a + (b + c) == (a + b) + c
  {
  }

  lemma {:induction false} EntriesConcat(a: seq<Option<Matched>>, b: seq<Option<Matched>>, s: Stack)
    ensures Entries(a + b, s) == Entries(a, s) + Entries(b, StackAfter(a, s))
    decreases |a|
  {
    if a == [] {
      assert a + b == b;
    } else {
      var u := Push(a[0], s);
      assert (a + b)[1..] == a[1..] + b && (a + b)[0] == a[0];
      EntriesConcat(a[1..], b, u);
      EntriesAssociate(EntryOf(a[0], s), Entries(a[1..], u), Entries(b, StackAfter(a[1..], u)));
    }
  }

  lemma RunConcat(a: seq<Option<Matched>>, b: seq<Option<Matched>>, s: Stack)
    ensures Entries(a + b, s) == Entries(a, s) + Entries(b, StackAfter(a, s))
    ensures StackAfter(a + b, s) == StackAfter(b, StackAfter(a, s))
  {
    EntriesConcat(a, b, s);
    StackConcat(a, b, s);
  }

  lemma RunOne(o: Option<Matched>, s: Stack)
    ensures Entries([o], s) == EntryOf(o, s) && StackAfter([o], s) == Push(o, s)
  {
    assert [o][1..] == [];
  }

  // ---------------------------------------------------------------- rendering routes

  predicate IsIdentStart(c: char) { 'A' <= c <= 'Z' || 'a' <= c <= 'z' || c == '_' }

  predicate IsIdent(c: char) { IsIdentStart(c) || '0' <= c <= '9' }

  function IdentRun(s: string): (n: nat)
    ensures n <= |s|
  {
    if s == [] || !IsIdent(s[0]) then 0 else 1 + IdentRun(s[1..])
  }

  /** A parameter's name of `n` characters, in braces. */
  function Braced(s: string, n: nat): string
    requires n < |s|
  {
    "{" + s[1..n + 1] + "}"
  }

  /** `:param` becomes `{param}`. */
  function Braces(s: string): string
    decreases |s|
  {
    if s == [] then []
    else if s[0] == ':' && |s| > 1 && IsIdentStart(s[1]) then
      var n := IdentRun(s[1..]);
      Braced(s, n) + Braces(s[n + 1..])
    else [s[0]] + Braces(s[1..])
  }

  // ---------------------------------------------------------------- what a path is made of

  /** A path as its author meant it: single characters and named parameters. */
  datatype Piece = Literal(c: char) | Param(name: string)

  predicate IsName(n: string) {
    && n != [] && !('0' <= n[0] <= '9')
    && forall i :: 0 <= i < |n| ==> n[i] == '_' || 'A' <= n[i] <= 'Z' || 'a' <= n[i] <= 'z' || '0' <= n[i] <= '9'
  }

  function PieceText(p: Piece): string {
    match p
    case Literal(c) => [c]
    case Param(n) => ":" + n
  }

  function PiecesText(ps: seq<Piece>): string {
    if ps == [] then [] else PieceText(ps[0]) + PiecesText(ps[1..])
  }

  /** The contract's form: a parameter stands in braces, everything else as it is. */
  function Shown(ps: seq<Piece>): string {
    if ps == [] then []
    else
      (match ps[0]
       case Literal(c) => [c]
       case Param(n) => "{" + n + "}") + Shown(ps[1..])
  }

  /** The piece can be followed by `after` and still be read as itself. */
  predicate PieceFits(p: Piece, after: string) {
    match p
    case Literal(c) => c == ':' && after != [] ==> !IsIdentStart(after[0])
    case Param(n) => IsName(n) && (after != [] ==> !IsIdent(after[0]))
  }

  predicate PiecesFit(ps: seq<Piece>) {
    ps == [] || (PieceFits(ps[0], PiecesText(ps[1..])) && PiecesFit(ps[1..]))
  }

  lemma {:induction false} IdentRunMaximal(s: string)
    ensures var n := IdentRun(s); (forall i :: 0 <= i < n ==> IsIdent(s[i])) && (n < |s| ==> !IsIdent(s[n]))
  {
    if s != [] && IsIdent(s[0]) {
      IdentRunMaximal(s[1..]);
      assert forall i :: 1 <= i < |s| ==> s[i] == s[1..][i - 1];
    }
  }

  lemma IdentRunOfName(n: string, after: string)
    requires (forall i :: 0 <= i < |n| ==> IsIdent(n[i])) && (after != [] ==> !IsIdent(after[0]))
    ensures IdentRun(n + after) == |n|
  {
    var s, k := n + after, IdentRun(n + after);
    IdentRunMaximal(s);
    assert forall i :: 0 <= i < |n| ==> s[i] == n[i];
    assert after != [] ==> s[|n|] == after[0];
  }

  lemma BracesOfLiteral(c: char, after: string)
    requires PieceFits(Literal(c), after)
    ensures Braces([c] + after) == [c] + Braces(after)
  {
    assert ([c] + after)[1..] == after && ([c] + after)[0] == c;
    assert after != [] ==> ([c] + after)[1] == after[0];
  }

  lemma BracesOfName(n: string, after: string)
    requires PieceFits(Param(n), after)
    ensures Braces(":" + n + after) == "{" + n + "}" + Braces(after)
  {
    var s := ":" + n + after;
    assert s[1..] == n + after && s[0] == ':' && s[1] == n[0];
    IdentRunOfName(n, after);
    assert s[1..|n| + 1] == n && s[|n| + 1..] == after;
    assert Braced(s, |n|) == "{" + n + "}";
  }

  /** Normalising a path shows its pieces: parameters in braces, the rest untouched. */
  lemma {:induction false} BracesOfPieces(ps: seq<Piece>)
    requires PiecesFit(ps)
    ensures Braces(PiecesText(ps)) == Shown(ps)
  {
    if ps != [] {
      BracesOfPieces(ps[1..]);
      match ps[0]
      case Literal(c) => BracesOfLiteral(c, PiecesText(ps[1..]));
      case Param(n) => BracesOfName(n, PiecesText(ps[1..]));
    }
  }

  /** Every path has such pieces. */
  function PiecesOf(s: string): (ps: seq<Piece>)
    decreases |s|
  {
    if s == [] then []
    else if s[0] == ':' && |s| > 1 && IsIdentStart(s[1]) then
      var n := IdentRun(s[1..]);
      [Param(s[1..n + 1])] + PiecesOf(s[n + 1..])
    else [Literal(s[0])] + PiecesOf(s[1..])
  }

  lemma PrependPiece(p: Piece, ps: seq<Piece>, s: string, n: nat)
    requires n <= |s| && PieceText(p) == s[..n] && PiecesText(ps) == s[n..] && PiecesFit(ps) && PieceFits(p, s[n..])
    ensures PiecesFit([p] + ps) && PiecesText([p] + ps) == s
  {
    assert ([p] + ps)[1..] == ps;
    assert s == s[..n] + s[n..];
  }

  lemma ParamPiece(s: string, rest: seq<Piece>)
    requires |s| > 1 && s[0] == ':' && IsIdentStart(s[1])
    requires PiecesFit(rest) && PiecesText(rest) == s[IdentRun(s[1..]) + 1..]
    ensures var n := IdentRun(s[1..]); PiecesFit([Param(s[1..n + 1])] + rest) && PiecesText([Param(s[1..n + 1])] + rest) == s
  {
    var n := IdentRun(s[1..]);
    IdentRunMaximal(s[1..]);
    assert s[1..n + 1] == s[1..][..n] && s[n + 1..] == s[1..][n..];
    assert ":" + s[1..n + 1] == s[..n + 1];
    PrependPiece(Param(s[1..n + 1]), rest, s, n + 1);
  }

  lemma {:induction false} PiecesOfFit(s: string)
    ensures PiecesFit(PiecesOf(s)) && PiecesText(PiecesOf(s)) == s
    decreases |s|
  {
    if s != [] {
      if s[0] == ':' && |s| > 1 && IsIdentStart(s[1]) {
        var rest := s[IdentRun(s[1..]) + 1..];
        PiecesOfFit(rest);
        ParamPiece(s, PiecesOf(rest));
      } else {
        PiecesOfFit(s[1..]);
        PrependPiece(Literal(s[0]), PiecesOf(s[1..]), s, 1);
      }
    }
  }

  /** The path as the contract writes it. */
  function Normalised(path: string): string { Shown(PiecesOf(path)) }

  lemma BracesNormalise(path: string)
    ensures Braces(path) == Normalised(path)
  {
    PiecesOfFit(path);
    BracesOfPieces(PiecesOf(path));
  }

  /** Whatever pieces a path is printed from, normalising it shows them. */
  lemma NormalisedPieces(ps: seq<Piece>)
    requires PiecesFit(ps)
    ensures Normalised(PiecesText(ps)) == Shown(ps)
  {
    BracesNormalise(PiecesText(ps));
    BracesOfPieces(ps);
  }

  /** Every trimmed method but HEAD, in front of a path as it is shown. */
  function Labelled(shown: string, pieces: seq<string>): set<string> {
    set m | m in pieces && Trim(m) != [] && Trim(m) != "HEAD" :: Trim(m) + " " + shown
  }

  function Rendered(path: string, pieces: seq<string>): set<string> { Labelled(Normalised(path), pieces) }

  function RoutesOf(es: seq<Entry>): set<string> {
    if es == [] then {} else Rendered(es[0].path, Split(es[0].methods, ',')) + RoutesOf(es[1..])
  }

  lemma {:induction false} RoutesConcat(a: seq<Entry>, b: seq<Entry>)
    ensures RoutesOf(a + b) == RoutesOf(a) + RoutesOf(b)
    decreases |a|
  {
    if a == [] {
      assert a + b == b;
    } else {
      assert (a + b)[1..] == a[1..] + b;
      RoutesConcat(a[1..], b);
    }
  }

  lemma RoutesOfOne(e: Entry)
    ensures RoutesOf([e]) == Rendered(e.path, Split(e.methods, ','))
  {
    assert [e][1..] == [];
  }

  /** What one more piece adds. */
  lemma LabelledNext(shown: string, pieces: seq<string>, i: nat)
    requires i < |pieces|
    ensures var m := Trim(pieces[i]);
            Labelled(shown, pieces[..i + 1]) ==
            Labelled(shown, pieces[..i]) + if m != [] && m != "HEAD" then {m + " " + shown} else {}
  {
    var before, after := pieces[..i], pieces[..i + 1];
    assert after == before + [pieces[i]];
    assert forall p :: p in after <==> p in before || p == pieces[i];
  }

  method AddMethods(out: set<string>, full: string, methods: string) returns (r: set<string>)
    ensures r == out + Rendered(full, Split(methods, ','))
  {
    r := out;
    ghost var shown := Normalised(full);
    BracesNormalise(full);
    var pieces := Split(methods, ',');
    for i := 0 to |pieces|
      invariant r == out + Labelled(shown, pieces[..i])
    {
      var m := Trim(pieces[i]);
      LabelledNext(shown, pieces, i);
      if m != [] && m != "HEAD" {
        r := r + {m + " " + Braces(full)};
      }
    }
    assert pieces[..|pieces|] == pieces;
  }

  /** The routes and the stack after the first `j` lines. */
  ghost predicate Upto(lines: seq<string>, j: nat, out: set<string>, stack: Stack)
    requires j <= |lines|
  {
    var ms := Matches(lines[..j]);
    out == RoutesOf(Entries(ms, [])) && stack == StackAfter(ms, [])
  }

  lemma NextLine(lines: seq<string>, j: nat, out: set<string>, stack: Stack)
    requires j < |lines| && Upto(lines, j, out, stack)
    ensures Upto(lines, j + 1, out + RoutesOf(EntryOf(MatchLine(lines[j]), stack)), Push(MatchLine(lines[j]), stack))
  {
    assert lines[..j + 1] == lines[..j] + [lines[j]];
    var o := MatchLine(lines[j]);
    MatchesConcat(lines[..j], [lines[j]]);
    assert Matches([lines[j]]) == [o];
    RunConcat(Matches(lines[..j]), [o], []);
    RunOne(o, stack);
    RoutesConcat(Entries(Matches(lines[..j]), []), EntryOf(o, stack));
  }

  /** The parent looked up after resizing is the one the specification looks up before. */
  lemma FullPathOf(was: Stack, resized: Stack, m: Matched)
    requires resized == Resize(was, m.depth)
    ensures m.depth == 0 || resized[m.depth - 1].Some? ==>
              var parent := if m.depth == 0 then "" else resized[m.depth - 1].value;
              FullPath(was, m) == if StartsV1(m.segment) then m.segment else parent + m.segment
    ensures m.depth > 0 && resized[m.depth - 1].None? ==>
              FullPath(was, m) == if StartsV1(m.segment) then m.segment else "" + m.segment
  {
  }

  method Registered(printed: string) returns (out: set<string>)
    ensures out == RoutesOf(Entries(Matches(Split(printed, '\n')), []))
  {
    out := {};
    var stack: Stack := [];
    var lines := Split(printed, '\n');
    for j := 0 to |lines|
      invariant Upto(lines, j, out, stack)
    {
      NextLine(lines, j, out, stack);
      var line := lines[j];
      if Trim(line) == [] {
        BlankIsUnmatched(line);
      } else {
        var matched := MatchLine(line);
        if matched.Some? {
          var m := matched.value;
          ghost var was := stack;
          stack := Resize(stack, m.depth);
          var parent := if m.depth == 0 then "" else if stack[m.depth - 1].Some? then stack[m.depth - 1].value else "";
          var full := if StartsV1(m.segment) then m.segment else parent + m.segment;
          FullPathOf(was, stack, m);
          stack := stack + [Some(full)];
          out := AddMethods(out, full, m.methods);
          RoutesOfOne(Entry(full, m.methods));
        }
      }
    }
    assert lines[..|lines|] == lines;
  }

  lemma BlankIsUnmatched(line: string)
    requires Trim(line) == []
    ensures MatchLine(line) == None
  {
    TrimIsEmptyIff(line);
    GlyphPrefixIsMaximal(line);
  }
}
