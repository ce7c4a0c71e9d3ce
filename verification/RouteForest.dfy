/** The tree parser against the forests it is meant to read. */
module RouteForest {
  import opened Wrappers
  import opened Text
  import opened RouteTree

  /** A route segment; a node without handlers is printed without a method list. */
  datatype Tree = Tree(segment: string, handlers: Option<seq<string>>, children: seq<Tree>)

  // ---------------------------------------------------------------- printing

  function CommaJoin(ms: seq<string>): string {
    if ms == [] then [] else if |ms| == 1 then ms[0] else ms[0] + ", " + CommaJoin(ms[1..])
  }

  function Label(t: Tree): string {
    match t.handlers
    case None => t.segment
    case Some(ms) => t.segment + (" (" + CommaJoin(ms) + ")")
  }

  function Branch(last: bool): string {
    if last then "\U{2514}\U{2500}\U{2500} " else "\U{251C}\U{2500}\U{2500} "
  }

  function Indent(last: bool): string {
    if last then "    " else "\U{2502}   "
  }

  function PrintTree(t: Tree, indent: string, last: bool): seq<string>
    decreases t
  {
    [indent + Branch(last) + Label(t)] + PrintForest(t.children, indent + Indent(last))
  }

  function PrintForest(ts: seq<Tree>, indent: string): seq<string>
    decreases ts
  {
    if ts == [] then [] else PrintTree(ts[0], indent, |ts| == 1) + PrintForest(ts[1..], indent)
  }

  // ---------------------------------------------------------------- what the forest means

  /** Every node with handlers, with its full root-to-node path, in printing order. */
  function TreePaths(t: Tree, parent: string): seq<Entry>
    decreases t
  {
    (if t.handlers.Some? then [Entry(parent + t.segment, CommaJoin(t.handlers.value))] else [])
    + ForestPaths(t.children, parent + t.segment)
  }

  function ForestPaths(ts: seq<Tree>, parent: string): seq<Entry>
    decreases ts
  {
    if ts == [] then [] else TreePaths(ts[0], parent) + ForestPaths(ts[1..], parent)
  }

  /** A method name: no white space, comma or parenthesis in it. */
  predicate IsMethod(m: string) {
    m != [] && forall i :: 0 <= i < |m| ==> !IsSpace(m[i]) && m[i] != ',' && m[i] != ')'
  }

  predicate IsSegment(s: string) {
    s != [] && s[0] == '/' && forall i :: 0 <= i < |s| ==> !IsSpace(s[i])
  }

  /** What can be printed: a segment, with a list of methods or with none. */
  predicate TreeFits(t: Tree)
    decreases t
  {
    && IsSegment(t.segment) && ForestFits(t.children)
    && match t.handlers
       case None => '(' !in t.segment
       case Some(ms) => forall i :: 0 <= i < |ms| ==> IsMethod(ms[i])
  }

  predicate ForestFits(ts: seq<Tree>)
    decreases ts
  {
    ts == [] || (TreeFits(ts[0]) && ForestFits(ts[1..]))
  }

  /** No node of it has handlers. */
  predicate TreeSilent(t: Tree)
    decreases t
  {
    t.handlers.None? && ForestSilent(t.children)
  }

  predicate ForestSilent(ts: seq<Tree>)
    decreases ts
  {
    ts == [] || (TreeSilent(ts[0]) && ForestSilent(ts[1..]))
  }

  /** No node without handlers has one with handlers below it; the documented form, where every line has
    * methods, is a special case. */
  predicate TreeGrounded(t: Tree)
    decreases t
  {
    (t.handlers.None? ==> ForestSilent(t.children)) && ForestGrounded(t.children)
  }

  predicate ForestGrounded(ts: seq<Tree>)
    decreases ts
  {
    ts == [] || (TreeGrounded(ts[0]) && ForestGrounded(ts[1..]))
  }

  /** The segment names a path from the root, `/v1`, and not one below its parent. */
  predicate AtApiRoot(segment: string) { |segment| >= 3 && segment[0] == '/' && segment[1] == 'v' && segment[2] == '1' }

  lemma RootedPath(s: Stack, m: Matched)
    ensures FullPath(s, m) == if AtApiRoot(m.segment) then m.segment else ParentOf(s, m.depth) + m.segment
  {
    if "/v1" <= m.segment {
      assert m.segment[..3] == "/v1";
    }
    if AtApiRoot(m.segment) {
      assert m.segment[..3] == ['/', 'v', '1'];
    }
  }

  /** No line with methods has a segment that starts with the API root. */
  predicate TreeAvoidsV1(t: Tree)
    decreases t
  {
    (t.handlers.Some? ==> !AtApiRoot(t.segment)) && ForestAvoidsV1(t.children)
  }

  predicate ForestAvoidsV1(ts: seq<Tree>)
    decreases ts
  {
    ts == [] || (TreeAvoidsV1(ts[0]) && ForestAvoidsV1(ts[1..]))
  }

  /** Below the roots, that is. */
  predicate NestedAvoidV1(ts: seq<Tree>) {
    forall i :: 0 <= i < |ts| ==> ForestAvoidsV1(ts[i].children)
  }

  // ---------------------------------------------------------------- one printed line

  predicate AllGlyphs(s: string) { forall i :: 0 <= i < |s| ==> IsGlyph(s[i]) }

  lemma {:induction false} GlyphPrefixOf(a: string, b: string)
    requires AllGlyphs(a) && b != [] && !IsGlyph(b[0])
    ensures GlyphPrefix(a + b) == |a|
  {
    GlyphPrefixIsMaximal(a + b);
    assert (a + b)[|a|] == b[0];
    assert forall i :: 0 <= i < |a| ==> (a + b)[i] == a[i];
  }

  lemma NonSpaceRunOf(a: string, b: string)
    requires (forall i :: 0 <= i < |a| ==> !IsSpace(a[i])) && (b != [] ==> IsSpace(b[0]))
    ensures NonSpaceRun(a + b) == |a|
  {
    NonSpaceRunIsMaximal(a + b);
    if b != [] {
      assert (a + b)[|a|] == b[0];
    }
    assert forall i :: 0 <= i < |a| ==> (a + b)[i] == a[i];
  }

  lemma {:induction false} IndexOfFirst(a: string, c: char, b: string)
    requires c !in a
    ensures IndexOf(a + [c] + b, c) == Some(|a|)
  {
    if a == [] {
      assert a + [c] + b == [c] + b;
    } else {
      assert (a + [c] + b)[1..] == a[1..] + [c] + b;
      IndexOfFirst(a[1..], c, b);
    }
  }

  lemma TakeDrop(a: string, b: string)
    ensures (a + b)[..|a|] == a && (a + b)[|a|..] == b && (b != [] ==> (a + b)[|a|] == b[0])
    ensures a != [] ==> (a + b)[0] == a[0]
  {
  }

  lemma MethodsOfLabel(body: string)
    requires ')' !in body
    ensures MethodsOf(" (" + body + ")") == Some(body)
  {
    var s := " (" + body + ")";
    assert s[1..] == ['('] + (body + ")");
    assert TrimStart(s) == ['('] + (body + ")");
    var rest := body + [')'] + [];
    assert (['('] + (body + ")"))[1..] == rest;
    IndexOfFirst(body, ')', []);
    assert rest[|body| + 1..] == [];
    assert rest[..|body|] == body;
  }

  lemma {:induction false} CommaJoinIsClean(ms: seq<string>)
    requires forall i :: 0 <= i < |ms| ==> IsMethod(ms[i])
    ensures ')' !in CommaJoin(ms) && '\n' !in CommaJoin(ms)
  {
    if ms != [] {
      CommaJoinIsClean(ms[1..]);
      assert forall c :: c in ms[0] ==> c != ')' && !IsSpace(c);
    }
  }

  lemma SegmentOfLabel(segment: string, body: string)
    requires IsSegment(segment) && ')' !in body
    ensures var rest := segment + (" (" + body + ")");
            && SegmentLength(rest, NonSpaceRun(rest)) == Some(|segment|)
            && rest[..|segment|] == segment && MethodsOf(rest[|segment|..]) == Some(body)
  {
    var tail := " (" + body + ")";
    var rest := segment + tail;
    NonSpaceRunOf(segment, tail);
    assert rest[|segment|..] == tail;
    assert rest[..|segment|] == segment;
    MethodsOfLabel(body);
  }

  lemma BranchIsGlyphs(indent: string, last: bool)
    requires AllGlyphs(indent)
    ensures AllGlyphs(indent + Branch(last)) && |indent + Branch(last)| == |indent| + 4
    ensures AllGlyphs(indent + Indent(last)) && |indent + Indent(last)| == |indent| + 4
  {
  }

  /** A printed line is read back as what was printed. */
  lemma PrintedLineMatches(t: Tree, indent: string, last: bool, level: nat)
    requires TreeFits(t) && t.handlers.Some? && AllGlyphs(indent) && |indent| == 4 * level
    ensures MatchLine(indent + Branch(last) + Label(t))
            == Some(Matched(level + 1, t.segment, CommaJoin(t.handlers.value)))
  {
    BranchIsGlyphs(indent, last);
    CommaJoinIsClean(t.handlers.value);
    LabelledLineMatches(indent + Branch(last), level + 1, t.segment, CommaJoin(t.handlers.value));
  }

  lemma LabelMatches(segment: string, body: string, depth: nat)
    requires IsSegment(segment) && ')' !in body
    ensures MatchRest(segment + (" (" + body + ")"), 4 * depth) == Some(Matched(depth, segment, body))
  {
    TakeDrop(segment, " (" + body + ")");
    SegmentOfLabel(segment, body);
  }

  lemma LabelledLineMatches(a: string, depth: nat, segment: string, body: string)
    requires AllGlyphs(a) && |a| == 4 * depth && IsSegment(segment) && ')' !in body
    ensures MatchLine(a + (segment + (" (" + body + ")"))) == Some(Matched(depth, segment, body))
  {
    var rest := segment + (" (" + body + ")");
    TakeDrop(segment, " (" + body + ")");
    GlyphPrefixOf(a, rest);
    TakeDrop(a, rest);
    LabelMatches(segment, body, depth);
  }

  lemma {:induction false} NoParenthesisNoMethods(s: string)
    requires '(' !in s
    ensures MethodsOf(s).None?
  {
    var t := TrimStart(s);
    TrimStartIsSuffix(s);
  }

  lemma {:induction false} TrimStartIsSuffix(s: string)
    ensures forall c :: c in TrimStart(s) ==> c in s
  {
    if s != [] && IsSpace(s[0]) {
      TrimStartIsSuffix(s[1..]);
    }
  }

  lemma {:induction false} NoSegment(s: string, k: nat)
    requires '(' !in s && k <= |s|
    ensures SegmentLength(s, k).None?
  {
    if k > 0 {
      NoParenthesisNoMethods(s[k..]);
      NoSegment(s, k - 1);
    }
  }

  lemma BareLineIsUnmatched(t: Tree, indent: string, last: bool)
    requires TreeFits(t) && t.handlers.None? && AllGlyphs(indent)
    ensures MatchLine(indent + Branch(last) + Label(t)).None?
  {
    var a := indent + Branch(last);
    BranchIsGlyphs(indent, last);
    GlyphPrefixOf(a, t.segment);
    assert (a + t.segment)[|a|..] == t.segment;
    NoSegment(t.segment, NonSpaceRun(t.segment));
  }

  // ---------------------------------------------------------------- the whole forest

  /** The stack still answers for every depth up to `depth` as it did. */
  predicate SameParents(s: Stack, u: Stack, depth: nat) {
    forall k :: 0 <= k <= depth ==> ParentOf(u, k) == ParentOf(s, k)
  }

  lemma PushKeepsParents(o: Option<Matched>, s: Stack, depth: nat)
    requires o.Some? ==> o.value.depth >= depth
    ensures SameParents(s, Push(o, s), depth)
    ensures o.Some? ==> ParentOf(Push(o, s), o.value.depth + 1) == FullPath(s, o.value)
  {
  }

  function TreeMatches(t: Tree, indent: string, last: bool): seq<Option<Matched>> {
    Matches(PrintTree(t, indent, last))
  }

  function ForestMatches(ts: seq<Tree>, indent: string): seq<Option<Matched>> {
    Matches(PrintForest(ts, indent))
  }

  /** The printed tree is its own line followed by its children. */
  lemma TreeMatchesUnfold(t: Tree, indent: string, last: bool)
    ensures TreeMatches(t, indent, last)
            == [MatchLine(indent + Branch(last) + Label(t))] + ForestMatches(t.children, indent + Indent(last))
  {
    var line := indent + Branch(last) + Label(t);
    MatchesConcat([line], PrintForest(t.children, indent + Indent(last)));
    assert [line][1..] == [];
    assert Matches([line]) == [MatchLine(line)];
  }

  lemma ForestMatchesUnfold(ts: seq<Tree>, indent: string)
    requires ts != []
    ensures ForestMatches(ts, indent) == TreeMatches(ts[0], indent, |ts| == 1) + ForestMatches(ts[1..], indent)
  {
    MatchesConcat(PrintTree(ts[0], indent, |ts| == 1), PrintForest(ts[1..], indent));
  }

  predicate AtLevel(indent: string, level: nat) { AllGlyphs(indent) && |indent| == 4 * level }

  /** The own line of a tree. */
  lemma OwnLine(t: Tree, indent: string, last: bool, level: nat, s: Stack)
    requires TreeFits(t) && AtLevel(indent, level)
    ensures var o := MatchLine(indent + Branch(last) + Label(t));
            && SameParents(s, Push(o, s), level + 1)
            && (t.handlers.None? ==> o.None?)
            && (t.handlers.Some? ==>
                o == Some(Matched(level + 1, t.segment, CommaJoin(t.handlers.value)))
                && ParentOf(Push(o, s), level + 2) == FullPath(s, o.value))
  {
    match t.handlers
    case None => BareLineIsUnmatched(t, indent, last);
    case Some(_) => PrintedLineMatches(t, indent, last, level);
    PushKeepsParents(MatchLine(indent + Branch(last) + Label(t)), s, level + 1);
  }

  lemma DeeperLevel(indent: string, last: bool, level: nat)
    requires AtLevel(indent, level)
    ensures AtLevel(indent + Indent(last), level + 1)
  {
    BranchIsGlyphs(indent, last);
  }

  lemma SameParentsTrans(a: Stack, b: Stack, c: Stack, n: nat, m: nat)
    requires SameParents(a, b, n) && SameParents(b, c, m) && n <= m
    ensures SameParents(a, c, n)
  {
  }

  lemma {:induction false} TreeKeepsParents(t: Tree, indent: string, last: bool, level: nat, s: Stack)
    requires TreeFits(t) && AtLevel(indent, level)
    ensures SameParents(s, StackAfter(TreeMatches(t, indent, last), s), level + 1)
    decreases t
  {
    TreeMatchesUnfold(t, indent, last);
    OwnLine(t, indent, last, level, s);
    var o := MatchLine(indent + Branch(last) + Label(t));
    var inner := ForestMatches(t.children, indent + Indent(last));
    DeeperLevel(indent, last, level);
    ForestKeepsParents(t.children, indent + Indent(last), level + 1, Push(o, s));
    RunConcat([o], inner, s);
    RunOne(o, s);
    SameParentsTrans(s, Push(o, s), StackAfter(inner, Push(o, s)), level + 1, level + 2);
  }

  lemma {:induction false} ForestKeepsParents(ts: seq<Tree>, indent: string, level: nat, s: Stack)
    requires ForestFits(ts) && AtLevel(indent, level)
    ensures SameParents(s, StackAfter(ForestMatches(ts, indent), s), level + 1)
    decreases ts
  {
    if ts != [] {
      ForestMatchesUnfold(ts, indent);
      var first, rest := TreeMatches(ts[0], indent, |ts| == 1), ForestMatches(ts[1..], indent);
      TreeKeepsParents(ts[0], indent, |ts| == 1, level, s);
      ForestKeepsParents(ts[1..], indent, level, StackAfter(first, s));
      RunConcat(first, rest, s);
      SameParentsTrans(s, StackAfter(first, s), StackAfter(rest, StackAfter(first, s)), level + 1, level + 1);
    }
  }

  lemma EntriesOfTree(t: Tree, indent: string, last: bool, s: Stack)
    ensures var o := MatchLine(indent + Branch(last) + Label(t));
            Entries(TreeMatches(t, indent, last), s)
            == EntryOf(o, s) + Entries(ForestMatches(t.children, indent + Indent(last)), Push(o, s))
  {
    TreeMatchesUnfold(t, indent, last);
    var o := MatchLine(indent + Branch(last) + Label(t));
    RunConcat([o], ForestMatches(t.children, indent + Indent(last)), s);
    RunOne(o, s);
  }

  lemma EntriesOfForest(ts: seq<Tree>, indent: string, s: Stack)
    requires ts != []
    ensures var first := TreeMatches(ts[0], indent, |ts| == 1);
            Entries(ForestMatches(ts, indent), s)
            == Entries(first, s) + Entries(ForestMatches(ts[1..], indent), StackAfter(first, s))
  {
    ForestMatchesUnfold(ts, indent);
    RunConcat(TreeMatches(ts[0], indent, |ts| == 1), ForestMatches(ts[1..], indent), s);
  }

  /** The own line of a tree under the right parent. */
  lemma OwnEntry(o: Option<Matched>, t: Tree, level: nat, s: Stack, parent: string)
    requires t.handlers.Some? && o == Some(Matched(level + 1, t.segment, CommaJoin(t.handlers.value)))
    requires ParentOf(s, level + 1) == parent && (parent == "" || !AtApiRoot(t.segment))
    ensures EntryOf(o, s) == [Entry(parent + t.segment, CommaJoin(t.handlers.value))]
    ensures FullPath(s, o.value) == parent + t.segment
  {
    assert "" + t.segment == t.segment;
  }

  /** However wrong the paths, there is one entry per node with handlers. */
  lemma {:induction false} TreeCount(t: Tree, indent: string, last: bool, level: nat, s: Stack, parent: string)
    requires TreeFits(t) && AtLevel(indent, level)
    ensures |Entries(TreeMatches(t, indent, last), s)| == |TreePaths(t, parent)|
    decreases t
  {
    EntriesOfTree(t, indent, last, s);
    OwnLine(t, indent, last, level, s);
    DeeperLevel(indent, last, level);
    var o := MatchLine(indent + Branch(last) + Label(t));
    ForestCount(t.children, indent + Indent(last), level + 1, Push(o, s), parent + t.segment);
  }

  lemma {:induction false} ForestCount(ts: seq<Tree>, indent: string, level: nat, s: Stack, parent: string)
    requires ForestFits(ts) && AtLevel(indent, level)
    ensures |Entries(ForestMatches(ts, indent), s)| == |ForestPaths(ts, parent)|
    decreases ts
  {
    if ts != [] {
      EntriesOfForest(ts, indent, s);
      TreeCount(ts[0], indent, |ts| == 1, level, s, parent);
      ForestCount(ts[1..], indent, level, StackAfter(TreeMatches(ts[0], indent, |ts| == 1), s), parent);
    }
  }

  lemma {:induction false} SilentTreePaths(t: Tree, parent: string)
    requires TreeSilent(t)
    ensures TreePaths(t, parent) == []
    decreases t
  {
    SilentForestPaths(t.children, parent + t.segment);
  }

  lemma {:induction false} SilentForestPaths(ts: seq<Tree>, parent: string)
    requires ForestSilent(ts)
    ensures ForestPaths(ts, parent) == []
    decreases ts
  {
    if ts != [] {
      SilentTreePaths(ts[0], parent);
      SilentForestPaths(ts[1..], parent);
    }
  }

  /** Under the right parent, a grounded tree whose nested segments avoid the API root is read back exactly. */
  lemma {:induction false} TreeIsReadBack(t: Tree, indent: string, last: bool, level: nat, s: Stack, parent: string)
    requires TreeFits(t) && AtLevel(indent, level) && ParentOf(s, level + 1) == parent
    requires ForestAvoidsV1(t.children) && (parent == "" || TreeAvoidsV1(t)) && TreeGrounded(t)
    ensures Entries(TreeMatches(t, indent, last), s) == TreePaths(t, parent)
    decreases t
  {
    if t.handlers.Some? {
      var o := MatchLine(indent + Branch(last) + Label(t));
      EntriesOfTree(t, indent, last, s);
      OwnLine(t, indent, last, level, s);
      OwnEntry(o, t, level, s, parent);
      DeeperLevel(indent, last, level);
      ForestIsReadBack(t.children, indent + Indent(last), level + 1, Push(o, s), parent + t.segment);
    } else {
      SilentForestPaths(t.children, parent + t.segment);
      TreeCount(t, indent, last, level, s, parent);
    }
  }

  lemma {:induction false} ForestIsReadBack(ts: seq<Tree>, indent: string, level: nat, s: Stack, parent: string)
    requires ForestFits(ts) && AtLevel(indent, level) && ParentOf(s, level + 1) == parent
    requires (if parent == "" then NestedAvoidV1(ts) else ForestAvoidsV1(ts)) && ForestGrounded(ts)
    ensures Entries(ForestMatches(ts, indent), s) == ForestPaths(ts, parent)
    decreases ts
  {
    if ts != [] {
      EntriesOfForest(ts, indent, s);
      TreeIsReadBack(ts[0], indent, |ts| == 1, level, s, parent);
      TreeKeepsParents(ts[0], indent, |ts| == 1, level, s);
      ForestIsReadBack(ts[1..], indent, level, StackAfter(TreeMatches(ts[0], indent, |ts| == 1), s), parent);
    }
  }

  // ---------------------------------------------------------------- and only then

  lemma SplitEqual<T>(a: seq<T>, b: seq<T>, c: seq<T>, d: seq<T>)
    requires a + b == c + d && |a| == |c|
    ensures a == c && b == d
  {
    assert a == (a + b)[..|a|] && c == (c + d)[..|c|];
    assert b == (a + b)[|a|..] && d == (c + d)[|c|..];
  }

  ghost predicate HasHandlers(ts: seq<Tree>) { exists i :: 0 <= i < |ts| && ts[i].handlers.Some? }

  /** The full paths of the nodes without handlers that have a child with handlers. */
  ghost function TreeGaps(t: Tree, parent: string): set<string>
    decreases t
  {
    (if t.handlers.None? && HasHandlers(t.children) then {parent + t.segment} else {})
    + ForestGaps(t.children, parent + t.segment)
  }

  ghost function ForestGaps(ts: seq<Tree>, parent: string): set<string>
    decreases ts
  {
    if ts == [] then {} else TreeGaps(ts[0], parent) + ForestGaps(ts[1..], parent)
  }

  ghost predicate PathsWithin(es: seq<Entry>, known: set<string>) { forall i :: 0 <= i < |es| ==> es[i].path in known }

  /** Whatever the stack answers is a known path or nothing. */
  ghost predicate KnownParents(s: Stack, known: set<string>) {
    forall k: nat :: ParentOf(s, k) == "" || ParentOf(s, k) in known
  }

  lemma PushKnown(o: Option<Matched>, s: Stack, known: set<string>)
    requires KnownParents(s, known) && (o.Some? ==> FullPath(s, o.value) in known)
    ensures KnownParents(Push(o, s), known)
  {
    if o.Some? {
      var u := Push(o, s);
      forall k: nat
        ensures ParentOf(u, k) == "" || ParentOf(u, k) in known
      {
        assert k <= o.value.depth ==> ParentOf(u, k) == ParentOf(s, k);
      }
    }
  }

  /** Where the stack answers with another parent, a forest that is read back right has no roots with handlers. */
  lemma {:induction false} WrongParentShows(ts: seq<Tree>, indent: string, level: nat, s: Stack, parent: string)
    requires ForestFits(ts) && AtLevel(indent, level) && parent != "" && ParentOf(s, level + 1) != parent
    requires Entries(ForestMatches(ts, indent), s) == ForestPaths(ts, parent)
    ensures !HasHandlers(ts)
    decreases ts
  {
    if ts != [] {
      var first := TreeMatches(ts[0], indent, |ts| == 1);
      EntriesOfForest(ts, indent, s);
      TreeCount(ts[0], indent, |ts| == 1, level, s, parent);
      SplitEqual(Entries(first, s), Entries(ForestMatches(ts[1..], indent), StackAfter(first, s)),
                 TreePaths(ts[0], parent), ForestPaths(ts[1..], parent));
      WrongParentShowsHere(ts[0], indent, |ts| == 1, level, s, parent);
      TreeKeepsParents(ts[0], indent, |ts| == 1, level, s);
      WrongParentShows(ts[1..], indent, level, StackAfter(first, s), parent);
      assert forall i :: 1 <= i < |ts| ==> ts[i] == ts[1..][i - 1];
    }
  }

  lemma WrongParentShowsHere(t: Tree, indent: string, last: bool, level: nat, s: Stack, parent: string)
    requires TreeFits(t) && AtLevel(indent, level) && parent != "" && ParentOf(s, level + 1) != parent
    requires Entries(TreeMatches(t, indent, last), s) == TreePaths(t, parent)
    ensures t.handlers.None?
  {
    if t.handlers.Some? {
      OwnPathIsRight(t, indent, last, level, s, parent);
      SameTail(ParentOf(s, level + 1), parent, t.segment);
    }
  }

  /** A tree that is read back right has its own line right, and its children. */
  lemma OwnPathIsRight(t: Tree, indent: string, last: bool, level: nat, s: Stack, parent: string)
    requires TreeFits(t) && AtLevel(indent, level) && t.handlers.Some?
    requires Entries(TreeMatches(t, indent, last), s) == TreePaths(t, parent)
    ensures var o := MatchLine(indent + Branch(last) + Label(t));
            && o == Some(Matched(level + 1, t.segment, CommaJoin(t.handlers.value)))
            && FullPath(s, o.value) == parent + t.segment && (parent != "" ==> !AtApiRoot(t.segment))
            && Entries(ForestMatches(t.children, indent + Indent(last)), Push(o, s))
               == ForestPaths(t.children, parent + t.segment)
  {
    EntriesOfTree(t, indent, last, s);
    OwnLine(t, indent, last, level, s);
    var o := MatchLine(indent + Branch(last) + Label(t));
    RootedPath(s, o.value);
    SplitEqual(EntryOf(o, s), Entries(ForestMatches(t.children, indent + Indent(last)), Push(o, s)),
               [Entry(parent + t.segment, CommaJoin(t.handlers.value))],
               ForestPaths(t.children, parent + t.segment));
  }

  /** A bare tree that is read back right has its children right, under the stack as it is. */
  lemma BareChildrenAreRight(t: Tree, indent: string, last: bool, level: nat, s: Stack, parent: string)
    requires TreeFits(t) && AtLevel(indent, level) && t.handlers.None?
    requires Entries(TreeMatches(t, indent, last), s) == TreePaths(t, parent)
    ensures MatchLine(indent + Branch(last) + Label(t)).None?
    ensures Entries(ForestMatches(t.children, indent + Indent(last)), s) == ForestPaths(t.children, parent + t.segment)
  {
    EntriesOfTree(t, indent, last, s);
    OwnLine(t, indent, last, level, s);
    var inner, paths := Entries(ForestMatches(t.children, indent + Indent(last)), s), ForestPaths(t.children, parent + t.segment);
    assert [] + inner == inner && [] + paths == paths;
  }

  lemma StackAfterTree(t: Tree, indent: string, last: bool, s: Stack)
    ensures StackAfter(TreeMatches(t, indent, last), s)
            == StackAfter(ForestMatches(t.children, indent + Indent(last)), Push(MatchLine(indent + Branch(last) + Label(t)), s))
  {
    var o := MatchLine(indent + Branch(last) + Label(t));
    TreeMatchesUnfold(t, indent, last);
    RunConcat([o], ForestMatches(t.children, indent + Indent(last)), s);
    RunOne(o, s);
  }

  /** A forest that is grounded and has no roots with handlers has no handlers at all. */
  lemma {:induction false} GroundedIsSilent(ts: seq<Tree>)
    requires ForestGrounded(ts) && !HasHandlers(ts)
    ensures ForestSilent(ts)
  {
    if ts != [] {
      assert ts[0].handlers.None?;
      assert forall i :: 0 <= i < |ts[1..]| ==> ts[1..][i] == ts[i + 1];
      GroundedIsSilent(ts[1..]);
    }
  }

  /** A tree that is read back right is grounded and, under a non-empty parent, has no such segment; and the
    * stack it leaves knows only right paths. */
  lemma {:induction false} RightMeans(
    t: Tree, indent: string, last: bool, level: nat, s: Stack, parent: string, known: set<string>, gaps: set<string>)
    requires TreeFits(t) && AtLevel(indent, level)
    requires Entries(TreeMatches(t, indent, last), s) == TreePaths(t, parent)
    requires PathsWithin(TreePaths(t, parent), known) && TreeGaps(t, parent) <= gaps && known !! gaps
    requires KnownParents(s, known)
    ensures TreeGrounded(t) && ForestAvoidsV1(t.children) && (parent != "" ==> TreeAvoidsV1(t))
    ensures KnownParents(StackAfter(TreeMatches(t, indent, last), s), known)
    decreases t
  {
    var o, path, below := MatchLine(indent + Branch(last) + Label(t)), parent + t.segment, indent + Indent(last);
    DeeperLevel(indent, last, level);
    StackAfterTree(t, indent, last, s);
    if t.handlers.Some? {
      OwnPathIsRight(t, indent, last, level, s, parent);
      var own, inner := [Entry(path, CommaJoin(t.handlers.value))], ForestPaths(t.children, path);
      WithinParts(own, inner, known);
      assert own[0].path == path;
      PushKnown(o, s, known);
      RightForestMeans(t.children, below, level + 1, Push(o, s), path, known, gaps);
    } else {
      BareChildrenAreRight(t, indent, last, level, s, parent);
      WithinParts([], ForestPaths(t.children, path), known);
      RightForestMeans(t.children, below, level + 1, s, path, known, gaps);
      if HasHandlers(t.children) {
        assert path in gaps;
        assert ParentOf(s, level + 2) != path;
        WrongParentShows(t.children, below, level + 1, s, path);
      }
      GroundedIsSilent(t.children);
    }
  }

  lemma WithinParts(a: seq<Entry>, b: seq<Entry>, known: set<string>)
    requires PathsWithin(a + b, known)
    ensures PathsWithin(a, known) && PathsWithin(b, known)
  {
    assert forall i :: 0 <= i < |a| ==> a[i] == (a + b)[i];
    assert forall i :: 0 <= i < |b| ==> b[i] == (a + b)[|a| + i];
  }

  lemma {:induction false} RightForestMeans(
    ts: seq<Tree>, indent: string, level: nat, s: Stack, parent: string, known: set<string>, gaps: set<string>)
    requires ForestFits(ts) && AtLevel(indent, level)
    requires Entries(ForestMatches(ts, indent), s) == ForestPaths(ts, parent)
    requires PathsWithin(ForestPaths(ts, parent), known) && ForestGaps(ts, parent) <= gaps && known !! gaps
    requires KnownParents(s, known)
    ensures ForestGrounded(ts) && if parent == "" then NestedAvoidV1(ts) else ForestAvoidsV1(ts)
    ensures KnownParents(StackAfter(ForestMatches(ts, indent), s), known)
    decreases ts
  {
    if ts != [] {
      var first, rest := TreeMatches(ts[0], indent, |ts| == 1), ForestMatches(ts[1..], indent);
      EntriesOfForest(ts, indent, s);
      TreeCount(ts[0], indent, |ts| == 1, level, s, parent);
      SplitEqual(Entries(first, s), Entries(rest, StackAfter(first, s)), TreePaths(ts[0], parent), ForestPaths(ts[1..], parent));
      WithinParts(TreePaths(ts[0], parent), ForestPaths(ts[1..], parent), known);
      RightMeans(ts[0], indent, |ts| == 1, level, s, parent, known, gaps);
      RightForestMeans(ts[1..], indent, level, StackAfter(first, s), parent, known, gaps);
      ForestMatchesUnfold(ts, indent);
      RunConcat(first, rest, s);
    }
  }

  function PathSet(es: seq<Entry>): set<string> { set i | 0 <= i < |es| :: es[i].path }

  /** A router has one node for each path: none without handlers repeats the path of one with handlers. */
  ghost predicate OneNodePerPath(ts: seq<Tree>) { PathSet(ForestPaths(ts, "")) !! ForestGaps(ts, "") }

  /** A printed forest is read back with every full path right exactly when no segment with handlers below a
    * root starts with the API root and no node without handlers has one with handlers below it. */
  lemma ReadBackIff(ts: seq<Tree>)
    requires ForestFits(ts) && OneNodePerPath(ts)
    ensures Entries(ForestMatches(ts, ""), []) == ForestPaths(ts, "") <==> NestedAvoidV1(ts) && ForestGrounded(ts)
  {
    if NestedAvoidV1(ts) && ForestGrounded(ts) {
      ForestIsReadBack(ts, "", 0, [], "");
    }
    if Entries(ForestMatches(ts, ""), []) == ForestPaths(ts, "") {
      RightForestMeans(ts, "", 0, [], "", PathSet(ForestPaths(ts, "")), ForestGaps(ts, ""));
    }
  }

  /** Grounded forests, the documented form among them, have no such nodes to tell apart. */
  lemma {:induction false} GroundedHasNoGaps(t: Tree, parent: string)
    requires TreeGrounded(t)
    ensures TreeGaps(t, parent) == {}
    decreases t
  {
    GroundedForestHasNoGaps(t.children, parent + t.segment);
    if t.handlers.None? {
      SilentHasNoHandlers(t.children);
    }
  }

  lemma {:induction false} GroundedForestHasNoGaps(ts: seq<Tree>, parent: string)
    requires ForestGrounded(ts)
    ensures ForestGaps(ts, parent) == {}
    decreases ts
  {
    if ts != [] {
      GroundedHasNoGaps(ts[0], parent);
      GroundedForestHasNoGaps(ts[1..], parent);
    }
  }

  lemma {:induction false} SilentHasNoHandlers(ts: seq<Tree>)
    requires ForestSilent(ts)
    ensures !HasHandlers(ts)
  {
    if ts != [] {
      SilentHasNoHandlers(ts[1..]);
      assert forall i :: 1 <= i < |ts| ==> ts[i] == ts[1..][i - 1];
    }
  }

  /** So a grounded forest is read back right exactly when no nested segment starts with the API root. */
  lemma GroundedReadBackIff(ts: seq<Tree>)
    requires ForestFits(ts) && ForestGrounded(ts)
    ensures Entries(ForestMatches(ts, ""), []) == ForestPaths(ts, "") <==> NestedAvoidV1(ts)
  {
    GroundedForestHasNoGaps(ts, "");
    ReadBackIff(ts);
  }

  predicate Apart(a: string, b: string) { !(a <= b) && !(b <= a) }

  /** Of two siblings, at any depth, neither segment is a prefix of the other. */
  predicate ForestApart(ts: seq<Tree>)
    decreases ts
  {
    ts == [] ||
    (ForestApart(ts[0].children) && ForestApart(ts[1..]) && forall j :: 1 <= j < |ts| ==> Apart(ts[0].segment, ts[j].segment))
  }

  /** The path belongs to one of these trees. */
  ghost predicate Below(ts: seq<Tree>, parent: string, path: string) {
    exists j :: 0 <= j < |ts| && parent + ts[j].segment <= path
  }

  lemma BelowRest(ts: seq<Tree>, parent: string, path: string)
    requires ts != [] && Below(ts[1..], parent, path)
    ensures Below(ts, parent, path)
  {
    var j :| 0 <= j < |ts[1..]| && parent + ts[1..][j].segment <= path;
    assert parent + ts[j + 1].segment <= path;
  }

  /** Every path and every gap of a forest belongs to one of its trees. */
  lemma {:induction false} PathsAreBelow(ts: seq<Tree>, parent: string, path: string)
    requires path in PathSet(ForestPaths(ts, parent)) || path in ForestGaps(ts, parent)
    ensures Below(ts, parent, path)
    decreases ts
  {
    if ts != [] {
      ConcatPaths(TreePaths(ts[0], parent), ForestPaths(ts[1..], parent), path);
      if path in PathSet(TreePaths(ts[0], parent)) || path in TreeGaps(ts[0], parent) {
        OwnOrBelow(ts[0], parent, path);
        assert parent + ts[0].segment <= path;
      } else {
        PathsAreBelow(ts[1..], parent, path);
        BelowRest(ts, parent, path);
      }
    }
  }

  lemma {:induction false} OwnOrBelow(t: Tree, parent: string, path: string)
    requires path in PathSet(TreePaths(t, parent)) || path in TreeGaps(t, parent)
    ensures path == parent + t.segment || Below(t.children, parent + t.segment, path)
    ensures parent + t.segment <= path
    decreases t
  {
    var own := if t.handlers.Some? then [Entry(parent + t.segment, CommaJoin(t.handlers.value))] else [];
    ConcatPaths(own, ForestPaths(t.children, parent + t.segment), path);
    if path != parent + t.segment {
      PathsAreBelow(t.children, parent + t.segment, path);
    }
  }

  lemma ConcatPaths(a: seq<Entry>, b: seq<Entry>, path: string)
    ensures path in PathSet(a + b) <==> path in PathSet(a) || path in PathSet(b)
  {
    if path in PathSet(a) {
      var i :| 0 <= i < |a| && a[i].path == path;
      assert (a + b)[i].path == path;
    }
    if path in PathSet(b) {
      var i :| 0 <= i < |b| && b[i].path == path;
      assert (a + b)[|a| + i].path == path;
    }
  }

  lemma ApartExtensions(parent: string, a: string, b: string, path: string)
    requires parent + a <= path && parent + b <= path
    ensures !Apart(a, b)
  {
    var tail := path[|parent|..];
    assert forall i :: 0 <= i < |a| ==> a[i] == (parent + a)[|parent| + i] == tail[i];
    assert forall i :: 0 <= i < |b| ==> b[i] == (parent + b)[|parent| + i] == tail[i];
  }

  lemma {:induction false} ApartForest(ts: seq<Tree>, parent: string)
    requires ForestFits(ts) && ForestApart(ts)
    ensures PathSet(ForestPaths(ts, parent)) !! ForestGaps(ts, parent)
    decreases ts
  {
    if ts != [] {
      ApartTree(ts[0], parent);
      ApartForest(ts[1..], parent);
      forall path | path in PathSet(ForestPaths(ts, parent))
        ensures path !in ForestGaps(ts, parent)
      {
        ConcatPaths(TreePaths(ts[0], parent), ForestPaths(ts[1..], parent), path);
        FirstIsNotRest(ts, parent, path);
      }
    }
  }

  /** Nothing belongs both to the first tree and to another. */
  lemma FirstIsNotRest(ts: seq<Tree>, parent: string, path: string)
    requires ts != [] && ForestApart(ts)
    ensures path in PathSet(TreePaths(ts[0], parent)) || path in TreeGaps(ts[0], parent) ==>
              path !in PathSet(ForestPaths(ts[1..], parent)) && path !in ForestGaps(ts[1..], parent)
  {
    if path in PathSet(TreePaths(ts[0], parent)) || path in TreeGaps(ts[0], parent) {
      OwnOrBelow(ts[0], parent, path);
      if path in PathSet(ForestPaths(ts[1..], parent)) || path in ForestGaps(ts[1..], parent) {
        PathsAreBelow(ts[1..], parent, path);
        var j :| 0 <= j < |ts[1..]| && parent + ts[1..][j].segment <= path;
        ApartExtensions(parent, ts[0].segment, ts[j + 1].segment, path);
      }
    }
  }

  lemma {:induction false} ApartTree(t: Tree, parent: string)
    requires TreeFits(t) && ForestApart(t.children)
    ensures PathSet(TreePaths(t, parent)) !! TreeGaps(t, parent)
    decreases t
  {
    var own := parent + t.segment;
    var mine := if t.handlers.Some? then [Entry(own, CommaJoin(t.handlers.value))] else [];
    ApartForest(t.children, own);
    forall path | path in PathSet(TreePaths(t, parent))
      ensures path !in TreeGaps(t, parent)
    {
      ConcatPaths(mine, ForestPaths(t.children, own), path);
      if path == own {
        OwnIsNotBelow(t.children, own);
      }
    }
  }

  /** A node's own path is none of the paths below it. */
  lemma OwnIsNotBelow(ts: seq<Tree>, own: string)
    requires ForestFits(ts)
    ensures own !in PathSet(ForestPaths(ts, own)) && own !in ForestGaps(ts, own)
  {
    if own in PathSet(ForestPaths(ts, own)) || own in ForestGaps(ts, own) {
      PathsAreBelow(ts, own, own);
      var j :| 0 <= j < |ts| && own + ts[j].segment <= own;
      SegmentAt(ts, j);
    }
  }

  lemma {:induction false} SegmentAt(ts: seq<Tree>, j: nat)
    requires ForestFits(ts) && j < |ts|
    ensures IsSegment(ts[j].segment)
  {
    if j > 0 {
      SegmentAt(ts[1..], j - 1);
    }
  }

  /** Where siblings cannot be confused by their segments, every path has one node. */
  lemma ApartMeansOneNode(ts: seq<Tree>)
    requires ForestFits(ts) && ForestApart(ts)
    ensures OneNodePerPath(ts)
  {
    ApartForest(ts, "");
  }

  // ---------------------------------------------------------------- the registered set

  /** Every method but HEAD of every node, with the node's full path normalised. */
  function TreeRoutes(t: Tree, parent: string): set<string>
    decreases t
  {
    var path := parent + t.segment;
    (if t.handlers.None? then {} else set m | m in t.handlers.value && m != "HEAD" :: m + " " + Normalised(path))
    + ForestRoutes(t.children, path)
  }

  function ForestRoutes(ts: seq<Tree>, parent: string): set<string>
    decreases ts
  {
    if ts == [] then {} else TreeRoutes(ts[0], parent) + ForestRoutes(ts[1..], parent)
  }

  /** The printed text: every line ends in a newline. */
  function Printed(ts: seq<Tree>): string {
    Join(PrintForest(ts, "") + [""], '\n')
  }

  function Spaced(ms: seq<string>): (r: seq<string>)
    ensures |r| == |ms| && forall i :: 0 <= i < |ms| ==> r[i] == " " + ms[i]
  {
    if ms == [] then [] else [" " + ms[0]] + Spaced(ms[1..])
  }

  /** The pieces a method list is split into: all but the first start with a space. */
  function Pieces(ms: seq<string>): (r: seq<string>)
    ensures |r| == if ms == [] then 1 else |ms|
    ensures ms != [] ==> r[0] == ms[0] && forall i :: 1 <= i < |ms| ==> r[i] == " " + ms[i]
  {
    if ms == [] then [[]] else [ms[0]] + Spaced(ms[1..])
  }

  lemma SplitAfterSpace(x: string)
    ensures Split(" " + x, ',') == [" " + Split(x, ',')[0]] + Split(x, ',')[1..]
  {
    assert (" " + x)[1..] == x;
    assert [' '] + Split(x, ',')[0] == " " + Split(x, ',')[0];
  }

  lemma CommaJoinUnfold(ms: seq<string>)
    requires |ms| > 1
    ensures CommaJoin(ms) == ms[0] + [','] + (" " + CommaJoin(ms[1..]))
  {
  }

  lemma IsMethodCommaFree(m: string)
    requires IsMethod(m)
    ensures ',' !in m
  {
  }

  /** A space before a non-empty method list lands on its first piece. */
  lemma SpacedPieces(ms: seq<string>, x: string)
    requires ms != [] && Split(x, ',') == Pieces(ms)
    ensures Split(" " + x, ',') == Spaced(ms)
  {
    SplitAfterSpace(x);
    assert Pieces(ms)[1..] == Spaced(ms[1..]);
  }

  lemma {:induction false} SplitCommaJoin(ms: seq<string>)
    requires forall i :: 0 <= i < |ms| ==> IsMethod(ms[i])
    ensures Split(CommaJoin(ms), ',') == Pieces(ms)
  {
    if ms != [] {
      IsMethodCommaFree(ms[0]);
      if |ms| == 1 {
        SplitCons(ms[0], [], ',');
        assert ms[1..] == [];
      } else {
        var rest := CommaJoin(ms[1..]);
        CommaJoinUnfold(ms);
        SplitCons(ms[0], " " + rest, ',');
        SplitCommaJoin(ms[1..]);
        SpacedPieces(ms[1..], rest);
      }
    }
  }

  lemma TrimOfMethod(m: string)
    requires IsMethod(m)
    ensures Trim(m) == m && Trim(" " + m) == m
  {
    assert (" " + m)[1..] == m;
    assert TrimEnd(m) == m;
  }

  /** The pieces are the methods once they are trimmed, apart from empty ones. */
  ghost predicate TrimsTo(ps: seq<string>, ms: seq<string>) {
    && (forall p :: p in ps ==> Trim(p) in ms || Trim(p) == [])
    && (forall m :: m in ms ==> m != [] && exists p :: p in ps && Trim(p) == m)
  }

  lemma PiecesTrimToMethods(ms: seq<string>)
    requires forall i :: 0 <= i < |ms| ==> IsMethod(ms[i])
    ensures TrimsTo(Pieces(ms), ms)
  {
    var ps := Pieces(ms);
    forall i | 0 <= i < |ms|
      ensures Trim(ps[i]) == ms[i] && ps[i] in ps
    {
      TrimOfMethod(ms[i]);
    }
    forall p | p in ps
      ensures Trim(p) in ms || Trim(p) == []
    {
      var i :| 0 <= i < |ps| && ps[i] == p;
      if ms != [] {
        assert ms[i] in ms;
      }
    }
    forall m | m in ms
      ensures m != [] && exists p :: p in ps && Trim(p) == m
    {
      var i :| 0 <= i < |ms| && ms[i] == m;
      assert ps[i] in ps && Trim(ps[i]) == m;
    }
  }

  lemma LabelledTrimmed(ps: seq<string>, ms: seq<string>, shown: string)
    requires TrimsTo(ps, ms)
    ensures Labelled(shown, ps) == set m | m in ms && m != "HEAD" :: m + " " + shown
  {
    forall m | m in ms && m != "HEAD"
      ensures m + " " + shown in Labelled(shown, ps)
    {
      var p :| p in ps && Trim(p) == m;
    }
  }

  lemma LabelledMethods(ms: seq<string>, shown: string)
    requires forall i :: 0 <= i < |ms| ==> IsMethod(ms[i])
    ensures Labelled(shown, Split(CommaJoin(ms), ',')) == set m | m in ms && m != "HEAD" :: m + " " + shown
  {
    SplitCommaJoin(ms);
    PiecesTrimToMethods(ms);
    LabelledTrimmed(Pieces(ms), ms, shown);
  }

  lemma {:induction false} PathsAreRoutes(t: Tree, parent: string)
    requires TreeFits(t)
    ensures RoutesOf(TreePaths(t, parent)) == TreeRoutes(t, parent)
    decreases t
  {
    var path := parent + t.segment;
    ForestPathsAreRoutes(t.children, path);
    if t.handlers.Some? {
      var e := Entry(path, CommaJoin(t.handlers.value));
      RoutesConcat([e], ForestPaths(t.children, path));
      RoutesOfOne(e);
      LabelledMethods(t.handlers.value, Normalised(path));
    } else {
      assert [] + ForestPaths(t.children, path) == ForestPaths(t.children, path);
    }
  }

  lemma {:induction false} ForestPathsAreRoutes(ts: seq<Tree>, parent: string)
    requires ForestFits(ts)
    ensures RoutesOf(ForestPaths(ts, parent)) == ForestRoutes(ts, parent)
    decreases ts
  {
    if ts != [] {
      PathsAreRoutes(ts[0], parent);
      ForestPathsAreRoutes(ts[1..], parent);
      RoutesConcat(TreePaths(ts[0], parent), ForestPaths(ts[1..], parent));
    }
  }

  ghost predicate SingleLines(lines: seq<string>) { forall i :: 0 <= i < |lines| ==> '\n' !in lines[i] }

  lemma LabelIsOneLine(t: Tree)
    requires TreeFits(t)
    ensures '\n' !in Label(t)
  {
    if t.handlers.Some? {
      CommaJoinIsClean(t.handlers.value);
    }
  }

  lemma {:induction false} TreePrintsLines(t: Tree, indent: string, last: bool)
    requires TreeFits(t) && '\n' !in indent
    ensures SingleLines(PrintTree(t, indent, last))
    decreases t
  {
    LabelIsOneLine(t);
    ForestPrintsLines(t.children, indent + Indent(last));
  }

  lemma {:induction false} ForestPrintsLines(ts: seq<Tree>, indent: string)
    requires ForestFits(ts) && '\n' !in indent
    ensures SingleLines(PrintForest(ts, indent))
    decreases ts
  {
    if ts != [] {
      TreePrintsLines(ts[0], indent, |ts| == 1);
      ForestPrintsLines(ts[1..], indent);
    }
  }

  lemma EmptyLineIsUnmatched()
    ensures Matches([""]) == [None]
  {
    assert [""][1..] == [];
    assert MatchLine("") == None;
  }

  /** The printed text splits into the printed lines and one empty one. */
  lemma PrintedText(ts: seq<Tree>)
    requires ForestFits(ts)
    ensures Matches(Split(Printed(ts), '\n')) == ForestMatches(ts, "") + [None]
  {
    var lines := PrintForest(ts, "");
    ForestPrintsLines(ts, "");
    SplitOfJoin(lines + [""], '\n');
    MatchesConcat(lines, [""]);
    EmptyLineIsUnmatched();
  }

  lemma TrailingBlank(ms: seq<Option<Matched>>)
    ensures Entries(ms + [None], []) == Entries(ms, [])
  {
    RunConcat(ms, [None], []);
    RunOne(None, StackAfter(ms, []));
  }

  /** Printing a forest of the documented form and registering the printed text gives exactly its routes. */
  lemma RegisteredIsTheForest(ts: seq<Tree>)
    requires ForestFits(ts) && NestedAvoidV1(ts) && ForestGrounded(ts)
    ensures RoutesOf(Entries(Matches(Split(Printed(ts), '\n')), [])) == ForestRoutes(ts, "")
  {
    PrintedText(ts);
    TrailingBlank(ForestMatches(ts, ""));
    GroundedReadBackIff(ts);
    ForestPathsAreRoutes(ts, "");
  }

  /** A parameter piece by piece: a path free of colons, and one more segment that is a parameter. */
  lemma {:induction false} NormalisedPlain(s: string)
    requires ':' !in s
    ensures Normalised(s) == s
  {
    if s != [] {
      assert s[0] in s;
      assert forall c :: c in s[1..] ==> c in s;
      NormalisedPlain(s[1..]);
      assert ([Literal(s[0])] + PiecesOf(s[1..]))[1..] == PiecesOf(s[1..]);
      assert [s[0]] + s[1..] == s;
    }
  }

  lemma BracesOfParamAlone(name: string)
    requires IsName(name)
    ensures Braces(":" + name) == "{" + name + "}"
  {
    BracesOfName(name, "");
    assert ":" + name + "" == ":" + name && "{" + name + "}" + "" == "{" + name + "}";
  }

  lemma BracesOfElement(name: string)
    requires IsName(name)
    ensures Braces(['/'] + (":" + name)) == ['/'] + ("{" + name + "}")
  {
    BracesOfLiteral('/', ":" + name);
    BracesOfParamAlone(name);
  }

  lemma Slash(c: char, name: string, after: string)
    ensures ['/', c] + name + after == ['/'] + ([c] + name + after)
  {
  }

  lemma NormalisedParam(a: string, name: string)
    requires ':' !in a && IsName(name)
    ensures Normalised(a + ("/:" + name)) == a + ("/{" + name + "}")
  {
    BracesNormalise(a + ("/:" + name));
    BracesNormalise(a);
    NormalisedPlain(a);
    BracesOfConcat(a, "/:" + name);
    BracesOfElement(name);
    Slash(':', name, "");
    Slash('{', name, "}");
    assert "/:" + name == ['/', ':'] + name + "" && ":" + name == [':'] + name + "";
    assert "/{" + name + "}" == ['/', '{'] + name + "}" && "{" + name + "}" == ['{'] + name + "}";
  }

  function Element(name: string, onOne: string): Tree { Tree("/:" + name, Some([onOne]), []) }

  /** A collection, and under it one element that a parameter names. */
  function Collection(a: string, name: string, onAll: string, onOne: string): Tree {
    Tree(a, Some([onAll, "HEAD"]), [Element(name, onOne)])
  }

  lemma ElementFits(name: string, onOne: string)
    requires IsName(name) && IsMethod(onOne)
    ensures TreeFits(Element(name, onOne)) && TreeAvoidsV1(Element(name, onOne)) && TreeGrounded(Element(name, onOne))
  {
    var segment := "/:" + name;
    assert segment[1] == ':';
    assert forall i :: 2 <= i < |segment| ==> segment[i] == name[i - 2] && IsIdent(segment[i]);
  }

  lemma CollectionFits(a: string, name: string, onAll: string, onOne: string)
    requires IsSegment(a) && IsName(name) && IsMethod(onAll) && IsMethod(onOne)
    ensures var ts := [Collection(a, name, onAll, onOne)]; ForestFits(ts) && NestedAvoidV1(ts) && ForestGrounded(ts)
  {
    ElementFits(name, onOne);
    var t, below := Collection(a, name, onAll, onOne), [Element(name, onOne)];
    assert below[1..] == [] && [t][1..] == [];
    assert ForestFits(below) && ForestAvoidsV1(below) && ForestGrounded(below);
    assert IsMethod("HEAD");
  }

  lemma CollectionRoutes(a: string, name: string, onAll: string, onOne: string)
    requires ':' !in a && IsName(name) && onAll != "HEAD" && onOne != "HEAD"
    ensures ForestRoutes([Collection(a, name, onAll, onOne)], "")
            == {onAll + " " + a, onOne + " " + (a + ("/{" + name + "}"))}
  {
    var t, leaf := Collection(a, name, onAll, onOne), Element(name, onOne);
    NormalisedPlain(a);
    NormalisedParam(a, name);
    assert "" + a == a && [t][1..] == [] && [leaf][1..] == [];
    assert ForestRoutes([], a) == {} && TreeRoutes(leaf, a) == {onOne + " " + (a + ("/{" + name + "}"))};
    assert ForestRoutes([leaf], a) == TreeRoutes(leaf, a);
    assert TreeRoutes(t, "") == {onAll + " " + a} + ForestRoutes([leaf], a);
  }

  /** The documented tree in small: registering its printed text drops HEAD and puts the parameter in braces. */
  lemma CollectionAndElement(a: string, name: string, onAll: string, onOne: string)
    requires IsSegment(a) && ':' !in a && IsName(name)
    requires IsMethod(onAll) && IsMethod(onOne) && onAll != "HEAD" && onOne != "HEAD"
    ensures RoutesOf(Entries(Matches(Split(Printed([Collection(a, name, onAll, onOne)]), '\n')), []))
            == {onAll + " " + a, onOne + " " + (a + ("/{" + name + "}"))}
  {
    CollectionFits(a, name, onAll, onOne);
    CollectionRoutes(a, name, onAll, onOne);
    RegisteredIsTheForest([Collection(a, name, onAll, onOne)]);
  }

  predicate StartsParam(s: string) { |s| > 1 && s[0] == ':' && IsIdentStart(s[1]) }

  lemma BracesOfParam(s: string, n: nat)
    requires StartsParam(s) && n == IdentRun(s[1..])
    ensures n + 1 <= |s| && Braces(s) == Braced(s, n) + Braces(s[n + 1..])
  {
  }

  lemma BracesOfPlain(s: string)
    requires s != [] && !StartsParam(s)
    ensures Braces(s) == [s[0]] + Braces(s[1..])
  {
  }

  /** A parameter at the front of a path, when something is appended to the path. */
  lemma ParamInFront(a: string, b: string, n: nat)
    requires StartsParam(a) && n == IdentRun(a[1..]) && (b != [] ==> b[0] == '/')
    ensures n < |a| && Braces(a + b) == Braced(a, n) + Braces(a[n + 1..] + b)
  {
    IdentRunOf(a[1..], b);
    ParamSlices(a, b, n);
    BracesOfParam(a + b, n);
  }

  lemma ParamSlices(a: string, b: string, n: nat)
    requires |a| > 1 && n < |a|
    ensures (a + b)[1..] == a[1..] + b && (a + b)[0] == a[0] && (a + b)[1] == a[1]
    ensures (a + b)[n + 1..] == a[n + 1..] + b && (a + b)[1..n + 1] == a[1..n + 1]
    ensures Braced(a + b, n) == Braced(a, n)
  {
  }

  lemma StillPlain(a: string, b: string)
    requires a != [] && !StartsParam(a) && (b != [] ==> b[0] == '/')
    ensures !StartsParam(a + b) && (a + b)[0] == a[0] && (a + b)[1..] == a[1..] + b
  {
    assert |a| > 1 ==> (a + b)[1] == a[1];
    assert |a| == 1 && b != [] ==> (a + b)[1] == b[0];
  }

  lemma PlainInFront(a: string, b: string)
    requires a != [] && !StartsParam(a) && (b != [] ==> b[0] == '/')
    ensures Braces(a + b) == [a[0]] + Braces(a[1..] + b)
  {
    StillPlain(a, b);
    BracesOfPlain(a + b);
  }

  lemma Regroup(a: string, b: string, c: string)
    ensures a + (b + c) == (a + b) + c
  {
  }

  /** Normalising a path is normalising its segments one by one. */
  lemma {:induction false} BracesOfConcat(a: string, b: string)
    requires b != [] ==> b[0] == '/'
    ensures Braces(a + b) == Braces(a) + Braces(b)
    decreases |a|
  {
    if a == [] {
      assert a + b == b;
    } else if StartsParam(a) {
      var n := IdentRun(a[1..]);
      BracesOfParam(a, n);
      ParamInFront(a, b, n);
      BracesOfConcat(a[n + 1..], b);
      Regroup(Braced(a, n), Braces(a[n + 1..]), Braces(b));
    } else {
      BracesOfPlain(a);
      PlainInFront(a, b);
      BracesOfConcat(a[1..], b);
      Regroup([a[0]], Braces(a[1..]), Braces(b));
    }
  }

  lemma {:induction false} IdentRunOf(a: string, b: string)
    requires b != [] ==> b[0] == '/'
    ensures IdentRun(a + b) == IdentRun(a)
  {
    if a == [] {
      assert a + b == b;
    } else if IsIdent(a[0]) {
      assert (a + b)[1..] == a[1..] + b;
      IdentRunOf(a[1..], b);
    }
  }

  lemma LeafMatches(t: Tree, indent: string, last: bool, level: nat)
    requires TreeFits(t) && t.handlers.Some? && t.children == [] && AtLevel(indent, level)
    ensures TreeMatches(t, indent, last) == [Some(Matched(level + 1, t.segment, CommaJoin(t.handlers.value)))]
  {
    TreeMatchesUnfold(t, indent, last);
    PrintedLineMatches(t, indent, last, level);
    assert ForestMatches([], indent + Indent(last)) == [];
  }

  lemma OnlyTree(t: Tree, indent: string)
    ensures ForestMatches([t], indent) == TreeMatches(t, indent, true)
  {
    assert [t][1..] == [];
    ForestMatchesUnfold([t], indent);
    assert ForestMatches([], indent) == [];
  }

  lemma BareTreeMatches(t: Tree, indent: string, last: bool)
    requires IsSegment(t.segment) && t.handlers.None? && '(' !in t.segment && AllGlyphs(indent)
    ensures TreeMatches(t, indent, last) == [None] + ForestMatches(t.children, indent + Indent(last))
  {
    TreeMatchesUnfold(t, indent, last);
    BareLineIsUnmatched(t.(children := []), indent, last);
  }

  predicate Leaf(t: Tree) { TreeFits(t) && t.handlers.Some? && t.children == [] }

  /** A root without handlers of its own that holds one leaf. */
  predicate BareParentOf(b: Tree, c: Tree) {
    IsSegment(b.segment) && '(' !in b.segment && b.handlers.None? && b.children == [c]
  }

  function LeafMatch(t: Tree, depth: nat): Option<Matched>
    requires Leaf(t)
  {
    Some(Matched(depth, t.segment, CommaJoin(t.handlers.value)))
  }

  lemma BareRootMatches(b: Tree, c: Tree)
    requires Leaf(c) && BareParentOf(b, c)
    ensures ForestMatches([b], "") == [None] + [LeafMatch(c, 2)]
  {
    OnlyTree(b, "");
    BareTreeMatches(b, "", true);
    BranchIsGlyphs("", true);
    OnlyTree(c, "" + Indent(true));
    LeafMatches(c, "" + Indent(true), true, 1);
  }

  lemma BareParentMatches(a: Tree, b: Tree, c: Tree)
    requires Leaf(a) && Leaf(c) && BareParentOf(b, c)
    ensures ForestMatches([a, b], "") == [LeafMatch(a, 1), None, LeafMatch(c, 2)]
  {
    var ts := [a, b];
    assert ts[1..] == [b] && ts[0] == a && |ts| == 2;
    ForestMatchesUnfold(ts, "");
    LeafMatches(a, "", false, 0);
    BareRootMatches(b, c);
  }

  lemma BareParentEntries(a: Matched, c: Matched)
    requires a.depth == 1 && c.depth == 2 && !AtApiRoot(c.segment)
    ensures Entries([Some(a), None, Some(c)], []) == [Entry(a.segment, a.methods), Entry(a.segment + c.segment, c.methods)]
  {
    var s := Push(Some(a), []);
    assert FullPath([], a) == a.segment && ParentOf(s, 2) == a.segment;
    assert [Some(a), None, Some(c)][1..] == [None, Some(c)] && [None, Some(c)][1..] == [Some(c)];
    RunOne(Some(c), s);
  }

  lemma BareParentPaths(a: Tree, b: Tree, c: Tree)
    requires Leaf(a) && Leaf(c) && BareParentOf(b, c)
    ensures ForestPaths([a, b], "") == [Entry(a.segment, CommaJoin(a.handlers.value)),
                                        Entry(b.segment + c.segment, CommaJoin(c.handlers.value))]
  {
    assert [a, b][1..] == [b] && [b][1..] == [] && [c][1..] == [];
    assert "" + a.segment == a.segment && "" + b.segment == b.segment;
    assert TreePaths(a, "") == [Entry(a.segment, CommaJoin(a.handlers.value))];
    assert TreePaths(c, b.segment) == [Entry(b.segment + c.segment, CommaJoin(c.handlers.value))];
    assert ForestPaths([c], b.segment) == TreePaths(c, b.segment);
    assert TreePaths(b, "") == ForestPaths([c], b.segment);
    assert ForestPaths([b], "") == TreePaths(b, "");
  }

  /** Outside the documented form: the child of a root without handlers is filed under that root's elder
    * sibling, so it is right only if the two roots have the same segment. */
  lemma BareParentMisfilesItsChild(a: Tree, b: Tree, c: Tree)
    requires Leaf(a) && Leaf(c) && BareParentOf(b, c) && !AtApiRoot(c.segment)
    ensures var wrong := Entry(a.segment + c.segment, CommaJoin(c.handlers.value));
            && Entries(ForestMatches([a, b], ""), []) == [Entry(a.segment, CommaJoin(a.handlers.value)), wrong]
            && (Entries(ForestMatches([a, b], ""), []) == ForestPaths([a, b], "") <==> a.segment == b.segment)
  {
    BareParentMatches(a, b, c);
    BareParentEntries(Matched(1, a.segment, CommaJoin(a.handlers.value)), Matched(2, c.segment, CommaJoin(c.handlers.value)));
    BareParentPaths(a, b, c);
    SameTail(a.segment, b.segment, c.segment);
  }

  lemma SameTail(a: string, b: string, c: string)
    ensures a + c == b + c <==> a == b
  {
    if a + c == b + c {
      assert |a| == |b| && a == (a + c)[..|a|] && b == (b + c)[..|b|];
    }
  }
}
