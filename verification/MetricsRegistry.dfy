/** The metrics registry: an append-only sample log and an index by serialised label set. */
module MetricsRegistry {
  import opened Wrappers
  import opened Text

  // ---------------------------------------------------------------- sorted label sets

  type Labels = seq<(string, string)>

  /** Lexicographic, by the order of characters; the results hold for any such total order. */
  predicate Less(a: string, b: string) {
    b != [] && (a == [] || a[0] < b[0] || (a[0] == b[0] && Less(a[1..], b[1..])))
  }

  lemma {:induction false} LessIsTotal(a: string, b: string)
    ensures a == b || Less(a, b) || Less(b, a)
    ensures !(Less(a, b) && Less(b, a)) && !Less(a, a)
  {
    if a != [] && b != [] && a[0] == b[0] {
      LessIsTotal(a[1..], b[1..]);
      assert a == [a[0]] + a[1..] && b == [b[0]] + b[1..];
    }
    if a != [] {
      LessIsIrreflexive(a);
    }
  }

  lemma {:induction false} LessIsIrreflexive(a: string)
    ensures !Less(a, a)
  {
    if a != [] {
      LessIsIrreflexive(a[1..]);
    }
  }

  lemma {:induction false} LessIsTransitive(a: string, b: string, c: string)
    requires Less(a, b) && Less(b, c)
    ensures Less(a, c)
  {
    if a != [] && a[0] == b[0] && b[0] == c[0] {
      LessIsTransitive(a[1..], b[1..], c[1..]);
    }
  }

  /** An object never has the same key twice. */
  predicate Distinct(l: Labels) { forall i, j :: 0 <= i < j < |l| ==> l[i].0 != l[j].0 }

  predicate Sorted(l: Labels) { forall i, j :: 0 <= i < j < |l| ==> Less(l[i].0, l[j].0) }

  function Insert(p: (string, string), l: Labels): (r: Labels)
    ensures |r| == |l| + 1 && forall x :: x in r <==> x == p || x in l
  {
    if l == [] || Less(p.0, l[0].0) then [p] + l else [l[0]] + Insert(p, l[1..])
  }

  function Sort(l: Labels): (r: Labels)
    ensures |r| == |l| && forall x :: x in r <==> x in l
  {
    if l == [] then [] else Insert(l[0], Sort(l[1..]))
  }

  lemma {:induction false} InsertSorts(p: (string, string), l: Labels)
    requires Sorted(l) && forall i :: 0 <= i < |l| ==> l[i].0 != p.0
    ensures Sorted(Insert(p, l))
  {
    if l != [] {
      LessIsTotal(p.0, l[0].0);
      if Less(p.0, l[0].0) {
        forall j | 1 <= j < |l|
          ensures Less(p.0, l[j].0)
        {
          LessIsTransitive(p.0, l[0].0, l[j].0);
        }
      } else {
        InsertSorts(p, l[1..]);
        var r := Insert(p, l[1..]);
        forall j | 0 <= j < |r|
          ensures Less(l[0].0, r[j].0)
        {
          assert r[j] in r;
          if r[j] != p {
            var k :| 0 <= k < |l[1..]| && l[1..][k] == r[j];
            assert l[k + 1] == r[j];
          }
        }
      }
    }
  }

  lemma {:induction false} SortSorts(l: Labels)
    requires Distinct(l)
    ensures Sorted(Sort(l))
  {
    if l != [] {
      SortSorts(l[1..]);
      var rest := Sort(l[1..]);
      forall i | 0 <= i < |rest|
        ensures rest[i].0 != l[0].0
      {
        assert rest[i] in rest;
        var k :| 0 <= k < |l[1..]| && l[1..][k] == rest[i];
        assert l[k + 1] == rest[i];
      }
      InsertSorts(l[0], rest);
    }
  }

  /** A sorted list is determined by its elements. */
  lemma {:induction false} SortedIsUnique(a: Labels, b: Labels)
    requires Sorted(a) && Sorted(b) && forall x :: x in a <==> x in b
    ensures a == b
  {
    if b != [] {
      assert b[0] in b;
    }
    if a != [] {
      assert a[0] in a;
      HeadsAgree(a, b);
      TailElements(a);
      TailElements(b);
      SortedIsUnique(a[1..], b[1..]);
      assert a == [a[0]] + a[1..] && b == [b[0]] + b[1..];
    }
  }

  lemma HeadsAgree(a: Labels, b: Labels)
    requires Sorted(a) && Sorted(b) && a != [] && b != [] && a[0] in b && b[0] in a
    ensures a[0] == b[0]
  {
    var i :| 0 <= i < |b| && b[i] == a[0];
    var j :| 0 <= j < |a| && a[j] == b[0];
    LessIsTotal(a[0].0, b[0].0);
  }

  lemma TailElements(a: Labels)
    requires Sorted(a) && a != []
    ensures forall x :: x in a[1..] <==> x in a && x != a[0]
  {
    LessIsIrreflexive(a[0].0);
    forall x | x in a[1..]
      ensures x in a && x != a[0]
    {
      var k :| 0 <= k < |a[1..]| && a[1..][k] == x;
      assert a[k + 1] == x;
    }
    assert a == [a[0]] + a[1..];
  }

  // ---------------------------------------------------------------- serialised label sets

  function Piece(p: (string, string)): string { p.0 + ['='] + p.1 }

  function PiecesOf(l: Labels): (r: seq<string>)
    ensures |r| == |l| && forall i :: 0 <= i < |l| ==> r[i] == Piece(l[i])
  {
    if l == [] then [] else [Piece(l[0])] + PiecesOf(l[1..])
  }

  function LabelKey(l: Labels): string { Join(PiecesOf(Sort(l)), ',') }

  function IndexKey(name: string, l: Labels): string { name + ['{'] + LabelKey(l) + ['}'] }

  /** The order labels are written in never matters. */
  lemma OrderIsIrrelevant(a: Labels, b: Labels)
    requires Distinct(a) && Distinct(b) && forall x :: x in a <==> x in b
    ensures LabelKey(a) == LabelKey(b)
  {
    SortSorts(a);
    SortSorts(b);
    SortedIsUnique(Sort(a), Sort(b));
  }

  // ---------------------------------------------------------------- reading a serialised label set back

  predicate CleanName(name: string) { '{' !in name }

  /** Label names are free of the characters that delimit a serialised label set; values need not be. */
  predicate CleanNames(l: Labels) { forall i :: 0 <= i < |l| ==> '=' !in l[i].0 && ',' !in l[i].0 }

  /** What stands before the first equals sign. */
  function NameOf(piece: string): (n: string)
    ensures n <= piece && '=' !in n && ('=' in piece ==> n + ['='] <= piece)
  {
    if piece == [] || piece[0] == '=' then [] else [piece[0]] + NameOf(piece[1..])
  }

  /** A piece between commas that reads as the next label after one called `n`. */
  predicate StartsLabel(n: string, piece: string) { '=' in piece && Less(n, NameOf(piece)) }

  function LabelOf(piece: string): (p: (string, string))
    requires '=' in piece
    ensures Piece(p) == piece && '=' !in p.0 && p.0 == NameOf(piece)
  {
    var n := NameOf(piece);
    assert piece[..|n| + 1] == n + ['='];
    (n, piece[|n| + 1..])
  }

  /** No comma in the value is followed by what reads as a later label. */
  predicate SafeValue(n: string, v: string) {
    var pieces := Split(v, ',');
    forall i :: 1 <= i < |pieces| ==> !StartsLabel(n, pieces[i])
  }

  predicate Safe(l: Labels) { forall i :: 0 <= i < |l| ==> SafeValue(l[i].0, l[i].1) }

  /** Every piece that reads as a later label is one; every other piece belongs to the value before it. */
  function Regroup(cur: (string, string), rest: seq<string>): Labels
    decreases |rest|
  {
    if rest == [] then [cur]
    else if StartsLabel(cur.0, rest[0]) then [cur] + Regroup(LabelOf(rest[0]), rest[1..])
    else Regroup((cur.0, cur.1 + [','] + rest[0]), rest[1..])
  }

  function Parse(key: string): Labels {
    var pieces := Split(key, ',');
    if '=' in pieces[0] then Regroup(LabelOf(pieces[0]), pieces[1..]) else []
  }

  lemma SameUpTo(a: string, x: string, b: string, y: string, sep: char)
    requires sep !in a && sep !in b && a + [sep] + x == b + [sep] + y
    ensures a == b && x == y
  {
    var s := a + [sep] + x;
    assert s[|a|] == sep && (b + [sep] + y)[|b|] == sep;
    assert forall i :: 0 <= i < |a| ==> s[i] == a[i] && a[i] in a;
    assert forall i :: 0 <= i < |b| ==> (b + [sep] + y)[i] == b[i] && b[i] in b;
    assert |a| == |b|;
    assert a == s[..|a|] && x == s[|a| + 1..];
    assert b == (b + [sep] + y)[..|b|] && y == (b + [sep] + y)[|b| + 1..];
  }

  lemma NameOfPiece(n: string, x: string)
    requires '=' !in n
    ensures NameOf(n + ['='] + x) == n && '=' in n + ['='] + x && LabelOf(n + ['='] + x) == (n, x)
  {
    var s := n + ['='] + x;
    assert s[|n|] == '=';
    var m := NameOf(s);
    assert s == m + ['='] + s[|m| + 1..];
    SameUpTo(n, x, m, s[|m| + 1..], '=');
  }

  lemma {:induction false} SplitConcat(a: string, b: string, sep: char)
    ensures Split(a + [sep] + b, sep) == Split(a, sep) + Split(b, sep)
  {
    if a == [] {
      assert a + [sep] + b == [sep] + b;
      assert ([sep] + b)[1..] == b;
    } else {
      assert (a + [sep] + b)[1..] == a[1..] + [sep] + b;
      SplitConcat(a[1..], b, sep);
    }
  }

  lemma {:induction false} SplitPrefix(a: string, b: string, sep: char)
    requires sep !in a
    ensures Split(a + b, sep) == [a + Split(b, sep)[0]] + Split(b, sep)[1..]
  {
    if a == [] {
      assert a + b == b;
      assert [] + Split(b, sep)[0] == Split(b, sep)[0];
    } else {
      assert (a + b)[1..] == a[1..] + b;
      SplitPrefix(a[1..], b, sep);
      assert [a[0]] + (a[1..] + Split(b, sep)[0]) == a + Split(b, sep)[0];
    }
  }

  /** The pieces between commas of a serialised label list, label by label. */
  function AllParts(l: Labels): seq<string> {
    if l == [] then [] else Split(Piece(l[0]), ',') + AllParts(l[1..])
  }

  lemma {:induction false} KeySplits(l: Labels)
    requires l != []
    ensures Split(Join(PiecesOf(l), ','), ',') == AllParts(l)
  {
    if |l| == 1 {
      assert l[1..] == [];
      assert AllParts(l) == Split(Piece(l[0]), ',');
    } else {
      assert PiecesOf(l)[1..] == PiecesOf(l[1..]);
      SplitConcat(Piece(l[0]), Join(PiecesOf(l[1..]), ','), ',');
      KeySplits(l[1..]);
    }
  }

  /** The parts of one label: its name with the first piece of its value, then the other pieces. */
  lemma PartsOfLabel(p: (string, string))
    requires '=' !in p.0 && ',' !in p.0
    ensures var parts, v := Split(Piece(p), ','), Split(p.1, ',');
            '=' in parts[0] && NameOf(parts[0]) == p.0 && LabelOf(parts[0]) == (p.0, v[0]) && parts[1..] == v[1..]
  {
    SplitPrefix(p.0 + ['='], p.1, ',');
    NameOfPiece(p.0, Split(p.1, ',')[0]);
  }

  lemma JoinMerge(x: string, y: string, rest: seq<string>)
    ensures Join([x + [','] + y] + rest, ',') == Join([x] + ([y] + rest), ',')
  {
    assert ([x + [','] + y] + rest)[1..] == rest && ([x] + ([y] + rest))[1..] == [y] + rest && ([y] + rest)[1..] == rest;
    if rest != [] {
      assert x + [','] + y + [','] + Join(rest, ',') == x + [','] + (y + [','] + Join(rest, ','));
    }
  }

  /** Pieces that start no label join the value before them. */
  lemma {:induction false} RegroupTakesIn(n: string, x: string, vs: seq<string>, rest: seq<string>)
    requires forall i :: 0 <= i < |vs| ==> !StartsLabel(n, vs[i])
    ensures Regroup((n, x), vs + rest) == Regroup((n, Join([x] + vs, ',')), rest)
    decreases |vs|
  {
    if vs == [] {
      assert vs + rest == rest && [x] + vs == [x];
    } else {
      assert (vs + rest)[1..] == vs[1..] + rest && (vs + rest)[0] == vs[0];
      RegroupTakesIn(n, x + [','] + vs[0], vs[1..], rest);
      JoinMerge(x, vs[0], vs[1..]);
      assert [vs[0]] + vs[1..] == vs;
    }
  }

  /** The parts of a safe label make up that label again, whatever follows. */
  lemma LabelReadsBack(p: (string, string), more: seq<string>)
    requires '=' !in p.0 && ',' !in p.0 && SafeValue(p.0, p.1)
    ensures var own := Split(Piece(p), ',');
            '=' in own[0] && NameOf(own[0]) == p.0 && Regroup(LabelOf(own[0]), own[1..] + more) == Regroup(p, more)
  {
    var v := Split(p.1, ',');
    PartsOfLabel(p);
    RegroupTakesIn(p.0, v[0], v[1..], more);
    JoinOfSplit(p.1, ',');
    assert [v[0]] + v[1..] == v;
  }

  lemma RegroupStarts(p: (string, string), more: seq<string>)
    requires more != [] && StartsLabel(p.0, more[0])
    ensures Regroup(p, more) == [p] + Regroup(LabelOf(more[0]), more[1..])
  {
  }

  lemma HeadAndTail<T>(a: seq<T>, b: seq<T>)
    requires a != []
    ensures (a + b)[0] == a[0] && (a + b)[1..] == a[1..] + b
  {
  }

  /** A safe label set is read back from its parts. */
  lemma {:induction false} SafeReadsBack(l: Labels)
    requires l != [] && Sorted(l) && CleanNames(l) && Safe(l)
    ensures var parts := AllParts(l);
            |parts| > 0 && '=' in parts[0] && NameOf(parts[0]) == l[0].0 && Regroup(LabelOf(parts[0]), parts[1..]) == l
  {
    var p, rest := l[0], l[1..];
    LabelReadsBack(p, AllParts(rest));
    HeadAndTail(Split(Piece(p), ','), AllParts(rest));
    if rest == [] {
      assert l == [p];
    } else {
      SafeReadsBack(rest);
      assert Less(p.0, rest[0].0);
      RegroupStarts(p, AllParts(rest));
    }
  }

  /** Whatever pieces there are, grouping them gives a sorted, safe label set that is serialised as they are. */
  lemma {:induction false} RegroupIsSafe(cur: (string, string), rest: seq<string>)
    requires '=' !in cur.0 && ',' !in cur.0 && SafeValue(cur.0, cur.1)
    requires forall i :: 0 <= i < |rest| ==> ',' !in rest[i]
    ensures var r := Regroup(cur, rest);
            && r != [] && r[0].0 == cur.0 && Sorted(r) && CleanNames(r) && Safe(r)
            && Join(PiecesOf(r), ',') == Join([Piece(cur)] + rest, ',')
    decreases |rest|
  {
    if rest == [] {
      assert [Piece(cur)] + rest == PiecesOf([cur]);
    } else if StartsLabel(cur.0, rest[0]) {
      LabelOfPieceIsSafe(rest[0]);
      var r := Regroup(LabelOf(rest[0]), rest[1..]);
      RegroupIsSafe(LabelOf(rest[0]), rest[1..]);
      PrependSorted(cur, r);
      assert [rest[0]] + rest[1..] == rest;
      assert PiecesOf([cur] + r) == [Piece(cur)] + PiecesOf(r);
      assert ([Piece(cur)] + rest)[1..] == rest && ([Piece(cur)] + PiecesOf(r))[1..] == PiecesOf(r);
    } else {
      TakingInIsSafe(cur.0, cur.1, rest[0]);
      RegroupIsSafe((cur.0, cur.1 + [','] + rest[0]), rest[1..]);
      assert Piece((cur.0, cur.1 + [','] + rest[0])) == Piece(cur) + [','] + rest[0];
      JoinMerge(Piece(cur), rest[0], rest[1..]);
      assert [rest[0]] + rest[1..] == rest;
    }
  }

  lemma LabelOfPieceIsSafe(piece: string)
    requires '=' in piece && ',' !in piece
    ensures ',' !in LabelOf(piece).0 && SafeValue(LabelOf(piece).0, LabelOf(piece).1)
  {
    var p := LabelOf(piece);
    assert forall c :: c in p.0 || c in p.1 ==> c in Piece(p);
    SplitCons(p.1, [], ',');
  }

  lemma TakingInIsSafe(n: string, v: string, piece: string)
    requires SafeValue(n, v) && ',' !in piece && !StartsLabel(n, piece)
    ensures SafeValue(n, v + [','] + piece)
  {
    SplitConcat(v, piece, ',');
    SplitCons(piece, [], ',');
  }

  lemma PrependSorted(p: (string, string), l: Labels)
    requires Sorted(l) && l != [] && Less(p.0, l[0].0)
    ensures Sorted([p] + l)
  {
    forall j | 0 <= j < |l|
      ensures Less(p.0, l[j].0)
    {
      if j > 0 {
        LessIsTransitive(p.0, l[0].0, l[j].0);
      }
    }
  }

  lemma SortedIsDistinct(l: Labels)
    requires Sorted(l)
    ensures Distinct(l) && Sort(l) == l
  {
    forall i, j | 0 <= i < j < |l|
      ensures l[i].0 != l[j].0
    {
      LessIsIrreflexive(l[i].0);
    }
    SortSorts(l);
    SortedIsUnique(Sort(l), l);
  }

  /** What holds of each label holds of each sorted label. */
  lemma SortKeepsLabels(l: Labels)
    requires CleanNames(l)
    ensures CleanNames(Sort(l)) && (Safe(Sort(l)) <==> Safe(l))
  {
    forall i | 0 <= i < |Sort(l)|
      ensures exists k :: 0 <= k < |l| && l[k] == Sort(l)[i]
    {
      assert Sort(l)[i] in Sort(l);
    }
    forall k | 0 <= k < |l|
      ensures exists i :: 0 <= i < |Sort(l)| && Sort(l)[i] == l[k]
    {
      assert l[k] in Sort(l);
    }
  }

  /** The canonical reading of a key is a safe label set with that key. */
  lemma ParseIsSafe(l: Labels)
    requires Distinct(l) && CleanNames(l)
    ensures var c := Parse(LabelKey(l));
            Sorted(c) && Distinct(c) && CleanNames(c) && Safe(c) && LabelKey(c) == LabelKey(l)
  {
    var sorted, pieces := Sort(l), Split(LabelKey(l), ',');
    SortKeepsLabels(l);
    if l != [] {
      KeySplits(sorted);
      PartsOfLabel(sorted[0]);
      assert pieces[0] == Split(Piece(sorted[0]), ',')[0];
      LabelOfPieceIsSafe(pieces[0]);
      RegroupIsSafe(LabelOf(pieces[0]), pieces[1..]);
      assert [pieces[0]] + pieces[1..] == pieces;
      JoinOfSplit(LabelKey(l), ',');
    }
    SortedIsDistinct(Parse(LabelKey(l)));
  }

  /** A label set is what its key reads as exactly when it is safe. */
  lemma KeyReadsBackIff(l: Labels)
    requires Distinct(l) && CleanNames(l)
    ensures Parse(LabelKey(l)) == Sort(l) <==> Safe(l)
  {
    ParseIsSafe(l);
    SortKeepsLabels(l);
    SortSorts(l);
    if Safe(l) && l != [] {
      KeySplits(Sort(l));
      SafeReadsBack(Sort(l));
    }
  }

  predicate SameSet(a: Labels, b: Labels) { (forall x :: x in a ==> x in b) && (forall x :: x in b ==> x in a) }

  lemma SameSetIffSameSort(a: Labels, b: Labels)
    requires Distinct(a) && Distinct(b)
    ensures SameSet(a, b) <==> Sort(a) == Sort(b)
  {
    SortSorts(a);
    SortSorts(b);
    assert forall x :: (x in a <==> x in Sort(a)) && (x in b <==> x in Sort(b));
    if SameSet(a, b) {
      SortedIsUnique(Sort(a), Sort(b));
    }
  }

  ghost predicate SharedWith(l: Labels, other: Labels) {
    Distinct(other) && CleanNames(other) && Safe(other) && LabelKey(other) == LabelKey(l) && !SameSet(other, l)
  }

  /** A label set shares its key with a different safe one exactly when it is not safe itself: two safe sets
    * never collide, and every unsafe set is mistaken for a safe one. */
  lemma SharesKeyIff(l: Labels)
    requires Distinct(l) && CleanNames(l)
    ensures (exists other :: SharedWith(l, other)) <==> !Safe(l)
  {
    KeyReadsBackIff(l);
    if !Safe(l) {
      ParseIsSafe(l);
      var c := Parse(LabelKey(l));
      SortedIsDistinct(c);
      SameSetIffSameSort(c, l);
      assert SharedWith(l, c);
    }
    if other :| SharedWith(l, other) {
      KeyReadsBackIff(other);
      SameSetIffSameSort(other, l);
    }
  }

  lemma KeyOfTwo(p: (string, string), q: (string, string))
    requires Less(p.0, q.0)
    ensures LabelKey([p, q]) == Piece(p) + [','] + Piece(q)
  {
    var l: Labels := [p, q];
    SortedIsDistinct(l);
    assert l[1..] == [q] && [q][1..] == [];
    assert PiecesOf(l) == [Piece(p), Piece(q)] && [Piece(p), Piece(q)][1..] == [Piece(q)];
    assert Join([Piece(q)], ',') == Piece(q);
  }

  lemma KeyOfThree(p: (string, string), q: (string, string), r: (string, string))
    requires Less(p.0, q.0) && Less(q.0, r.0)
    ensures LabelKey([p, q, r]) == Piece(p) + [','] + (Piece(q) + [','] + Piece(r))
  {
    var l: Labels := [p, q, r];
    LessIsTransitive(p.0, q.0, r.0);
    SortedIsDistinct(l);
    KeyOfTwo(q, r);
    SortedIsDistinct([q, r]);
    assert l[1..] == [q, r];
    assert PiecesOf(l)[1..] == PiecesOf([q, r]);
  }

  /** `value` followed by what reads as two more labels. */
  function Followed(value: string, p: (string, string), q: (string, string)): string {
    value + [','] + (Piece(p) + [','] + Piece(q))
  }

  lemma FollowedIsSafe(n: string, value: string, p: (string, string), q: (string, string))
    requires '=' !in p.0 && '=' !in q.0 && ',' !in Piece(p) && ',' !in Piece(q) && ',' !in value
    requires !Less(n, p.0) && !Less(n, q.0)
    ensures SafeValue(n, Followed(value, p, q))
  {
    SplitCons(value, Piece(p) + [','] + Piece(q), ',');
    SplitCons(Piece(p), Piece(q), ',');
    SplitCons(Piece(q), [], ',');
    NameOfPiece(p.0, p.1);
    NameOfPiece(q.0, q.1);
    assert Split(Followed(value, p, q), ',') == [value, Piece(p), Piece(q)];
  }

  lemma FollowedByOne(n: string, value: string, p: (string, string))
    requires '=' !in p.0 && ',' !in Piece(p) && ',' !in value && Less(n, p.0)
    ensures !SafeValue(n, value + [','] + Piece(p))
  {
    SplitCons(value, Piece(p), ',');
    SplitCons(Piece(p), [], ',');
    NameOfPiece(p.0, p.1);
    assert StartsLabel(n, Split(value + [','] + Piece(p), ',')[1]);
  }

  lemma SameThreePieces(a: (string, string), b: (string, string), c: (string, string), z: (string, string))
    requires Less(a.0, b.0) && Less(b.0, c.0) && Less(a.0, z.0)
    ensures LabelKey([a, (z.0, Followed(z.1, b, c))]) == LabelKey([(a.0, a.1 + [','] + Piece(z)), b, c])
  {
    KeyOfTwo(a, (z.0, Followed(z.1, b, c)));
    KeyOfThree((a.0, a.1 + [','] + Piece(z)), b, c);
    assert Piece((z.0, Followed(z.1, b, c))) == Piece(z) + [','] + (Piece(b) + [','] + Piece(c));
    assert Piece((a.0, a.1 + [','] + Piece(z))) == Piece(a) + [','] + Piece(z);
  }

  /** Free of both delimiters. */
  predicate Plain(p: (string, string)) { '=' !in p.0 && ',' !in p.0 && ',' !in p.1 }

  /** The name of the next label is no bound: with `z` after `b` and `c`, no value of either set reads as a
    * label between its own and the next, yet the two share a key, and the set of more labels is the unsafe one. */
  lemma BeyondTheNextLabel(a: (string, string), b: (string, string), c: (string, string), z: (string, string))
    requires Plain(a) && Plain(b) && Plain(c) && Plain(z) && Less(a.0, b.0) && Less(b.0, c.0) && Less(c.0, z.0)
    ensures var fewer: Labels := [a, (z.0, Followed(z.1, b, c))];
            var more: Labels := [(a.0, a.1 + [','] + Piece(z)), b, c];
            LabelKey(fewer) == LabelKey(more) && Safe(fewer) && !Safe(more)
  {
    LessIsTransitive(b.0, c.0, z.0);
    LessIsTransitive(a.0, b.0, z.0);
    LessIsTotal(b.0, z.0);
    LessIsTotal(c.0, z.0);
    SameThreePieces(a, b, c, z);
    SplitCons(a.1, [], ',');
    FollowedIsSafe(z.0, z.1, b, c);
    FollowedByOne(a.0, a.1, z);
    var more: Labels := [(a.0, a.1 + [','] + Piece(z)), b, c];
    assert !SafeValue(more[0].0, more[0].1);
  }

  lemma IndexKeyIdentifies(n: string, a: Labels, m: string, b: Labels)
    requires CleanName(n) && CleanName(m) && Distinct(a) && Distinct(b)
    requires CleanNames(a) && CleanNames(b) && Safe(a) && Safe(b)
    ensures IndexKey(n, a) == IndexKey(m, b) <==> n == m && SameSet(a, b)
  {
    if IndexKey(n, a) == IndexKey(m, b) {
      assert IndexKey(n, a) == n + ['{'] + (LabelKey(a) + ['}']);
      assert IndexKey(m, b) == m + ['{'] + (LabelKey(b) + ['}']);
      SameUpTo(n, LabelKey(a) + ['}'], m, LabelKey(b) + ['}'], '{');
      assert LabelKey(a) == (LabelKey(a) + ['}'])[..|LabelKey(a)|];
      assert LabelKey(b) == (LabelKey(b) + ['}'])[..|LabelKey(b)|];
      KeyReadsBackIff(a);
      KeyReadsBackIff(b);
      SameSetIffSameSort(a, b);
    }
    if n == m && SameSet(a, b) {
      OrderIsIrrelevant(a, b);
    }
  }

  // ---------------------------------------------------------------- the registry

  datatype Number = Finite(x: real) | NonFinite

  datatype Family = Family(labels: set<string>, minorUnits: bool)

  datatype Catalogue = Catalogue(
    byName: map<string, Family>, prohibited: set<string>, perFamily: map<(string, string), set<string>>,
    general: map<string, set<string>>)

  datatype Sample = Sample(name: string, labels: Labels, value: Number)

  datatype Code =
    | NotCatalogued | NotRegistered | ProhibitedLabel | UndeclaredLabel | UnboundedLabelValue | NonFiniteValue
    | FloatCost | ImplicitCurrency

  /** The bound declared for the family wins over the general one. */
  function Bound(c: Catalogue, name: string, tag: string): Option<set<string>> {
    if (name, tag) in c.perFamily then Some(c.perFamily[(name, tag)])
    else if tag in c.general then Some(c.general[tag]) else None
  }

  function LabelRefusal(c: Catalogue, name: string, f: Family, p: (string, string)): Option<Code> {
    if p.0 in c.prohibited then Some(ProhibitedLabel)
    else if p.0 !in f.labels then Some(UndeclaredLabel)
    else if Bound(c, name, p.0).Some? && p.1 !in Bound(c, name, p.0).value then Some(UnboundedLabelValue)
    else None
  }

  function FirstLabelRefusal(c: Catalogue, name: string, f: Family, l: Labels, n: nat): Option<Code>
    requires n <= |l|
  {
    if n == 0 then None
    else
      match FirstLabelRefusal(c, name, f, l, n - 1)
      case Some(code) => Some(code)
      case None => LabelRefusal(c, name, f, l[n - 1])
  }

  predicate HasCurrency(l: Labels) { exists i :: 0 <= i < |l| && l[i].0 == "currency" && Trim(l[i].1) != [] }

  function ValueRefusal(f: Family, l: Labels, v: Number): Option<Code> {
    if v.NonFinite? then Some(NonFiniteValue)
    else if f.minorUnits && v.x.Floor as real != v.x then Some(FloatCost)
    else if f.minorUnits && !HasCurrency(l) then Some(ImplicitCurrency)
    else None
  }

  /** Why a sample is refused, if it is. */
  function Refusal(c: Catalogue, registered: set<string>, s: Sample): Option<Code> {
    if s.name !in c.byName then Some(NotCatalogued)
    else if s.name !in registered then Some(NotRegistered)
    else
      match FirstLabelRefusal(c, s.name, c.byName[s.name], s.labels, |s.labels|)
      case Some(code) => Some(code)
      case None => ValueRefusal(c.byName[s.name], s.labels, s.value)
  }

  class Registry {
    const catalogue: Catalogue
    var registered: set<string>
    var values: map<string, Number>
    var samples: seq<Sample>

    constructor (c: Catalogue)
      ensures catalogue == c && registered == {} && values == map[] && samples == []
    {
      catalogue := c;
      registered, values, samples := {}, map[], [];
    }

    method Register(name: string) returns (ok: bool)
      modifies this`registered
      ensures ok <==> name in catalogue.byName
      ensures registered == old(registered) + if ok then {name} else {}
    {
      ok := name in catalogue.byName;
      if ok {
        registered := registered + {name};
      }
    }

    /** A refused sample changes neither the log nor the index. */
    method Record(s: Sample) returns (refused: Option<Code>)
      modifies this`values, this`samples
      ensures refused == Refusal(catalogue, registered, s)
      ensures refused.Some? ==> values == old(values) && samples == old(samples)
      ensures refused.None? ==> samples == old(samples) + [s] && values == old(values)[IndexKey(s.name, s.labels) := s.value]
    {
      if s.name !in catalogue.byName { return Some(NotCatalogued); }
      if s.name !in registered { return Some(NotRegistered); }
      var family := catalogue.byName[s.name];
      for i := 0 to |s.labels|
        invariant FirstLabelRefusal(catalogue, s.name, family, s.labels, i).None?
        invariant values == old(values) && samples == old(samples)
      {
        var code := LabelRefusal(catalogue, s.name, family, s.labels[i]);
        if code.Some? {
          LabelRefusalStays(catalogue, s.name, family, s.labels, i + 1, code.value);
          return code;
        }
      }
      refused := ValueRefusal(family, s.labels, s.value);
      if refused.None? {
        samples := samples + [s];
        values := values[IndexKey(s.name, s.labels) := s.value];
      }
    }

    method Value(name: string, labels: Labels) returns (v: Option<Number>)
      ensures v == Lookup(values, IndexKey(name, labels))
    {
      var k := IndexKey(name, labels);
      return if k in values then Some(values[k]) else None;
    }
  }

  lemma {:induction false} LabelRefusalStays(c: Catalogue, name: string, f: Family, l: Labels, n: nat, code: Code)
    requires n <= |l| && FirstLabelRefusal(c, name, f, l, n) == Some(code)
    ensures FirstLabelRefusal(c, name, f, l, |l|) == Some(code)
    decreases |l| - n
  {
    if n < |l| {
      LabelRefusalStays(c, name, f, l, n + 1, code);
    }
  }

  function Lookup(m: map<string, Number>, k: string): Option<Number> {
    if k in m then Some(m[k]) else None
  }

  // ---------------------------------------------------------------- runs

  datatype State = State(registered: set<string>, values: map<string, Number>, samples: seq<Sample>)

  datatype Call = Registers(name: string) | Records(sample: Sample)

  function Step(c: Catalogue, s: State, call: Call): State {
    match call
    case Registers(n) => if n in c.byName then s.(registered := s.registered + {n}) else s
    case Records(x) =>
      if Refusal(c, s.registered, x).Some? then s
      else State(s.registered, s.values[IndexKey(x.name, x.labels) := x.value], s.samples + [x])
  }

  function After(c: Catalogue, calls: seq<Call>): State {
    if calls == [] then State({}, map[], []) else Step(c, After(c, calls[..|calls| - 1]), calls[|calls| - 1])
  }

  predicate SameSeries(s: Sample, name: string, labels: Labels) {
    s.name == name && SameSet(s.labels, labels)
  }

  /** The value of the latest sample with this name and label set, whatever the order of its labels. */
  function Latest(samples: seq<Sample>, name: string, labels: Labels): Option<Number> {
    if samples == [] then None
    else
      var last := samples[|samples| - 1];
      if SameSeries(last, name, labels) then Some(last.value) else Latest(samples[..|samples| - 1], name, labels)
  }

  predicate CleanSeries(name: string, labels: Labels) {
    CleanName(name) && Distinct(labels) && CleanNames(labels) && Safe(labels)
  }

  ghost predicate CleanCalls(calls: seq<Call>) {
    forall i :: 0 <= i < |calls| && calls[i].Records? ==> CleanSeries(calls[i].sample.name, calls[i].sample.labels)
  }

  lemma OneMoreSample(values: map<string, Number>, samples: seq<Sample>, x: Sample, name: string, labels: Labels)
    requires CleanSeries(x.name, x.labels) && CleanSeries(name, labels)
    requires Lookup(values, IndexKey(name, labels)) == Latest(samples, name, labels)
    ensures Lookup(values[IndexKey(x.name, x.labels) := x.value], IndexKey(name, labels)) ==
            Latest(samples + [x], name, labels)
  {
    IndexKeyIdentifies(x.name, x.labels, name, labels);
    assert (samples + [x])[..|samples|] == samples;
  }

  /** While every label set is safe, looking a series up in the index is finding its latest sample in the log. */
  lemma {:induction false} IndexIsLatest(c: Catalogue, calls: seq<Call>, name: string, labels: Labels)
    requires CleanCalls(calls) && CleanSeries(name, labels)
    ensures Lookup(After(c, calls).values, IndexKey(name, labels)) == Latest(After(c, calls).samples, name, labels)
  {
    if calls != [] {
      var m := |calls| - 1;
      IndexIsLatest(c, calls[..m], name, labels);
      var s := After(c, calls[..m]);
      if calls[m].Records? && Refusal(c, s.registered, calls[m].sample).None? {
        OneMoreSample(s.values, s.samples, calls[m].sample, name, labels);
      }
    }
  }

  /** A catalogue of one family that declares the given labels and bounds no value. */
  function OneFamily(name: string, tags: set<string>): Catalogue {
    Catalogue(map[name := Family(tags, false)], {}, map[], map[])
  }

  function Tags(l: Labels): (tags: set<string>)
    ensures forall i :: 0 <= i < |l| ==> l[i].0 in tags
  {
    if l == [] then {} else {l[0].0} + Tags(l[1..])
  }

  lemma {:induction false} DeclaredIsAccepted(name: string, tags: set<string>, l: Labels, n: nat)
    requires n <= |l| && Tags(l) <= tags
    ensures FirstLabelRefusal(OneFamily(name, tags), name, Family(tags, false), l, n).None?
  {
    if n > 0 {
      DeclaredIsAccepted(name, tags, l, n - 1);
    }
  }

  /** One sample of `l`, then one of the safe set its key reads as. */
  function Misreading(name: string, l: Labels): seq<Call> {
    [Registers(name), Records(Sample(name, l, Finite(1.0))), Records(Sample(name, Parse(LabelKey(l)), Finite(2.0)))]
  }

  lemma MisreadingRuns(c: Catalogue, name: string, l: Labels, other: Labels)
    requires Refusal(c, {name}, Sample(name, l, Finite(1.0))).None?
    requires Refusal(c, {name}, Sample(name, other, Finite(2.0))).None?
    requires IndexKey(name, other) == IndexKey(name, l) && other == Parse(LabelKey(l))
    ensures After(c, Misreading(name, l)) == State({name}, map[IndexKey(name, l) := Finite(2.0)],
                                                   [Sample(name, l, Finite(1.0)), Sample(name, other, Finite(2.0))])
  {
    var calls := Misreading(name, l);
    assert calls[..2][..1] == calls[..1] && calls[..1][..0] == [];
    assert After(c, calls[..1]) == State({name}, map[], []);
    assert After(c, calls[..2]) == State({name}, map[IndexKey(name, l) := Finite(1.0)], [calls[1].sample]);
  }

  lemma LatestOfTwo(one: Sample, two: Sample, name: string, l: Labels)
    requires SameSeries(one, name, l) && !SameSeries(two, name, l)
    ensures Latest([one, two], name, l) == Some(one.value)
  {
    assert [one, two][..1] == [one];
  }

  /** Safety is needed: for every label set that is not safe there is a run of three accepted calls, whose only
    * other series is safe, after which its value is that of the other series. */
  lemma UnsafeIsMisread(name: string, l: Labels)
    requires CleanName(name) && Distinct(l) && CleanNames(l) && !Safe(l)
    ensures var other := Parse(LabelKey(l));
            var end := After(OneFamily(name, Tags(l) + Tags(other)), Misreading(name, l));
            && CleanSeries(name, other) && !SameSet(other, l) && |end.samples| == 2
            && Lookup(end.values, IndexKey(name, l)) == Some(Finite(2.0))
            && Latest(end.samples, name, l) == Some(Finite(1.0))
  {
    var other := Parse(LabelKey(l));
    var tags := Tags(l) + Tags(other);
    ParseIsSafe(l);
    KeyReadsBackIff(l);
    SortedIsDistinct(other);
    SameSetIffSameSort(other, l);
    DeclaredIsAccepted(name, tags, l, |l|);
    DeclaredIsAccepted(name, tags, other, |other|);
    MisreadingRuns(OneFamily(name, tags), name, l, other);
    LatestOfTwo(Sample(name, l, Finite(1.0)), Sample(name, other, Finite(2.0)), name, l);
  }

  // ---------------------------------------------------------------- exposition

  function Replace(s: string, c: char, with: string): string {
    if s == [] then [] else (if s[0] == c then with else [s[0]]) + Replace(s[1..], c, with)
  }

  /** Three replacements, one after the other. */
  function EscapeLabelValue(v: string): string {
    Replace(Replace(Replace(v, '\\', "\\\\"), '"', "\\\""), '\n', "\\n")
  }

  function EscapeChar(c: char): string {
    if c == '\\' then "\\\\" else if c == '"' then "\\\"" else if c == '\n' then "\\n" else [c]
  }

  function EscapeEach(v: string): string {
    if v == [] then [] else EscapeChar(v[0]) + EscapeEach(v[1..])
  }

  lemma {:induction false} ReplaceConcat(a: string, b: string, c: char, with: string)
    ensures Replace(a + b, c, with) == Replace(a, c, with) + Replace(b, c, with)
  {
    if a == [] {
      assert a + b == b;
    } else {
      assert (a + b)[1..] == a[1..] + b;
      ReplaceConcat(a[1..], b, c, with);
    }
  }

  lemma ReplaceOne(x: char, c: char, with: string)
    ensures Replace([x], c, with) == if x == c then with else [x]
  {
    assert [x][1..] == [];
  }

  lemma ReplaceTwo(x: char, y: char, c: char, with: string)
    ensures Replace([x, y], c, with) == (if x == c then with else [x]) + (if y == c then with else [y])
  {
    assert [x, y][1..] == [y];
    ReplaceOne(y, c, with);
  }

  lemma EscapeOne(c: char)
    ensures EscapeLabelValue([c]) == EscapeChar(c)
  {
    ReplaceOne(c, '\\', "\\\\");
    ReplaceOne(c, '"', "\\\"");
    ReplaceOne(c, '\n', "\\n");
    ReplaceTwo('\\', '\\', '"', "\\\"");
    ReplaceTwo('\\', '\\', '\n', "\\n");
    ReplaceTwo('\\', '"', '\n', "\\n");
  }

  /** The later replacements never disturb what an earlier one wrote. */
  lemma {:induction false} EscapeIsEach(v: string)
    ensures EscapeLabelValue(v) == EscapeEach(v)
  {
    if v != [] {
      assert v == [v[0]] + v[1..];
      ReplaceConcat([v[0]], v[1..], '\\', "\\\\");
      var a, b := Replace([v[0]], '\\', "\\\\"), Replace(v[1..], '\\', "\\\\");
      ReplaceConcat(a, b, '"', "\\\"");
      ReplaceConcat(Replace(a, '"', "\\\""), Replace(b, '"', "\\\""), '\n', "\\n");
      EscapeOne(v[0]);
      EscapeIsEach(v[1..]);
    }
  }

  function Unescape(s: string): string {
    if s == [] then []
    else if s[0] == '\\' && |s| > 1 then [if s[1] == 'n' then '\n' else s[1]] + Unescape(s[2..])
    else [s[0]] + Unescape(s[1..])
  }

  lemma UnescapeChar(c: char, rest: string)
    ensures Unescape(EscapeChar(c) + rest) == [c] + Unescape(rest)
  {
    var s := EscapeChar(c) + rest;
    if |EscapeChar(c)| == 2 {
      assert s[2..] == rest;
    } else {
      assert s[1..] == rest;
    }
  }

  /** An exposed label value never contains a bare quote or a newline, and can be read back. */
  lemma {:induction false} EscapedValueReadsBack(v: string)
    ensures Unescape(EscapeLabelValue(v)) == v
    ensures '\n' !in EscapeLabelValue(v)
    ensures forall i :: 0 <= i < |EscapeLabelValue(v)| && EscapeLabelValue(v)[i] == '"' ==>
              i > 0 && EscapeLabelValue(v)[i - 1] == '\\'
  {
    EscapeIsEach(v);
    EachReadsBack(v);
  }

  lemma {:induction false} EachReadsBack(v: string)
    ensures Unescape(EscapeEach(v)) == v
    ensures '\n' !in EscapeEach(v)
    ensures forall i :: 0 <= i < |EscapeEach(v)| && EscapeEach(v)[i] == '"' ==> i > 0 && EscapeEach(v)[i - 1] == '\\'
  {
    if v != [] {
      EachReadsBack(v[1..]);
      UnescapeChar(v[0], EscapeEach(v[1..]));
      var s, head, tail := EscapeEach(v), EscapeChar(v[0]), EscapeEach(v[1..]);
      assert s == head + tail;
      forall i | 0 <= i < |s| && s[i] == '"'
        ensures i > 0 && s[i - 1] == '\\'
      {
        if i >= |head| {
          assert tail[i - |head|] == '"';
        }
      }
    }
  }
}
