/** The dependency-graph checks of the two project validators.
  *
  * `Validator` is the depth-first cycle detector of validate-generated-pack.py; `OnePass` is the
  * single forward scan of validate_graphlock_v3.py.  Both are stated over the parsed table rows;
  * the two are shown to accept the same graphs, up to the order in which the rows are written.
  */
module GraphValidator {

  datatype Node = Node(name: string)

  datatype Row = Row(id: Node, deps: seq<Node>)
  datatype Finding = Duplicate(n: Node) | MissingDep(n: Node, d: Node) | Cycle(n: Node)

  type Graph = map<Node, seq<Node>>

  // ---------------------------------------------------------------- graphs

  function Succ(g: Graph, n: Node): seq<Node> {
    if n in g then g[n] else []
  }

  ghost predicate IsPath(g: Graph, p: seq<Node>) {
    forall i :: 0 <= i < |p| - 1 ==> p[i + 1] in Succ(g, p[i])
  }

  ghost predicate IsCycle(g: Graph, p: seq<Node>) {
    |p| >= 2 && p[0] == p[|p| - 1] && IsPath(g, p)
  }

  /** Some directed cycle exists. */
  ghost predicate Cyclic(g: Graph) {
    exists p :: IsCycle(g, p)
  }

  /** `n` lies on a directed cycle. */
  ghost predicate OnCycle(g: Graph, n: Node) {
    exists p :: IsCycle(g, p) && p[0] == n
  }

  /** Every element's successors stand before it. */
  ghost predicate Topological(g: Graph, order: seq<Node>) {
    order == []
    || (Topological(g, order[..|order| - 1]) && AllIn(Succ(g, order[|order| - 1]), order[..|order| - 1]))
  }

  ghost predicate AllIn(s: seq<Node>, t: seq<Node>) {
    forall d :: d in s ==> d in t
  }

  lemma {:induction false} SuccessorsStandBefore(g: Graph, order: seq<Node>, i: nat, d: Node)
    requires Topological(g, order) && i < |order| && d in Succ(g, order[i])
    ensures d in order[..i]
  {
    if i < |order| - 1 {
      SuccessorsStandBefore(g, order[..|order| - 1], i, d);
      assert order[..|order| - 1][..i] == order[..i];
    }
  }

  ghost predicate NoRepeats<T>(s: seq<T>) {
    forall i, j :: 0 <= i < j < |s| ==> s[i] != s[j]
  }

  /** In a topological order, walking a path only moves to earlier positions. */
  lemma {:induction false} PathDescends(g: Graph, order: seq<Node>, p: seq<Node>, k: nat, i: nat)
    requires Topological(g, order) && NoRepeats(order) && IsPath(g, p)
    requires k < |p| && i < |order| && p[0] == order[i]
    ensures p[k] in order[..i + 1]
    ensures k > 0 ==> p[k] in order[..i]
    decreases k
  {
    if k > 0 {
      PathDescends(g, order, p, k - 1, i);
      var j :| 0 <= j < i + 1 && order[j] == p[k - 1];
      assert p[k - 1 + 1] in Succ(g, p[k - 1]);
      SuccessorsStandBefore(g, order, j, p[k]);
      assert order[..j] <= order[..i];
    }
  }

  /** A graph whose nodes can all be listed dependencies-first has no cycle. */
  lemma TopologicalIsAcyclic(g: Graph, order: seq<Node>)
    requires Topological(g, order) && NoRepeats(order)
    requires forall n :: n in g ==> n in order
    ensures !Cyclic(g)
  {
    forall p | IsCycle(g, p)
      ensures false
    {
      assert p[0 + 1] in Succ(g, p[0]);
      assert p[0] in g;
      var i :| 0 <= i < |order| && order[i] == p[0];
      PathDescends(g, order, p, |p| - 1, i);
    }
  }

  // ---------------------------------------------------------------- the table as a dictionary

  /** Python dictionary assignment: the first occurrence fixes the position, the last the value. */
  function Order(rows: seq<Row>): seq<Node> {
    if rows == [] then [] else
      var init, last := rows[..|rows| - 1], rows[|rows| - 1];
      if last.id in Table(init) then Order(init) else Order(init) + [last.id]
  }

  function Table(rows: seq<Row>): Graph {
    if rows == [] then map[] else Table(rows[..|rows| - 1])[rows[|rows| - 1].id := rows[|rows| - 1].deps]
  }

  ghost predicate HasId(rows: seq<Row>, n: Node) {
    exists i :: 0 <= i < |rows| && rows[i].id == n
  }

  lemma HasIdAppend(init: seq<Row>, last: Row, n: Node)
    ensures HasId(init + [last], n) <==> HasId(init, n) || last.id == n
  {
    var rows := init + [last];
    assert rows[|init|] == last;
    assert forall i :: 0 <= i < |init| ==> rows[i] == init[i];
  }

  /** The dictionary has an entry for every id, and its keys in order are the ids without repeats. */
  lemma {:induction false} TableKeys(rows: seq<Row>)
    ensures forall n :: n in Table(rows) <==> HasId(rows, n)
    ensures forall n :: n in Order(rows) <==> n in Table(rows)
    ensures NoRepeats(Order(rows))
  {
    if rows != [] {
      var init, last := rows[..|rows| - 1], rows[|rows| - 1];
      TableKeys(init);
      assert rows == init + [last];
      forall n
        ensures n in Table(rows) <==> HasId(rows, n)
      {
        HasIdAppend(init, last, n);
      }
    }
  }

  ghost predicate DistinctIds(rows: seq<Row>) {
    forall i, j :: 0 <= i < j < |rows| ==> rows[i].id != rows[j].id
  }

  function DuplicateFindings(rows: seq<Row>): seq<Finding> {
    if rows == [] then [] else
      var init, last := rows[..|rows| - 1], rows[|rows| - 1];
      DuplicateFindings(init) + if last.id in Table(init) then [Duplicate(last.id)] else []
  }

  lemma DistinctAppend(init: seq<Row>, last: Row)
    ensures DistinctIds(init + [last]) <==> DistinctIds(init) && forall i :: 0 <= i < |init| ==> init[i].id != last.id
  {
    var rows := init + [last];
    assert forall i :: 0 <= i < |init| ==> rows[i] == init[i];
    assert rows[|init|] == last;
  }

  lemma {:induction false} DuplicateFindingsExact(rows: seq<Row>)
    ensures DuplicateFindings(rows) == [] <==> DistinctIds(rows)
  {
    if rows != [] {
      var init, last := rows[..|rows| - 1], rows[|rows| - 1];
      DuplicateFindingsExact(init);
      assert rows == init + [last];
      DistinctAppend(init, last);
      TableKeys(init);
    }
  }

  /** With distinct ids the dictionary is exactly the rows. */
  lemma {:induction false} TableOfDistinct(rows: seq<Row>)
    requires DistinctIds(rows)
    ensures forall i :: 0 <= i < |rows| ==> rows[i].id in Table(rows) && Table(rows)[rows[i].id] == rows[i].deps
  {
    if rows != [] {
      var init := rows[..|rows| - 1];
      assert forall i :: 0 <= i < |init| ==> init[i] == rows[i];
      TableOfDistinct(init);
    }
  }

  function MissingOf(g: Graph, n: Node, ds: seq<Node>): seq<Finding> {
    if ds == [] then [] else
      MissingOf(g, n, ds[..|ds| - 1]) + if ds[|ds| - 1] in g then [] else [MissingDep(n, ds[|ds| - 1])]
  }

  function MissingFindings(g: Graph, order: seq<Node>): seq<Finding> {
    if order == [] then [] else
      var n := order[|order| - 1];
      MissingFindings(g, order[..|order| - 1]) + MissingOf(g, n, Succ(g, n))
  }

  lemma MissingOfNext(g: Graph, n: Node, ds: seq<Node>, j: nat)
    requires j < |ds|
    ensures MissingOf(g, n, ds[..j + 1]) == MissingOf(g, n, ds[..j]) + if ds[j] in g then [] else [MissingDep(n, ds[j])]
  {
    assert ds[..j + 1][..j] == ds[..j];
  }

  lemma MissingFindingsNext(g: Graph, order: seq<Node>, i: nat)
    requires i < |order|
    ensures MissingFindings(g, order[..i + 1]) == MissingFindings(g, order[..i]) + MissingOf(g, order[i], Succ(g, order[i]))
  {
    assert order[..i + 1][..i] == order[..i];
  }

  lemma Regroup<T>(a: seq<T>, b: seq<T>, c: seq<T>)
    ensures (a + b) + c == a + (b + c) && a + [] == a
  {
  }

  ghost predicate AllPresent(g: Graph, ds: seq<Node>) {
    forall d :: d in ds ==> d in g
  }

  ghost predicate RowsPresent(g: Graph, order: seq<Node>) {
    forall n :: n in order ==> AllPresent(g, Succ(g, n))
  }

  /** No dependency names a missing row. */
  ghost predicate NoMissing(g: Graph) {
    forall n :: n in g ==> AllPresent(g, g[n])
  }

  lemma AllPresentAppend(g: Graph, init: seq<Node>, last: Node)
    ensures AllPresent(g, init + [last]) <==> AllPresent(g, init) && last in g
  {
    assert last in init + [last];
    assert forall d :: d in init ==> d in init + [last];
  }

  lemma RowsPresentAppend(g: Graph, init: seq<Node>, last: Node)
    ensures RowsPresent(g, init + [last]) <==> RowsPresent(g, init) && AllPresent(g, Succ(g, last))
  {
    assert last in init + [last];
    assert forall d :: d in init ==> d in init + [last];
  }

  lemma {:induction false} MissingOfExact(g: Graph, n: Node, ds: seq<Node>)
    ensures MissingOf(g, n, ds) == [] <==> AllPresent(g, ds)
  {
    if ds != [] {
      var init, last := ds[..|ds| - 1], ds[|ds| - 1];
      MissingOfExact(g, n, init);
      assert ds == init + [last];
      AllPresentAppend(g, init, last);
    }
  }

  lemma {:induction false} MissingFindingsExact(g: Graph, order: seq<Node>)
    ensures MissingFindings(g, order) == [] <==> RowsPresent(g, order)
  {
    if order != [] {
      var init, last := order[..|order| - 1], order[|order| - 1];
      MissingFindingsExact(g, init);
      MissingOfExact(g, last, Succ(g, last));
      assert order == init + [last];
      RowsPresentAppend(g, init, last);
    }
  }

  // ---------------------------------------------------------------- the depth-first validator

  /** All the nodes a search can touch: table keys and everything named as a dependency. */
  ghost function Universe(g: Graph): set<Node> {
    g.Keys + (set n, d | n in g && d in g[n] :: d)
  }

  /** `after` extends `before` by cycle reports only, each about a node that lies on a cycle. */
  ghost predicate Reports(g: Graph, before: seq<Finding>, after: seq<Finding>) {
    && |before| <= |after| && (forall i :: 0 <= i < |before| ==> after[i] == before[i])
    && (forall i :: |before| <= i < |after| ==> after[i].Cycle? && OnCycle(g, after[i].n))
  }

  lemma ReportCycle(g: Graph, before: seq<Finding>, n: Node)
    requires OnCycle(g, n)
    ensures Reports(g, before, before + [Cycle(n)])
  {
  }

  lemma ReportsTrans(g: Graph, a: seq<Finding>, b: seq<Finding>, c: seq<Finding>)
    requires Reports(g, a, b) && Reports(g, b, c)
    ensures Reports(g, a, c)
  {
  }

  function At(s: seq<Node>, i: nat): Node
    requires i < |s|
  {
    s[i]
  }

  /** `NoRepeats` in terms of `At`, which the search itself never mentions. */
  ghost predicate NeverTwice(s: seq<Node>) {
    forall i, j :: 0 <= i < j < |s| ==> At(s, i) != At(s, j)
  }

  lemma NeverTwiceIsNoRepeats(s: seq<Node>)
    requires NeverTwice(s)
    ensures NoRepeats(s)
  {
    forall i, j | 0 <= i < j < |s|
      ensures s[i] != s[j]
    {
      assert At(s, i) != At(s, j);
    }
  }

  lemma NeverTwiceAppend(s: seq<Node>, n: Node)
    requires NeverTwice(s) && n !in s
    ensures NeverTwice(s + [n])
  {
    forall i, j | 0 <= i < j < |s + [n]|
      ensures At(s + [n], i) != At(s + [n], j)
    {
      if j < |s| {
        assert At(s, i) != At(s, j);
      }
    }
  }

  /** The finished nodes, without repeats, are the visited ones; none of them is still being visited. */
  ghost predicate Fits(nodes: set<Node>, visiting: set<Node>, visited: set<Node>, finished: seq<Node>) {
    && NeverTwice(finished) && (forall n :: n in visited <==> n in finished)
    && visited !! visiting && visited <= nodes
  }

  lemma FinishFits(nodes: set<Node>, visiting: set<Node>, visited: set<Node>, finished: seq<Node>, n: Node)
    requires Fits(nodes, visiting + {n}, visited, finished) && n !in visited && n in nodes
    ensures Fits(nodes, (visiting + {n}) - {n}, visited + {n}, finished + [n])
  {
    NeverTwiceAppend(finished, n);
    forall m
      ensures m in visited + {n} <==> m in finished + [n]
    {
      MemberAppend(finished, n, m);
    }
  }

  lemma MemberAppend<T>(s: seq<T>, x: T, y: T)
    ensures y in s + [x] <==> y in s || y == x
  {
  }

  /** Every node and every named dependency is among `nodes`. */
  ghost predicate Covers(nodes: set<Node>, g: Graph) {
    (forall n :: n in g ==> n in nodes) && (forall n :: n in g ==> forall d :: d in g[n] ==> d in nodes)
  }

  lemma UniverseCovers(g: Graph)
    ensures Covers(Universe(g), g)
  {
  }

  /** Meeting a node of the current path again closes a cycle. */
  lemma BackEdgeIsCycle(deps: map<Node, seq<Node>>, path: seq<Node>, n: Node)
    requires n in path && IsPath(deps, path + [n])
    ensures OnCycle(deps, n)
  {
    var i :| 0 <= i < |path| && path[i] == n;
    var c := path[i..] + [n];
    forall k | 0 <= k < |c| - 1
      ensures c[k + 1] in Succ(deps, c[k])
    {
      assert (path + [n])[i + k + 1] in Succ(deps, (path + [n])[i + k]);
    }
    assert IsCycle(deps, c);
  }

  lemma PathExtends(deps: map<Node, seq<Node>>, path: seq<Node>, n: Node, d: Node)
    requires IsPath(deps, path + [n]) && d in Succ(deps, n)
    ensures IsPath(deps, path + [n] + [d])
  {
    var longer := path + [n] + [d];
    forall k | 0 <= k < |longer| - 1
      ensures longer[k + 1] in Succ(deps, longer[k])
    {
      if k < |path| {
        assert (path + [n])[k + 1] in Succ(deps, (path + [n])[k]);
      }
    }
  }

  /** What a search may still enter. */
  ghost function Remaining(nodes: set<Node>, visiting: set<Node>, visited: set<Node>): set<Node> {
    nodes - visiting - visited
  }

  lemma RemainingShrinks(nodes: set<Node>, visiting: set<Node>, before: set<Node>, after: set<Node>, n: Node)
    requires n in nodes && n !in visiting && n !in before && before <= after
    ensures Remaining(nodes, visiting + {n}, after) < Remaining(nodes, visiting, before)
  {
    assert n in Remaining(nodes, visiting, before) && n !in Remaining(nodes, visiting + {n}, after);
  }

  lemma EnterPath(visiting: set<Node>, path: seq<Node>, n: Node)
    requires forall m :: m in visiting <==> m in path
    ensures forall m :: m in visiting + {n} <==> m in path + [n]
  {
    forall m
      ensures m in path + [n] <==> m in path || m == n
    {
      MemberAppend(path, n, m);
    }
  }

  lemma StartOfPath(deps: map<Node, seq<Node>>, n: Node)
    ensures IsPath(deps, [] + [n])
    ensures n in deps ==> n in Universe(deps)
  {
    assert [] + [n] == [n];
  }

  lemma TopologicalAppend(deps: map<Node, seq<Node>>, order: seq<Node>, n: Node)
    requires Topological(deps, order) && AllIn(Succ(deps, n), order)
    ensures Topological(deps, order + [n])
  {
    assert (order + [n])[..|order|] == order;
  }

  /** The first `j` of them have been visited. */
  ghost predicate AllSeen(ds: seq<Node>, j: nat, visited: set<Node>)
    requires j <= |ds|
  {
    j == 0 || (ds[j - 1] in visited && AllSeen(ds, j - 1, visited))
  }

  lemma {:induction false} AllSeenGrows(ds: seq<Node>, j: nat, before: set<Node>, after: set<Node>)
    requires j <= |ds| && AllSeen(ds, j, before) && before <= after
    ensures AllSeen(ds, j, after)
  {
    if j > 0 {
      AllSeenGrows(ds, j - 1, before, after);
    }
  }

  lemma {:induction false} AllSeenIsAll(ds: seq<Node>, j: nat, visited: set<Node>)
    requires j <= |ds| && AllSeen(ds, j, visited)
    ensures forall k :: 0 <= k < j ==> ds[k] in visited
  {
    if j > 0 {
      AllSeenIsAll(ds, j - 1, visited);
    }
  }

  class Validator {
    var deps: Graph
    var order: seq<Node>
    var visiting: set<Node>
    var visited: set<Node>
    var errors: seq<Finding>
    /** The order in which nodes entered `visited`. */
    ghost var finished: seq<Node>

    constructor ()
      ensures deps == map[] && order == [] && visiting == {} && visited == {} && errors == [] && finished == []
    {
      deps, order, visiting, visited, errors := map[], [], {}, {}, [];
      finished := [];
    }

    /** Read the table into the dictionary, reporting repeated ids. */
    method Load(rows: seq<Row>)
      requires deps == map[] && order == [] && errors == []
      modifies `deps, `order, `errors
      ensures deps == Table(rows) && order == Order(rows)
      ensures errors == DuplicateFindings(rows)
    {
      for i := 0 to |rows|
        invariant deps == Table(rows[..i]) && order == Order(rows[..i])
        invariant errors == DuplicateFindings(rows[..i])
      {
        assert rows[..i + 1][..i] == rows[..i];
        if rows[i].id in deps {
          errors := errors + [Duplicate(rows[i].id)];
        } else {
          order := order + [rows[i].id];
        }
        deps := deps[rows[i].id := rows[i].deps];
      }
      assert rows[..|rows|] == rows;
    }

    /** Report the dependencies of one row that name no row. */
    method CheckRow(n: Node)
      modifies `errors
      ensures errors == old(errors) + MissingOf(deps, n, Succ(deps, n))
    {
      var ds := if n in deps then deps[n] else [];
      assert errors == errors + [];
      for j := 0 to |ds|
        invariant errors == old(errors) + MissingOf(deps, n, ds[..j])
      {
        MissingOfNext(deps, n, ds, j);
        Regroup(old(errors), MissingOf(deps, n, ds[..j]), if ds[j] in deps then [] else [MissingDep(n, ds[j])]);
        if ds[j] !in deps {
          errors := errors + [MissingDep(n, ds[j])];
        }
      }
      assert ds[..|ds|] == ds;
    }

    /** Report dependencies that name no row. */
    method CheckMissing()
      modifies `errors
      ensures errors == old(errors) + MissingFindings(deps, order)
    {
      assert errors == errors + [];
      for i := 0 to |order|
        invariant errors == old(errors) + MissingFindings(deps, order[..i])
      {
        MissingFindingsNext(deps, order, i);
        Regroup(old(errors), MissingFindings(deps, order[..i]), MissingOf(deps, order[i], Succ(deps, order[i])));
        CheckRow(order[i]);
      }
      assert order[..|order|] == order;
    }

    /** One depth-first visit among `nodes`.  `path` is the chain of nodes currently being visited. */
    method Dfs(n: Node, ghost path: seq<Node>, ghost nodes: set<Node>)
      requires Covers(nodes, deps) && Fits(nodes, visiting, visited, finished) && n in nodes
      requires (forall m :: m in visiting <==> m in path) && IsPath(deps, path + [n])
      modifies `visiting, `visited, `errors, `finished
      ensures Fits(nodes, visiting, visited, finished) && visiting == old(visiting) && old(visited) <= visited
      ensures Reports(deps, old(errors), errors)
      ensures |errors| == |old(errors)| ==> n in visited
      ensures |errors| == |old(errors)| && old(Topological(deps, finished)) ==> Topological(deps, finished)
      decreases Remaining(nodes, visiting, visited)
    {
      if n in visiting {
        BackEdgeIsCycle(deps, path, n);
        ReportCycle(deps, errors, n);
        errors := errors + [Cycle(n)];
        return;
      }
      if n in visited {
        return;
      }
      EnterPath(visiting, path, n);
      assert (visiting + {n}) - {n} == visiting;
      visiting := visiting + {n};
      var ds := if n in deps then deps[n] else [];
      ghost var quiet := old(Topological(deps, finished));
      for j := 0 to |ds|
        invariant Fits(nodes, visiting, visited, finished) && n !in visited
        invariant visiting == old(visiting) + {n} && old(visited) <= visited
        invariant Reports(deps, old(errors), errors)
        invariant |errors| == |old(errors)| ==> AllSeen(ds, j, visited)
        invariant |errors| == |old(errors)| && quiet ==> Topological(deps, finished)
      {
        ghost var before, seen := errors, visited;
        PathExtends(deps, path, n, ds[j]);
        RemainingShrinks(nodes, old(visiting), old(visited), visited, n);
        Dfs(ds[j], path + [n], nodes);
        ReportsTrans(deps, old(errors), before, errors);
        if |errors| == |old(errors)| {
          AllSeenGrows(ds, j, seen, visited);
        }
      }
      FinishFits(nodes, old(visiting), visited, finished, n);
      if |errors| == |old(errors)| && quiet {
        AllVisited(ds, visited, finished);
        TopologicalAppend(deps, finished, n);
      }
      visiting := visiting - {n};
      visited := visited + {n};
      finished := finished + [n];
    }

    /** Start a visit from every key of the table. */
    method DetectCycles()
      requires visiting == {} && visited == {} && finished == []
      requires forall n :: n in order ==> n in deps
      modifies `visiting, `visited, `errors, `finished
      ensures Reports(deps, old(errors), errors) && NoRepeats(finished)
      ensures |errors| == |old(errors)| ==> Topological(deps, finished)
      ensures |errors| == |old(errors)| ==> forall n :: n in order ==> n in finished
      ensures forall n :: n in finished ==> n in Universe(deps)
    {
      ghost var nodes := Universe(deps);
      UniverseCovers(deps);
      for i := 0 to |order|
        invariant Fits(nodes, visiting, visited, finished) && visiting == {}
        invariant Reports(deps, old(errors), errors)
        invariant |errors| == |old(errors)| ==> Topological(deps, finished)
        invariant |errors| == |old(errors)| ==> forall k :: 0 <= k < i ==> order[k] in visited
      {
        ghost var before := errors;
        assert order[i] in deps;
        StartOfPath(deps, order[i]);
        Dfs(order[i], [], nodes);
        ReportsTrans(deps, old(errors), before, errors);
      }
      NeverTwiceIsNoRepeats(finished);
    }
  }

  lemma AllVisited(ds: seq<Node>, visited: set<Node>, finished: seq<Node>)
    requires AllSeen(ds, |ds|, visited)
    requires forall n :: n in visited <==> n in finished
    ensures AllIn(ds, finished)
  {
    AllSeenIsAll(ds, |ds|, visited);
  }

  // ---------------------------------------------------------------- the single forward scan

  ghost predicate IdBefore(rows: seq<Row>, i: nat, d: Node)
    requires i <= |rows|
  {
    exists j :: 0 <= j < i && rows[j].id == d
  }

  /** Every dependency names an earlier row. */
  ghost predicate EarlierOnly(rows: seq<Row>) {
    forall i, d :: 0 <= i < |rows| && d in rows[i].deps ==> IdBefore(rows, i, d)
  }

  method OnePass(rows: seq<Row>) returns (errors: seq<(Node, Node)>)
    ensures errors == [] <==> EarlierOnly(rows)
    ensures forall e :: e in errors <==>
              exists i :: 0 <= i < |rows| && rows[i].id == e.0 && e.1 in rows[i].deps && !IdBefore(rows, i, e.1)
  {
    errors := [];
    var seen: set<Node> := {};
    for i := 0 to |rows|
      invariant forall d :: d in seen <==> IdBefore(rows, i, d)
      invariant forall e :: e in errors <==>
                  exists k :: 0 <= k < i && rows[k].id == e.0 && e.1 in rows[k].deps && !IdBefore(rows, k, e.1)
    {
      ghost var before := errors;
      for j := 0 to |rows[i].deps|
        invariant forall e :: e in errors <==>
                    e in before || (e.0 == rows[i].id && e.1 in rows[i].deps[..j] && e.1 !in seen)
      {
        if rows[i].deps[j] !in seen {
          errors := errors + [(rows[i].id, rows[i].deps[j])];
        }
      }
      assert rows[i].deps[..|rows[i].deps|] == rows[i].deps;
      seen := seen + {rows[i].id};
    }
    if errors != [] {
      assert errors[0] in errors;
    }
    if i: int, d :| 0 <= i < |rows| && d in rows[i].deps && !IdBefore(rows, i, d) {
      assert (rows[i].id, d) in errors;
    }
  }

  // ---------------------------------------------------------------- the two checks agree

  lemma CutAt<T>(s: seq<T>, k: nat)
    requires k < |s|
    ensures multiset(s) == multiset(s[..k]) + multiset{s[k]} + multiset(s[k + 1..])
  {
    assert s == s[..k] + [s[k]] + s[k + 1..];
  }

  lemma TwoPlacesFound<T>(s: seq<T>, x: T)
    requires multiset(s)[x] >= 2
    ensures exists i, j :: 0 <= i < j < |s| && s[i] == x && s[j] == x
  {
    assert x in multiset(s);
    var k :| 0 <= k < |s| && s[k] == x;
    CutAt(s, k);
    if x in s[..k] {
      var i :| 0 <= i < k && s[i] == x;
    } else {
      assert x in multiset(s[k + 1..]);
      var j :| 0 <= j < |s[k + 1..]| && s[k + 1..][j] == x;
      assert s[k + 1 + j] == x;
    }
  }

  lemma TwoPlaces<T>(s: seq<T>, x: T)
    ensures multiset(s)[x] >= 2 <==> exists i, j :: 0 <= i < j < |s| && s[i] == x && s[j] == x
  {
    if multiset(s)[x] >= 2 {
      TwoPlacesFound(s, x);
    }
    if i: int, j: int :| 0 <= i < j < |s| && s[i] == x && s[j] == x {
      CutAt(s, i);
      assert s[i + 1..][j - i - 1] == x;
      assert x in multiset(s[i + 1..]);
    }
  }

  lemma SameMembersSamePermutation<T>(s: seq<T>, t: seq<T>)
    requires NoRepeats(s) && NoRepeats(t)
    requires forall x :: x in s <==> x in t
    ensures multiset(s) == multiset(t)
  {
    forall x
      ensures multiset(s)[x] == multiset(t)[x]
    {
      TwoPlaces(s, x);
      TwoPlaces(t, x);
      assert x in multiset(s) <==> x in s;
      assert x in multiset(t) <==> x in t;
    }
  }

  lemma RearrangedIsDistinct(rows: seq<Row>, sorted: seq<Row>)
    requires multiset(rows) == multiset(sorted) && DistinctIds(rows)
    ensures DistinctIds(sorted) && forall r :: r in sorted <==> r in rows
  {
    forall r
      ensures r in sorted <==> r in rows
    {
      assert r in multiset(sorted) <==> r in multiset(rows);
    }
    forall i, j | 0 <= i < j < |sorted|
      ensures sorted[i].id != sorted[j].id
    {
      TwoPlaces(sorted, sorted[i]);
      TwoPlaces(rows, sorted[i]);
      assert sorted[i] in rows && sorted[j] in rows;
    }
  }

  /** Every entry of one dictionary is an entry of the other. */
  lemma EntriesCarryOver(rows: seq<Row>, other: seq<Row>, n: Node)
    requires DistinctIds(rows) && DistinctIds(other) && (forall r :: r in rows ==> r in other)
    ensures n in Table(rows) ==> n in Table(other) && Table(other)[n] == Table(rows)[n]
  {
    TableOfDistinct(rows);
    TableOfDistinct(other);
    TableKeys(rows);
    if n in Table(rows) {
      var i :| 0 <= i < |rows| && rows[i].id == n;
      assert rows[i] in rows && rows[i] in other;
      var j :| 0 <= j < |other| && other[j] == rows[i];
      assert Table(rows)[n] == rows[i].deps && Table(other)[other[j].id] == other[j].deps;
    }
  }

  /** Rearranging rows with distinct ids changes neither their distinctness nor the dictionary. */
  lemma TableOfRearranged(rows: seq<Row>, sorted: seq<Row>)
    requires multiset(rows) == multiset(sorted) && DistinctIds(rows)
    ensures DistinctIds(sorted) && Table(sorted) == Table(rows)
  {
    RearrangedIsDistinct(rows, sorted);
    forall n
      ensures n in Table(sorted) <==> n in Table(rows)
      ensures n in Table(rows) ==> Table(sorted)[n] == Table(rows)[n]
    {
      EntriesCarryOver(rows, sorted, n);
      EntriesCarryOver(sorted, rows, n);
    }
  }

  function IdsOf(rows: seq<Row>): (r: seq<Node>)
    ensures |r| == |rows| && forall i :: 0 <= i < |rows| ==> r[i] == rows[i].id
  {
    seq(|rows|, i requires 0 <= i < |rows| => rows[i].id)
  }

  lemma EarlierIdsAreIn(rows: seq<Row>, n: nat)
    requires EarlierOnly(rows) && n < |rows|
    ensures AllIn(rows[n].deps, IdsOf(rows)[..n])
  {
    var ds, ids := rows[n].deps, IdsOf(rows);
    forall d | d in ds
      ensures d in ids[..n]
    {
      assert IdBefore(rows, n, d);
      var j :| 0 <= j < n && rows[j].id == d;
      assert ids[..n][j] == d;
    }
  }

  /** Up to each row, the ids stand in a topological order. */
  lemma {:induction false} IdsAreTopological(rows: seq<Row>, n: nat)
    requires EarlierOnly(rows) && DistinctIds(rows) && n <= |rows|
    ensures Topological(Table(rows), IdsOf(rows)[..n])
  {
    if n > 0 {
      var ids, g := IdsOf(rows), Table(rows);
      IdsAreTopological(rows, n - 1);
      assert ids[..n][..n - 1] == ids[..n - 1];
      TableOfDistinct(rows);
      assert Succ(g, ids[n - 1]) == rows[n - 1].deps;
      EarlierIdsAreIn(rows, n - 1);
    }
  }

  lemma EarlierOnlyHasNoMissing(rows: seq<Row>)
    requires EarlierOnly(rows) && DistinctIds(rows)
    ensures NoMissing(Table(rows))
  {
    var g := Table(rows);
    TableOfDistinct(rows);
    TableKeys(rows);
    forall n | n in g
      ensures AllPresent(g, g[n])
    {
      var i :| 0 <= i < |rows| && rows[i].id == n;
      forall d | d in rows[i].deps
        ensures d in g
      {
        var j :| 0 <= j < i && rows[j].id == d;
      }
    }
  }

  /** Rows accepted by the forward scan have no missing dependency and no cycle, if ids are distinct. */
  lemma EarlierOnlyIsAcyclic(rows: seq<Row>)
    requires EarlierOnly(rows) && DistinctIds(rows)
    ensures NoMissing(Table(rows)) && !Cyclic(Table(rows))
  {
    var ids := IdsOf(rows);
    EarlierOnlyHasNoMissing(rows);
    IdsAreTopological(rows, |rows|);
    assert ids[..|rows|] == ids;
    IdsAreDistinct(rows);
    TopologicalIsAcyclic(Table(rows), ids);
  }

  lemma IdsAreDistinct(rows: seq<Row>)
    requires DistinctIds(rows)
    ensures NoRepeats(IdsOf(rows)) && forall n :: n in Table(rows) ==> n in IdsOf(rows)
  {
    TableKeys(rows);
    forall n | n in Table(rows)
      ensures n in IdsOf(rows)
    {
      var i :| 0 <= i < |rows| && rows[i].id == n;
      assert IdsOf(rows)[i] == n;
    }
  }

  /** Some rearrangement of the rows has distinct ids and passes the forward scan. */
  ghost predicate Sortable(rows: seq<Row>) {
    DistinctIds(rows) && exists sorted :: multiset(sorted) == multiset(rows) && EarlierOnly(sorted)
  }

  function InOrder(g: Graph, order: seq<Node>): seq<Row>
    requires forall n :: n in order ==> n in g
  {
    seq(|order|, i requires 0 <= i < |order| => Row(order[i], g[order[i]]))
  }

  lemma TopologicalOrderPassesScan(rows: seq<Row>, order: seq<Node>)
    requires DistinctIds(rows)
    requires NoRepeats(order) && (forall n :: n in order <==> n in Table(rows))
    requires Topological(Table(rows), order)
    ensures multiset(InOrder(Table(rows), order)) == multiset(rows) && EarlierOnly(InOrder(Table(rows), order))
  {
    var g := Table(rows);
    var sorted := InOrder(g, order);
    TableOfDistinct(rows);
    TableKeys(rows);
    forall r
      ensures r in sorted <==> r in rows
    {
      if r in rows {
        var i :| 0 <= i < |rows| && rows[i] == r;
        assert r.id in order;
        var k :| 0 <= k < |order| && order[k] == r.id;
        assert sorted[k] == r;
      }
      if r in sorted {
        var k :| 0 <= k < |sorted| && sorted[k] == r;
        assert order[k] in g;
        var i :| 0 <= i < |rows| && rows[i].id == order[k];
        assert rows[i] == r;
      }
    }
    SameMembersSamePermutation(sorted, rows);
    forall i, d | 0 <= i < |sorted| && d in sorted[i].deps
      ensures IdBefore(sorted, i, d)
    {
      SuccessorsStandBefore(g, order, i, d);
      var j :| 0 <= j < |order[..i]| && order[..i][j] == d;
      assert sorted[j].id == d;
    }
  }

  /** What a search without reports says about the table. */
  lemma QuietSearch(rows: seq<Row>, finished: seq<Node>)
    requires NoRepeats(finished) && Topological(Table(rows), finished)
    requires forall n :: n in Order(rows) ==> n in finished
    requires forall n :: n in finished ==> n in Universe(Table(rows))
    ensures !Cyclic(Table(rows))
    ensures DistinctIds(rows) && RowsPresent(Table(rows), Order(rows)) ==> Sortable(rows)
  {
    var g := Table(rows);
    TableKeys(rows);
    TopologicalIsAcyclic(g, finished);
    if DistinctIds(rows) && RowsPresent(g, Order(rows)) {
      forall n
        ensures n in finished <==> n in g
      {
        assert forall m :: m in g ==> m in Order(rows) && AllPresent(g, Succ(g, m));
      }
      TopologicalOrderPassesScan(rows, finished);
    }
  }

  /** What sortable rows say about their table. */
  lemma SortableIsFaultless(rows: seq<Row>)
    requires Sortable(rows)
    ensures DistinctIds(rows) && RowsPresent(Table(rows), Order(rows)) && !Cyclic(Table(rows))
  {
    var sorted :| multiset(sorted) == multiset(rows) && EarlierOnly(sorted);
    TableOfRearranged(rows, sorted);
    EarlierOnlyIsAcyclic(sorted);
    TableKeys(rows);
    forall n | n in Order(rows)
      ensures AllPresent(Table(rows), Succ(Table(rows), n))
    {
      assert n in Table(rows);
    }
  }

  /** The whole graph check of validate-generated-pack.py: duplicate ids, missing dependencies, then cycles.
    * Cycles are reported exactly when there is one, and nothing is reported exactly when the rows can be
    * rearranged so that the forward scan accepts them. */
  method Validate(rows: seq<Row>) returns (errors: seq<Finding>, ghost cycles: seq<Finding>)
    ensures errors == DuplicateFindings(rows) + MissingFindings(Table(rows), Order(rows)) + cycles
    ensures forall i :: 0 <= i < |cycles| ==> cycles[i].Cycle? && OnCycle(Table(rows), cycles[i].n)
    ensures cycles != [] <==> Cyclic(Table(rows))
    ensures errors == [] <==> Sortable(rows)
  {
    var v := new Validator();
    v.Load(rows);
    v.CheckMissing();
    ghost var table := v.errors;
    TableKeys(rows);
    v.DetectCycles();
    errors, cycles := v.errors, v.errors[|table|..];
    ReportsSplit(Table(rows), table, errors);
    FindingsDecide(rows, cycles, v.finished);
  }

  lemma ReportsSplit(g: Graph, before: seq<Finding>, after: seq<Finding>)
    requires Reports(g, before, after)
    ensures var added := after[|before|..];
            after == before + added && forall i :: 0 <= i < |added| ==> added[i].Cycle? && OnCycle(g, added[i].n)
  {
  }

  /** The three kinds of findings together are empty exactly when the rows are sortable. */
  lemma FindingsDecide(rows: seq<Row>, cycles: seq<Finding>, finished: seq<Node>)
    requires forall i :: 0 <= i < |cycles| ==> cycles[i].Cycle? && OnCycle(Table(rows), cycles[i].n)
    requires NoRepeats(finished) && (forall n :: n in finished ==> n in Universe(Table(rows)))
    requires cycles == [] ==> Topological(Table(rows), finished) && forall n :: n in Order(rows) ==> n in finished
    ensures cycles != [] <==> Cyclic(Table(rows))
    ensures DuplicateFindings(rows) + MissingFindings(Table(rows), Order(rows)) + cycles == [] <==> Sortable(rows)
  {
    DuplicateFindingsExact(rows);
    MissingFindingsExact(Table(rows), Order(rows));
    if cycles == [] {
      QuietSearch(rows, finished);
    } else {
      assert OnCycle(Table(rows), cycles[0].n);
    }
    if Sortable(rows) {
      SortableIsFaultless(rows);
    }
  }

  /** What a row's entry in the dictionary is, ids repeated or not: the dependencies of some row of that id. */
  lemma {:induction false} EntryHasRow(rows: seq<Row>, n: Node) returns (i: nat)
    requires n in Table(rows)
    ensures i < |rows| && rows[i].id == n && Table(rows)[n] == rows[i].deps
  {
    var m := |rows| - 1;
    if rows[m].id == n {
      i := m;
    } else {
      i := EntryHasRow(rows[..m], n);
    }
  }

  /** The forward scan leaves no missing dependency, even with repeated ids; what it leaves to the full
    * validation is exactly the ids: a repeated one is the only fault left, and the only way to a cycle. */
  lemma ScanImpliesValidIff(rows: seq<Row>)
    requires EarlierOnly(rows)
    ensures MissingFindings(Table(rows), Order(rows)) == []
    ensures Sortable(rows) <==> DistinctIds(rows)
    ensures Cyclic(Table(rows)) ==> !DistinctIds(rows)
  {
    TableKeys(rows);
    forall n | n in Order(rows)
      ensures AllPresent(Table(rows), Succ(Table(rows), n))
    {
      var i := EntryHasRow(rows, n);
      forall d | d in rows[i].deps
        ensures d in Table(rows)
      {
        var j :| 0 <= j < i && rows[j].id == d;
        assert HasId(rows, d);
      }
    }
    MissingFindingsExact(Table(rows), Order(rows));
    assert multiset(rows) == multiset(rows) && EarlierOnly(rows);
    if DistinctIds(rows) {
      EarlierOnlyIsAcyclic(rows);
    }
  }
}
