/** The stage check of validate_graphlock_v3.py: the forward scan together with the id check that encloses it. */
module StageCheck {
  import opened GraphValidator

  function Digit(n: nat): char { ('0' as int + n % 10) as char }

  /** `V-` and three digits. */
  function Stage(i: nat): Node { Node(['V', '-', Digit(i / 100), Digit(i / 10), Digit(i)]) }

  /** The stages V-000 to V-021. */
  const STAGES: seq<Node> := seq(22, i requires 0 <= i < 22 => Stage(i))

  lemma SameDigit(m: nat, n: nat)
    requires Digit(m) == Digit(n)
    ensures m % 10 == n % 10
  {
  }

  lemma StagesDiffer(i: nat, j: nat)
    requires i < 22 && j < 22 && Stage(i) == Stage(j)
    ensures i == j
  {
    var a, b := Stage(i).name, Stage(j).name;
    assert a[3] == b[3] && a[4] == b[4];
    SameDigit(i / 10, j / 10);
    SameDigit(i, j);
  }

  /** The whole stage check: the ids must be the stages in order, and the scan must be quiet. */
  method CheckStages(rows: seq<Row>) returns (wrongIds: bool, late: seq<(Node, Node)>)
    ensures wrongIds <==> IdsOf(rows) != STAGES
    ensures late == [] <==> EarlierOnly(rows)
    ensures !wrongIds && late == [] ==> Sortable(rows) && NoMissing(Table(rows)) && !Cyclic(Table(rows))
  {
    wrongIds := IdsOf(rows) != STAGES;
    late := OnePass(rows);
    if !wrongIds && late == [] {
      StagesAreSound(rows);
    }
  }

  /** Stages the enclosing check and the scan both accept have distinct ids, no missing dependency and no cycle:
    * the depth-first validation would report nothing about them either. */
  lemma StagesAreSound(rows: seq<Row>)
    requires IdsOf(rows) == STAGES && EarlierOnly(rows)
    ensures DistinctIds(rows) && Sortable(rows) && NoMissing(Table(rows)) && !Cyclic(Table(rows))
  {
    forall i, j | 0 <= i < j < |rows|
      ensures rows[i].id != rows[j].id
    {
      assert rows[i].id == IdsOf(rows)[i] == Stage(i) && rows[j].id == IdsOf(rows)[j] == Stage(j);
      if Stage(i) == Stage(j) {
        StagesDiffer(i, j);
      }
    }
    ScanImpliesValidIff(rows);
    EarlierOnlyIsAcyclic(rows);
  }

  function Fooling(): seq<Row> { [Row(Stage(0), []), Row(Stage(1), [Stage(0)]), Row(Stage(0), [Stage(1)])] }

  /** The scan by itself needs that check: it is quiet about these rows, whose dictionary has a cycle, and it is
    * their ids that give them away. */
  lemma RepeatedIdFoolsTheScan()
    ensures EarlierOnly(Fooling()) && Cyclic(Table(Fooling())) && IdsOf(Fooling()) != STAGES
  {
    var a, b, rows := Stage(0), Stage(1), Fooling();
    assert a.name[4] != b.name[4];
    assert rows[0].id == a && rows[1].id == b && rows[2].id == a;
    assert IdBefore(rows, 1, a) && IdBefore(rows, 2, b);
    assert rows[..2][..1] == rows[..1] && rows[..1][..0] == rows[..0];
    assert Table(rows[..1]) == map[a := []];
    assert Table(rows[..2]) == map[a := [], b := [a]];
    assert Table(rows) == map[a := [b], b := [a]];
    assert IsCycle(Table(rows), [a, b, a]);
    assert |IdsOf(rows)| != |STAGES|;
  }
}
