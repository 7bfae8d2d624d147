/**
 * A height map on which the 32-bit distances of `calculateShortestPath` give a wrong answer.
 *
 *   1 1      start (0, 0), end (1, 1)
 *   3 1
 *
 * The node of height 3 at (0, 1) cannot be climbed to from the start, so it keeps
 * `Int.MAX_VALUE` and is selected last. Relaxing its connections computes
 * `Int.MAX_VALUE + 1`, which wraps to `Int.MIN_VALUE`; that is smaller than every distance, so
 * both of its neighbours, the end among them, are set to `Int.MIN_VALUE`.
 */
module HillPathWrap {
  import opened Results
  import opened Vectors
  import opened Text
  import opened HillGraph
  import opened HillPath
  import opened HillPathCorrectness

  const Heights: seq<seq<int>> := [[1, 1], [3, 1]]
  const Start := Vector2(0, 0)
  const End := Vector2(1, 1)

  /** The nodes `buildGraph` makes of `Heights`, row by row. */
  const TopLeft := PathNode(Vector2(0, 0), 1, [NodeRef(Vector2(1, 0), 1)])
  const TopRight := PathNode(Vector2(1, 0), 1, [NodeRef(Vector2(1, 1), 1), NodeRef(Vector2(0, 0), 1)])
  const BottomLeft := PathNode(Vector2(0, 1), 3, [NodeRef(Vector2(0, 0), 1), NodeRef(Vector2(1, 1), 1)])
  const BottomRight := PathNode(Vector2(1, 1), 1, [NodeRef(Vector2(1, 0), 1)])

  lemma HeightsGraph()
    ensures Buildable(Heights)
    ensures Graph(Heights).AllNodes() == [TopLeft, TopRight, BottomLeft, BottomRight]
  {
    HeightsRows();
    var rows := Graph(Heights).nodes;
    assert rows[..1][..0] == [];
    assert Flatten(rows[..1]) == Flatten(rows[..1][..0]) + rows[0];
    assert rows[..2][..1] == rows[..1];
    assert rows == rows[..2];
    assert Flatten(rows) == Flatten(rows[..1]) + rows[1];
  }

  lemma HeightsRows()
    ensures Buildable(Heights)
    ensures Graph(Heights).nodes == [[TopLeft, TopRight], [BottomLeft, BottomRight]]
  {
    TopRow();
    BottomRow();
    assert |Graph(Heights).nodes| == 2;
  }

  lemma TopRow()
    ensures Buildable(Heights) && |Graph(Heights).nodes| == 2
    ensures Graph(Heights).nodes[0] == [TopLeft, TopRight]
  {
    TopLeftNode();
    TopRightNode();
    PairIs(Graph(Heights).nodes[0], TopLeft, TopRight);
  }

  lemma BottomRow()
    ensures Buildable(Heights) && |Graph(Heights).nodes| == 2
    ensures Graph(Heights).nodes[1] == [BottomLeft, BottomRight]
  {
    BottomLeftNode();
    BottomRightNode();
    PairIs(Graph(Heights).nodes[1], BottomLeft, BottomRight);
  }

  lemma PairIs(row: seq<PathNode>, a: PathNode, b: PathNode)
    requires |row| == 2 && row[0] == a && row[1] == b
    ensures row == [a, b]
  {
  }

  /** The finished grid of `Heights`, cell by cell. */
  lemma GraphCells()
    ensures Buildable(Heights)
    ensures var g := Graph(Heights).nodes;
      && |g| == 2 && |g[0]| == 2 && |g[1]| == 2
      && g[0][0] == ConnectedNode(Heights, 0, 0) && g[0][1] == ConnectedNode(Heights, 1, 0)
      && g[1][0] == ConnectedNode(Heights, 0, 1) && g[1][1] == ConnectedNode(Heights, 1, 1)
  {
  }

  lemma TopLeftNode()
    ensures Buildable(Heights) && |Graph(Heights).nodes| == 2 && |Graph(Heights).nodes[0]| == 2
    ensures Graph(Heights).nodes[0][0] == TopLeft
  {
    GraphCells();
    TopLeftNeighbours();
    TopLeftClimbs();
    CellIs(0, 0, [Bare(0, 1, 3), Bare(1, 0, 1)], TopLeft);
  }

  lemma TopLeftClimbs()
    ensures Climbable([Bare(0, 1, 3), Bare(1, 0, 1)], 1) == TopLeft.connections
  {
    var ns := [Bare(0, 1, 3), Bare(1, 0, 1)];
    assert Climbable(ns[..1], 1) == [];
  }

  lemma TopRightNode()
    ensures Buildable(Heights) && |Graph(Heights).nodes| == 2 && |Graph(Heights).nodes[0]| == 2
    ensures Graph(Heights).nodes[0][1] == TopRight
  {
    GraphCells();
    TopRightNeighbours();
    TopRightClimbs();
    CellIs(1, 0, [Bare(1, 1, 1), Bare(0, 0, 1)], TopRight);
  }

  lemma TopRightClimbs()
    ensures Climbable([Bare(1, 1, 1), Bare(0, 0, 1)], 1) == TopRight.connections
  {
    var ns := [Bare(1, 1, 1), Bare(0, 0, 1)];
    assert Climbable(ns[..1], 1) == [NodeRef(Vector2(1, 1), 1)];
  }

  lemma BottomLeftNode()
    ensures Buildable(Heights) && |Graph(Heights).nodes| == 2 && |Graph(Heights).nodes[1]| == 2
    ensures Graph(Heights).nodes[1][0] == BottomLeft
  {
    GraphCells();
    BottomLeftNeighbours();
    BottomLeftClimbs();
    CellIs(0, 1, [Bare(0, 0, 1), Bare(1, 1, 1)], BottomLeft);
  }

  lemma BottomLeftClimbs()
    ensures Climbable([Bare(0, 0, 1), Bare(1, 1, 1)], 3) == BottomLeft.connections
  {
    var ns := [Bare(0, 0, 1), Bare(1, 1, 1)];
    assert Climbable(ns[..1], 3) == [NodeRef(Vector2(0, 0), 1)];
  }

  lemma BottomRightNode()
    ensures Buildable(Heights) && |Graph(Heights).nodes| == 2 && |Graph(Heights).nodes[1]| == 2
    ensures Graph(Heights).nodes[1][1] == BottomRight
  {
    GraphCells();
    BottomRightNeighbours();
    BottomRightClimbs();
    CellIs(1, 1, [Bare(1, 0, 1), Bare(0, 1, 3)], BottomRight);
  }

  lemma BottomRightClimbs()
    ensures Climbable([Bare(1, 0, 1), Bare(0, 1, 3)], 1) == BottomRight.connections
  {
    var ns := [Bare(1, 0, 1), Bare(0, 1, 3)];
    assert Climbable(ns[..1], 1) == [NodeRef(Vector2(1, 0), 1)];
  }

  /** A cell of the finished grid, from its neighbours before connections are added. */
  lemma CellIs(x: nat, y: nat, ns: seq<PathNode>, node: PathNode)
    requires Buildable(Heights) && y < |Heights| && x < |Heights[y]|
    requires Unconnected(Heights).Valid() && Unconnected(Heights).CrossNodes(x, y) == ns
    requires node == PathNode(Vector2(x, y), Heights[y][x], Climbable(ns, Heights[y][x]))
    ensures ConnectedNode(Heights, x, y) == node
  {
  }

  function Bare(x: int, y: int, h: int): PathNode
  {
    PathNode(Vector2(x, y), h, [])
  }

  /** The cells of `Heights` before connections are added. */
  lemma HeightsCells()
    ensures Buildable(Heights)
    ensures var bare := Unconnected(Heights);
      && bare.Valid() && bare.MaxX() == 1 && bare.MaxY() == 1
      && bare.nodes[0][0] == Bare(0, 0, 1) && bare.nodes[0][1] == Bare(1, 0, 1)
      && bare.nodes[1][0] == Bare(0, 1, 3) && bare.nodes[1][1] == Bare(1, 1, 1)
  {
    UnconnectedValid(Heights);
  }

  lemma TopLeftNeighbours()
    ensures Buildable(Heights) && Unconnected(Heights).Valid()
    ensures Unconnected(Heights).CrossNodes(0, 0) == [Bare(0, 1, 3), Bare(1, 0, 1)]
  {
    HeightsCells();
    var b, c := Bare(1, 0, 1), Bare(0, 1, 3);
    assert Present([Some(b)]) == [b];
    assert Present([None, Some(b)]) == [b];
    assert Present([Some(c), None, Some(b)]) == [c, b];
    assert Present([None, Some(c), None, Some(b)]) == [c, b];
  }

  lemma TopRightNeighbours()
    ensures Buildable(Heights) && Unconnected(Heights).Valid()
    ensures Unconnected(Heights).CrossNodes(1, 0) == [Bare(1, 1, 1), Bare(0, 0, 1)]
  {
    HeightsCells();
    var a, d := Bare(0, 0, 1), Bare(1, 1, 1);
    assert Present([None]) == [];
    assert Present([Some(a), None]) == [a];
    assert Present([Some(d), Some(a), None]) == [d, a];
    assert Present([None, Some(d), Some(a), None]) == [d, a];
  }

  lemma BottomLeftNeighbours()
    ensures Buildable(Heights) && Unconnected(Heights).Valid()
    ensures Unconnected(Heights).CrossNodes(0, 1) == [Bare(0, 0, 1), Bare(1, 1, 1)]
  {
    HeightsCells();
    var a, d := Bare(0, 0, 1), Bare(1, 1, 1);
    assert Present([Some(d)]) == [d];
    assert Present([None, Some(d)]) == [d];
    assert Present([None, None, Some(d)]) == [d];
    assert Present([Some(a), None, None, Some(d)]) == [a, d];
  }

  lemma BottomRightNeighbours()
    ensures Buildable(Heights) && Unconnected(Heights).Valid()
    ensures Unconnected(Heights).CrossNodes(1, 1) == [Bare(1, 0, 1), Bare(0, 1, 3)]
  {
    HeightsCells();
    var b, c := Bare(1, 0, 1), Bare(0, 1, 3);
    assert Present([None]) == [];
    assert Present([Some(c), None]) == [c];
    assert Present([None, Some(c), None]) == [c];
    assert Present([Some(b), None, Some(c), None]) == [b, c];
  }

  const Nodes := [TopLeft, TopRight, BottomLeft, BottomRight]

  /** The tables after the first, second and last turn of the main loop. */
  const AfterFirst: DistTable :=
    map[Vector2(0, 0) := 0, Vector2(1, 0) := 1, Vector2(0, 1) := IntMax, Vector2(1, 1) := IntMax]
  const AfterSecond: DistTable :=
    map[Vector2(0, 0) := 0, Vector2(1, 0) := 1, Vector2(0, 1) := IntMax, Vector2(1, 1) := 2]
  const AfterWrap: DistTable :=
    map[Vector2(0, 0) := IntMin, Vector2(1, 0) := 1, Vector2(0, 1) := IntMax, Vector2(1, 1) := IntMin]

  const Initial: DistTable :=
    map[Vector2(0, 0) := 0, Vector2(1, 0) := IntMax, Vector2(0, 1) := IntMax, Vector2(1, 1) := IntMax]

  lemma InitialTableOfNodes()
    ensures LinksInside(Nodes)
    ensures InitialTable(Nodes, Start) == Initial
  {
    NodesCoords();
    var t := InitialTable(Nodes, Start);
    assert t.Keys == Initial.Keys;
    forall c | c in t ensures t[c] == Initial[c] {
    }
  }

  lemma NodesCoords()
    ensures Coords(Nodes) == {Vector2(0, 0), Vector2(1, 0), Vector2(0, 1), Vector2(1, 1)}
    ensures LinksInside(Nodes)
  {
    assert forall n :: n in Nodes <==> n == TopLeft || n == TopRight || n == BottomLeft || n == BottomRight;
  }

  lemma FirstTurn(wrapping: bool)
    ensures LinksInside(Nodes)
    ensures InitialTable(Nodes, Start) == Initial
    ensures Keyed(Initial, Nodes) && LinksKeyed(Initial, Nodes)
    ensures Explore(Nodes, Initial, false, wrapping)
      == Explore([TopRight, BottomLeft, BottomRight], AfterFirst, false, wrapping)
  {
    InitialTableOfNodes();
    InitialKeyed();
    FirstSelected();
    FirstRelaxed(wrapping);
    FirstRemoved();
  }

  lemma InitialKeyed()
    ensures Keyed(Initial, Nodes) && LinksKeyed(Initial, Nodes)
  {
    assert forall n :: n in Nodes <==> n == TopLeft || n == TopRight || n == BottomLeft || n == BottomRight;
  }

  lemma FirstRemoved()
    ensures RemoveFirst(Nodes, TopLeft) == [TopRight, BottomLeft, BottomRight]
  {
    assert Nodes[1..] == [TopRight, BottomLeft, BottomRight];
  }

  lemma FirstRelaxed(wrapping: bool)
    ensures Relax(TopLeft.connections, Start, Initial, false, wrapping) == AfterFirst
  {
    var once := RelaxOne(TopLeft.connections[0], Start, Initial, false, wrapping);
    assert once == AfterFirst;
    assert Relax(TopLeft.connections[1..], Start, once, false, wrapping) == once;
  }

  lemma FirstSelected()
    ensures Keyed(Initial, Nodes) && Closest(Nodes, Initial) == 0
  {
    var t := Initial;
    assert SelectFrom(Nodes, t, 4, 0) == 0;
    assert SelectFrom(Nodes, t, 3, 0) == 0;
    assert SelectFrom(Nodes, t, 2, 0) == 0;
    assert SelectFrom(Nodes, t, 1, 0) == 0;
  }

  lemma SecondTurn(wrapping: bool)
    ensures Keyed(AfterFirst, [TopRight, BottomLeft, BottomRight])
    ensures LinksKeyed(AfterFirst, [TopRight, BottomLeft, BottomRight])
    ensures Explore([TopRight, BottomLeft, BottomRight], AfterFirst, false, wrapping)
      == Explore([BottomLeft, BottomRight], AfterSecond, false, wrapping)
  {
    SecondSelected();
    SecondRemoved();
    SecondRelaxed(wrapping);
  }

  lemma SecondSelected()
    ensures Keyed(AfterFirst, [TopRight, BottomLeft, BottomRight])
    ensures LinksKeyed(AfterFirst, [TopRight, BottomLeft, BottomRight])
    ensures Closest([TopRight, BottomLeft, BottomRight], AfterFirst) == 0
  {
    var u := [TopRight, BottomLeft, BottomRight];
    assert SelectFrom(u, AfterFirst, 3, 0) == 0;
    assert SelectFrom(u, AfterFirst, 2, 0) == 0;
    assert SelectFrom(u, AfterFirst, 1, 0) == 0;
  }

  lemma SecondRemoved()
    ensures RemoveFirst([TopRight, BottomLeft, BottomRight], TopRight) == [BottomLeft, BottomRight]
  {
    assert [TopRight, BottomLeft, BottomRight][1..] == [BottomLeft, BottomRight];
  }

  lemma SecondRelaxed(wrapping: bool)
    ensures Relax(TopRight.connections, TopRight.coordinate, AfterFirst, false, wrapping) == AfterSecond
  {
    var once := RelaxOne(TopRight.connections[0], TopRight.coordinate, AfterFirst, false, wrapping);
    assert once == AfterSecond;
    var twice := RelaxOne(TopRight.connections[1], TopRight.coordinate, once, false, wrapping);
    assert twice == AfterSecond;
    assert Relax(TopRight.connections[2..], TopRight.coordinate, twice, false, wrapping) == twice;
    assert Relax(TopRight.connections[1..], TopRight.coordinate, once, false, wrapping) == twice;
  }

  lemma ThirdTurn(wrapping: bool)
    ensures Keyed(AfterSecond, [BottomLeft, BottomRight]) && LinksKeyed(AfterSecond, [BottomLeft, BottomRight])
    ensures Explore([BottomLeft, BottomRight], AfterSecond, false, wrapping)
      == Explore([BottomLeft], AfterSecond, false, wrapping)
  {
    var u := [BottomLeft, BottomRight];
    assert SelectFrom(u, AfterSecond, 2, 1) == 1;
    assert SelectFrom(u, AfterSecond, 1, 0) == 1;
    assert SelectFrom(u, AfterSecond, 0, 0) == 1;
    assert RemoveFirst(u, BottomRight) == [BottomLeft];
    assert Relax(BottomRight.connections, BottomRight.coordinate, AfterSecond, false, wrapping) == AfterSecond;
  }

  /** The unreachable node is selected last; with 32-bit sums it pulls both neighbours down. */
  lemma LastTurn(wrapping: bool)
    ensures Keyed(AfterSecond, [BottomLeft]) && LinksKeyed(AfterSecond, [BottomLeft])
    ensures Explore([BottomLeft], AfterSecond, false, wrapping) == if wrapping then AfterWrap else AfterSecond
  {
    assert SelectFrom([BottomLeft], AfterSecond, 1, 0) == 0;
    assert SelectFrom([BottomLeft], AfterSecond, 0, 0) == 0;
    assert RemoveFirst([BottomLeft], BottomLeft) == [];
    var from := BottomLeft.coordinate;
    assert Successor(IntMax, wrapping) == if wrapping then IntMin else IntMax + 1;
    var once := RelaxOne(BottomLeft.connections[0], from, AfterSecond, false, wrapping);
    assert once == if wrapping then AfterSecond[Vector2(0, 0) := IntMin] else AfterSecond;
    assert Relax(BottomLeft.connections, from, AfterSecond, false, wrapping)
      == if wrapping then AfterWrap else AfterSecond;
  }

  /**
   * On `Heights`, from (0, 0) to (1, 1): the search as written returns `Int.MIN_VALUE`, while
   * with plain sums it returns 2, the number of steps of the path (0, 0) -> (1, 0) -> (1, 1).
   */
  lemma WrapCounterexample()
    ensures Buildable(Heights) && Graph(Heights).AllNodes() == Nodes
    ensures LinksInside(Nodes)
    ensures ShortestPathAsWritten(Nodes, Start, End, false) == IntMin
    ensures ShortestPath(Nodes, Start, End, false, false) == 2
  {
    HeightsGraph();
    FirstTurn(true);
    SecondTurn(true);
    ThirdTurn(true);
    LastTurn(true);
    FirstTurn(false);
    SecondTurn(false);
    ThirdTurn(false);
    LastTurn(false);
  }
}
