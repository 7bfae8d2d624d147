/**
 * `PathGrid.calculateShortestPath` (Day12.kt): a Dijkstra search that scans the unvisited list
 * for the closest node, removes it and relaxes its connections, over a table of 32-bit distances.
 */
module HillPath {
  import opened Vectors
  import opened Text
  import opened HillGraph

  /** `distTable`: the tentative distance of each coordinate. */
  type DistTable = map<Vector2, int>

  /** Kotlin `Int` arithmetic: the value taken into the 32-bit range, wrapping around. */
  function Wrap32(n: int): (r: int)
    ensures IntMin <= r <= IntMax
    ensures IntMin <= n <= IntMax ==> r == n
  {
    (n - IntMin) % 0x1_0000_0000 + IntMin
  }

  /** `Int.MAX_VALUE + 1` is `Int.MIN_VALUE`. */
  lemma MaxPlusOneWraps()
    ensures Wrap32(IntMax + 1) == IntMin
  {
  }

  /**
   * `distTable[node]!! + 1`: with `wrapping` it is the source's 32-bit sum; without, the plain
   * successor that the search evidently intends.
   */
  function Successor(d: int, wrapping: bool): int
  {
    if wrapping then Wrap32(d + 1) else d + 1
  }

  /** The coordinates of a list of nodes. */
  function Coords(nodes: seq<PathNode>): set<Vector2>
  {
    set n | n in nodes :: n.coordinate
  }

  /** Every node of the list has an entry in the table. */
  predicate Keyed(t: DistTable, nodes: seq<PathNode>)
  {
    forall n :: n in nodes ==> n.coordinate in t
  }

  /** Every connection of every node of the list leads to a coordinate with an entry in the table. */
  predicate LinksKeyed(t: DistTable, nodes: seq<PathNode>)
  {
    forall n, l :: n in nodes && l in n.connections ==> l.coordinate in t
  }

  /** Every connection leads to a node of the list, as in any grid `buildGraph` returns. */
  predicate LinksInside(nodes: seq<PathNode>)
  {
    forall n, l :: n in nodes && l in n.connections ==> l.coordinate in Coords(nodes)
  }

  /** The first half of the setup loop: every node's coordinate at `Int.MAX_VALUE`. */
  function Unreached(nodes: seq<PathNode>): (t: DistTable)
    ensures t.Keys == Coords(nodes)
    ensures forall c :: c in t ==> t[c] == IntMax
    decreases |nodes|
  {
    if nodes == [] then map[]
    else
      var front := nodes[..|nodes| - 1];
      assert forall n :: n in nodes <==> n in front || n == nodes[|nodes| - 1];
      Unreached(front)[nodes[|nodes| - 1].coordinate := IntMax]
  }

  /** The table after the setup: all nodes unreached, and `start` (on the grid or not) at 0. */
  function InitialTable(nodes: seq<PathNode>, start: Vector2): (t: DistTable)
    ensures t.Keys == Coords(nodes) + {start}
    ensures t[start] == 0 && forall c :: c in t && c != start ==> t[c] == IntMax
  {
    Unreached(nodes)[start := 0]
  }

  function DistAt(t: DistTable, nodes: seq<PathNode>, j: nat): int
    requires Keyed(t, nodes) && j < |nodes|
  {
    t[nodes[j].coordinate]
  }

  /**
   * The scan of lines 96-101 from position `k` on, `best` being the node chosen so far: a later
   * node replaces it only when its distance is strictly smaller.
   */
  function SelectFrom(unvisited: seq<PathNode>, t: DistTable, k: nat, best: nat): (i: nat)
    requires Keyed(t, unvisited) && best < |unvisited| && k <= |unvisited|
    ensures i < |unvisited|
    decreases |unvisited| - k
  {
    if k == |unvisited| then best
    else SelectFrom(unvisited, t, k + 1, if DistAt(t, unvisited, k) < DistAt(t, unvisited, best) then k else best)
  }

  /** The position of the node the scan selects, starting from the first node. */
  function Closest(unvisited: seq<PathNode>, t: DistTable): (i: nat)
    requires Keyed(t, unvisited) && unvisited != []
    ensures i < |unvisited|
  {
    SelectFrom(unvisited, t, 0, 0)
  }

  /** `best` is the first position of a smallest distance among the first `k` nodes. */
  predicate FirstMinimum(unvisited: seq<PathNode>, t: DistTable, k: nat, best: nat)
    requires Keyed(t, unvisited) && best < k <= |unvisited|
  {
    && (forall j :: 0 <= j < k ==> DistAt(t, unvisited, best) <= DistAt(t, unvisited, j))
    && (forall j :: 0 <= j < best ==> DistAt(t, unvisited, j) > DistAt(t, unvisited, best))
  }

  lemma {:induction false} SelectFromFirstMinimum(unvisited: seq<PathNode>, t: DistTable, k: nat, best: nat)
    requires Keyed(t, unvisited) && best < |unvisited| && k <= |unvisited|
    requires (k == 0 && best == 0) || (best < k && FirstMinimum(unvisited, t, k, best))
    ensures FirstMinimum(unvisited, t, |unvisited|, SelectFrom(unvisited, t, k, best))
    decreases |unvisited| - k
  {
    if k < |unvisited| {
      var next := if DistAt(t, unvisited, k) < DistAt(t, unvisited, best) then k else best;
      SelectFromFirstMinimum(unvisited, t, k + 1, next);
    }
  }

  /**
   * Because the comparison is strict, the scan selects the FIRST node, in list order, whose
   * distance is smallest.
   */
  lemma ClosestIsFirstMinimum(unvisited: seq<PathNode>, t: DistTable)
    requires Keyed(t, unvisited) && unvisited != []
    ensures var i := Closest(unvisited, t);
      && (forall j :: 0 <= j < |unvisited| ==> DistAt(t, unvisited, i) <= DistAt(t, unvisited, j))
      && (forall j :: 0 <= j < i ==> DistAt(t, unvisited, j) > DistAt(t, unvisited, i))
  {
    SelectFromFirstMinimum(unvisited, t, 0, 0);
  }

  /** `MutableList.remove(element)`: the list without the first element equal to `x`. */
  function RemoveFirst(s: seq<PathNode>, x: PathNode): (r: seq<PathNode>)
    ensures x in s ==> |r| == |s| - 1
    ensures multiset(r) == multiset(s) - multiset{x}
    ensures forall n :: n in r ==> n in s
    decreases |s|
  {
    if s == [] then []
    else if s[0] == x then
      assert s == [s[0]] + s[1..];
      s[1..]
    else
      assert s == [s[0]] + s[1..];
      [s[0]] + RemoveFirst(s[1..], x)
  }

  /**
   * The update of one connection (lines 106-110): with `startAtAnyA`, a target of height 1 is
   * set to 0 whatever it held; otherwise the target takes the selected node's distance plus one
   * when that is smaller.
   */
  function RelaxOne(link: NodeRef, from: Vector2, t: DistTable, anyA: bool, wrapping: bool): (r: DistTable)
    requires from in t && link.coordinate in t
    ensures r.Keys == t.Keys
  {
    if anyA && link.height == 1 then t[link.coordinate := 0]
    else
      var candidate := Successor(t[from], wrapping);
      if t[link.coordinate] > candidate then t[link.coordinate := candidate] else t
  }

  /** `node.connections.forEach`: the connections updated in list order. */
  function Relax(links: seq<NodeRef>, from: Vector2, t: DistTable, anyA: bool, wrapping: bool): (r: DistTable)
    requires from in t && forall l :: l in links ==> l.coordinate in t
    ensures r.Keys == t.Keys
    decreases |links|
  {
    if links == [] then t
    else Relax(links[1..], from, RelaxOne(links[0], from, t, anyA, wrapping), anyA, wrapping)
  }

  /** Connections that lead elsewhere leave the distance of `c` as it was. */
  lemma {:induction false} RelaxElsewhere(links: seq<NodeRef>, from: Vector2, t: DistTable, anyA: bool, wrapping: bool, c: Vector2)
    requires from in t && c in t && forall l :: l in links ==> l.coordinate in t
    requires forall l :: l in links ==> l.coordinate != c
    ensures Relax(links, from, t, anyA, wrapping)[c] == t[c]
    decreases |links|
  {
    if links != [] {
      RelaxElsewhere(links[1..], from, RelaxOne(links[0], from, t, anyA, wrapping), anyA, wrapping, c);
    }
  }

  /**
   * With `startAtAnyA`, a connection to a node of height 1 leaves that node at distance 0,
   * whatever it held before and whatever the other connections do (every connection to one
   * coordinate carries that coordinate's height, as in a grid).
   */
  lemma {:induction false} ForcedZero(links: seq<NodeRef>, from: Vector2, t: DistTable, wrapping: bool, l: NodeRef)
    requires from in t && forall l' :: l' in links ==> l'.coordinate in t
    requires l in links && l.height == 1
    requires forall l' :: l' in links && l'.coordinate == l.coordinate ==> l'.height == 1
    ensures Relax(links, from, t, true, wrapping)[l.coordinate] == 0
    decreases |links|
  {
    var next := RelaxOne(links[0], from, t, true, wrapping);
    if l in links[1..] {
      ForcedZero(links[1..], from, next, wrapping, l);
    } else {
      assert links[0] == l;
      forall l' | l' in links[1..] ensures l'.coordinate != l.coordinate {
        assert l' in links;
      }
      RelaxElsewhere(links[1..], from, next, true, wrapping, l.coordinate);
    }
  }

  /**
   * The main loop from a given state: select the closest unvisited node, remove it, relax its
   * connections, until no node is left; the result is the final table.
   */
  function Explore(unvisited: seq<PathNode>, t: DistTable, anyA: bool, wrapping: bool): (r: DistTable)
    requires Keyed(t, unvisited) && LinksKeyed(t, unvisited)
    ensures r.Keys == t.Keys
    decreases |unvisited|
  {
    if unvisited == [] then t
    else
      var u := unvisited[Closest(unvisited, t)];
      var rest := RemoveFirst(unvisited, u);
      Explore(rest, Relax(u.connections, u.coordinate, t, anyA, wrapping), anyA, wrapping)
  }

  /** The value `calculateShortestPath` returns: the end's distance, or -1 when the end has no entry. */
  function ShortestPath(nodes: seq<PathNode>, start: Vector2, end: Vector2, anyA: bool, wrapping: bool): int
    requires LinksInside(nodes)
  {
    var t := Explore(nodes, InitialTable(nodes, start), anyA, wrapping);
    if end in t then t[end] else -1
  }

  /** The search as written, with 32-bit distances. */
  function ShortestPathAsWritten(nodes: seq<PathNode>, start: Vector2, end: Vector2, anyA: bool): int
    requires LinksInside(nodes)
  {
    ShortestPath(nodes, start, end, anyA, true)
  }

  /** The setup loop (lines 85-90): every node of the grid, in row-major order, at `Int.MAX_VALUE`. */
  method SetUp(grid: PathGrid) returns (unvisitedNodes: seq<PathNode>, distTable: DistTable)
    ensures unvisitedNodes == grid.AllNodes()
    ensures distTable == Unreached(grid.AllNodes())
  {
    distTable := map[];
    unvisitedNodes := [];
    var y := 0;
    while y < |grid.nodes|
      invariant 0 <= y <= |grid.nodes|
      invariant unvisitedNodes == Flatten(grid.nodes[..y])
      invariant distTable == Unreached(unvisitedNodes)
    {
      assert grid.nodes[..y + 1][..y] == grid.nodes[..y];
      unvisitedNodes, distTable := SetUpRow(grid.nodes[y], unvisitedNodes, distTable);
      y := y + 1;
    }
    assert grid.nodes[..y] == grid.nodes;
  }

  /** The inner setup loop over one row of the grid. */
  method SetUpRow(row: seq<PathNode>, nodes0: seq<PathNode>, table0: DistTable) returns (nodes: seq<PathNode>, table: DistTable)
    requires table0 == Unreached(nodes0)
    ensures nodes == nodes0 + row && table == Unreached(nodes)
  {
    nodes, table := nodes0, table0;
    var x := 0;
    while x < |row|
      invariant 0 <= x <= |row|
      invariant nodes == nodes0 + row[..x]
      invariant table == Unreached(nodes)
    {
      var node := row[x];
      assert (nodes + [node])[..|nodes|] == nodes;
      assert row[..x + 1] == row[..x] + [node];
      nodes := nodes + [node];
      table := table[node.coordinate := IntMax];
      x := x + 1;
    }
    assert row[..x] == row;
  }

  /** The selection loop (lines 96-101): the first unvisited node with the smallest distance. */
  method SelectClosest(unvisitedNodes: seq<PathNode>, distTable: DistTable) returns (best: nat)
    requires Keyed(distTable, unvisitedNodes) && unvisitedNodes != []
    ensures best == Closest(unvisitedNodes, distTable)
    ensures best < |unvisitedNodes|
  {
    best := 0;
    var k := 0;
    while k < |unvisitedNodes|
      invariant 0 <= k <= |unvisitedNodes| && best < |unvisitedNodes|
      invariant SelectFrom(unvisitedNodes, distTable, k, best) == Closest(unvisitedNodes, distTable)
    {
      if distTable[unvisitedNodes[k].coordinate] < distTable[unvisitedNodes[best].coordinate] {
        best := k;
      }
      k := k + 1;
    }
  }

  /** The relaxation loop (lines 105-111) over the selected node's connections, with 32-bit sums. */
  method RelaxConnections(node: PathNode, table: DistTable, startAtAnyA: bool) returns (distTable: DistTable)
    requires node.coordinate in table && forall l :: l in node.connections ==> l.coordinate in table
    ensures distTable == Relax(node.connections, node.coordinate, table, startAtAnyA, true)
  {
    distTable := table;
    var c := 0;
    while c < |node.connections|
      invariant 0 <= c <= |node.connections|
      invariant distTable.Keys == table.Keys
      invariant Relax(node.connections[c..], node.coordinate, distTable, startAtAnyA, true)
        == Relax(node.connections, node.coordinate, table, startAtAnyA, true)
    {
      var link := node.connections[c];
      assert node.connections[c..][1..] == node.connections[c + 1..];
      if startAtAnyA && link.height == 1 {
        distTable := distTable[link.coordinate := 0];
      } else if distTable[link.coordinate] > Wrap32(distTable[node.coordinate] + 1) {
        distTable := distTable[link.coordinate := Wrap32(distTable[node.coordinate] + 1)];
      }
      c := c + 1;
    }
  }

  /**
   * `calculateShortestPath`. The grid is one `buildGraph` returned, so every connection leads to
   * one of its nodes (`LinksInside`).
   */
  method CalculateShortestPath(grid: PathGrid, start: Vector2, end: Vector2, startAtAnyA: bool) returns (steps: int)
    requires LinksInside(grid.AllNodes())
    ensures steps == ShortestPathAsWritten(grid.AllNodes(), start, end, startAtAnyA)
    ensures end !in Coords(grid.AllNodes()) && end != start ==> steps == -1
  {
    ghost var all := grid.AllNodes();
    var unvisitedNodes, distTable := SetUp(grid);
    distTable := distTable[start := 0];
    while unvisitedNodes != []
      invariant Keyed(distTable, unvisitedNodes) && LinksKeyed(distTable, unvisitedNodes)
      invariant distTable.Keys == Coords(all) + {start}
      invariant Explore(unvisitedNodes, distTable, startAtAnyA, true)
        == Explore(all, InitialTable(all, start), startAtAnyA, true)
      decreases |unvisitedNodes|
    {
      var best := SelectClosest(unvisitedNodes, distTable);
      var node := unvisitedNodes[best];
      unvisitedNodes := RemoveFirst(unvisitedNodes, node);
      distTable := RelaxConnections(node, distTable, startAtAnyA);
    }
    steps := if end in distTable then distTable[end] else -1;
  }
}
