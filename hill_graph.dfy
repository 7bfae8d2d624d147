/**
 * The height map and its graph (Day12.kt): letters become heights, every cell becomes a
 * `PathNode`, and a node is connected to each orthogonal neighbour that is at most one higher.
 */
module HillGraph {
  import opened Results
  import opened Vectors

  /** `getHeightMap` on one character: 'S' is as low as 'a', 'E' as high as 'z'. */
  function Height(c: char): int
  {
    if c == 'S' then 1
    else if c == 'E' then 26
    else (c as int) - 96
  }

  /** The start and end markers share the heights of the lowest and highest letters, and letters rise in order. */
  lemma HeightScale(c: char, d: char)
    ensures Height('S') == Height('a') == 1 && Height('E') == Height('z') == 26
    ensures 'a' <= c <= 'z' ==> 1 <= Height(c) <= 26
    ensures 'a' <= c < d <= 'z' ==> Height(c) < Height(d)
  {
  }

  /** `getHeightMap`: the heights of the input, cell by cell. */
  function HeightMap(input: seq<string>): (m: seq<seq<int>>)
    ensures |m| == |input|
    ensures forall y :: 0 <= y < |input| ==> (|m[y]| == |input[y]|
      && forall x :: 0 <= x < |input[y]| ==> m[y][x] == Height(input[y][x]))
  {
    seq(|input|, y requires 0 <= y < |input| =>
      seq(|input[y]|, x requires 0 <= x < |input[y]| => Height(input[y][x])))
  }

  /** `(x, y)` comes before `(x', y')` in the order the input is scanned: row by row, left to right. */
  predicate Before(x: int, y: int, x': int, y': int)
  {
    y < y' || (y == y' && x < x')
  }

  /**
   * `findChar`: the first position of `ch`, row by row; a character that does not occur
   * throws `IllegalStateException` (here `None`).
   */
  method FindChar(input: seq<string>, ch: char) returns (r: Option<Vector2>)
    ensures r.None? <==> forall y, x :: 0 <= y < |input| && 0 <= x < |input[y]| ==> input[y][x] != ch
    ensures r.Some? ==> (0 <= r.value.y < |input| && 0 <= r.value.x < |input[r.value.y]|
      && input[r.value.y][r.value.x] == ch)
    ensures r.Some? ==> forall y, x :: (0 <= y < |input| && 0 <= x < |input[y]| && Before(x, y, r.value.x, r.value.y)
      ==> input[y][x] != ch)
  {
    var y := 0;
    while y < |input|
      invariant 0 <= y <= |input|
      invariant forall y', x :: 0 <= y' < y && 0 <= x < |input[y']| ==> input[y'][x] != ch
    {
      var x := 0;
      while x < |input[y]|
        invariant 0 <= x <= |input[y]|
        invariant forall x' :: 0 <= x' < x ==> input[y][x'] != ch
      {
        if input[y][x] == ch {
          return Some(Vector2(x, y));
        }
        x := x + 1;
      }
      y := y + 1;
    }
    return None;
  }

  /** How a node looks from a neighbour's connection list: its coordinate and height, which never change. */
  datatype NodeRef = NodeRef(coordinate: Vector2, height: int)

  /**
   * A cell of the grid. `connections` stands for the source's list of neighbouring node objects;
   * only their coordinates and heights are ever read through it, so it holds `NodeRef`s.
   */
  datatype PathNode = PathNode(coordinate: Vector2, height: int, connections: seq<NodeRef>)
  {
    function Ref(): NodeRef
    {
      NodeRef(coordinate, height)
    }
  }

  /** `listOfNotNull`: the present values, in order. */
  function Present(opts: seq<Option<PathNode>>): (r: seq<PathNode>)
    ensures |r| <= |opts|
    ensures forall v :: v in r <==> Some(v) in opts
    decreases |opts|
  {
    if opts == [] then []
    else
      var rest := Present(opts[1..]);
      assert forall o :: o in opts <==> o == opts[0] || o in opts[1..];
      match opts[0]
      case None => rest
      case Some(v) => [v] + rest
  }

  /** The four cells next to `(x, y)`, in the order up, down, left, right. */
  function Cross(x: int, y: int): seq<Vector2>
  {
    [Vector2(x, y - 1), Vector2(x, y + 1), Vector2(x - 1, y), Vector2(x + 1, y)]
  }

  datatype PathGrid = PathGrid(nodes: seq<seq<PathNode>>)
  {
    /** What `PathGrid`'s initialisers read: a first row and a last row that are not empty. */
    predicate HasCorners()
    {
      |nodes| > 0 && |nodes[0]| > 0 && |nodes[|nodes| - 1]| > 0
    }

    /** `maxX`: the x of the last node of the first row. */
    function MaxX(): int
      requires HasCorners()
    {
      nodes[0][|nodes[0]| - 1].coordinate.x
    }

    /** `maxY`: the y of the first node of the last row. */
    function MaxY(): int
      requires HasCorners()
    {
      nodes[|nodes| - 1][0].coordinate.y
    }

    /**
     * The shape `buildGraph` produces: every node sits at its own coordinate and no row is
     * shorter than the first, so `getNode` never indexes past the end of a row.
     */
    predicate Valid()
    {
      && HasCorners()
      && (forall y :: 0 <= y < |nodes| ==> |nodes[y]| >= |nodes[0]|)
      && (forall y, x :: 0 <= y < |nodes| && 0 <= x < |nodes[y]| ==> nodes[y][x].coordinate == Vector2(x, y))
    }

    /** `getNode`: the node at `(x, y)`, or `null` (here `None`) outside `[0, maxX] x [0, maxY]`. */
    function GetNode(x: int, y: int): Option<PathNode>
      requires Valid()
    {
      if x < 0 || x > MaxX() || y < 0 || y > MaxY() then None
      else Some(nodes[y][x])
    }

    /** `getNeighbouringCrossNodes`: the nodes up, down, left and right of `(x, y)` that exist. */
    function CrossNodes(x: int, y: int): seq<PathNode>
      requires Valid()
    {
      Present([GetNode(x, y - 1), GetNode(x, y + 1), GetNode(x - 1, y), GetNode(x + 1, y)])
    }

    /** `forEachNode`: every node, row by row. */
    function AllNodes(): (r: seq<PathNode>)
      ensures forall n :: n in r <==> exists y, x :: 0 <= y < |nodes| && 0 <= x < |nodes[y]| && nodes[y][x] == n
    {
      Flatten(nodes)
    }
  }

  /** The rows concatenated in order. */
  function Flatten(rows: seq<seq<PathNode>>): (r: seq<PathNode>)
    ensures forall v :: v in r <==> exists y, x :: 0 <= y < |rows| && 0 <= x < |rows[y]| && rows[y][x] == v
    decreases |rows|
  {
    if rows == [] then []
    else
      var front := Flatten(rows[..|rows| - 1]);
      var last := rows[|rows| - 1];
      assert forall v :: v in last ==> exists x :: 0 <= x < |last| && last[x] == v;
      front + last
  }

  /** `getNode` finds exactly the cells of the rectangle spanned by the first row and the rows. */
  lemma GetNodeInBounds(grid: PathGrid, x: int, y: int)
    requires grid.Valid()
    ensures grid.MaxX() == |grid.nodes[0]| - 1 && grid.MaxY() == |grid.nodes| - 1
    ensures grid.GetNode(x, y).None? <==> !(0 <= x < |grid.nodes[0]| && 0 <= y < |grid.nodes|)
    ensures grid.GetNode(x, y).Some? ==> grid.GetNode(x, y).value.coordinate == Vector2(x, y)
    ensures grid.GetNode(x, y).Some? ==> grid.GetNode(x, y).value == grid.nodes[y][x]
  {
  }

  /** The neighbours `getNeighbouringCrossNodes` returns are the cells of `Cross(x, y)` inside the rectangle. */
  lemma CrossNodesInBounds(grid: PathGrid, x: int, y: int, n: PathNode)
    requires grid.Valid()
    ensures n in grid.CrossNodes(x, y) <==>
      n.coordinate in Cross(x, y) && 0 <= n.coordinate.x < |grid.nodes[0]| && 0 <= n.coordinate.y < |grid.nodes|
      && n == grid.nodes[n.coordinate.y][n.coordinate.x]
  {
    var opts := [grid.GetNode(x, y - 1), grid.GetNode(x, y + 1), grid.GetNode(x - 1, y), grid.GetNode(x + 1, y)];
    assert n in grid.CrossNodes(x, y) <==> Some(n) in opts;
    GetNodeInBounds(grid, x, y - 1);
    GetNodeInBounds(grid, x, y + 1);
    GetNodeInBounds(grid, x - 1, y);
    GetNodeInBounds(grid, x + 1, y);
  }

  /** The references to the nodes among `ns` that a node of height `h` can climb to. */
  function Climbable(ns: seq<PathNode>, h: int): (r: seq<NodeRef>)
    ensures forall ref :: ref in r <==> exists n :: n in ns && n.Ref() == ref && n.height <= h + 1
    decreases |ns|
  {
    if ns == [] then []
    else
      var front := Climbable(ns[..|ns| - 1], h);
      var last := ns[|ns| - 1];
      assert forall n :: n in ns <==> n in ns[..|ns| - 1] || n == last;
      if last.height <= h + 1 then front + [last.Ref()] else front
  }

  /** What `buildGraph` needs of the height map to get past `PathGrid`'s initialisers and `getNode`. */
  predicate Buildable(heightmap: seq<seq<int>>)
  {
    |heightmap| > 0 && |heightmap[0]| > 0 && forall y :: 0 <= y < |heightmap| ==> |heightmap[y]| >= |heightmap[0]|
  }

  /** The nodes of the height map before any connection is added. */
  function Unconnected(heightmap: seq<seq<int>>): (g: PathGrid)
    ensures |g.nodes| == |heightmap|
    ensures forall y :: 0 <= y < |heightmap| ==> (|g.nodes[y]| == |heightmap[y]|
      && forall x :: 0 <= x < |heightmap[y]| ==> g.nodes[y][x] == PathNode(Vector2(x, y), heightmap[y][x], []))
  {
    PathGrid(seq(|heightmap|, y requires 0 <= y < |heightmap| =>
      seq(|heightmap[y]|, x requires 0 <= x < |heightmap[y]| => PathNode(Vector2(x, y), heightmap[y][x], []))))
  }

  /** The node at `(x, y)` of the finished graph: its climbable neighbours, up, down, left, right. */
  function ConnectedNode(heightmap: seq<seq<int>>, x: nat, y: nat): (r: PathNode)
    requires Buildable(heightmap) && y < |heightmap| && x < |heightmap[y]|
    ensures r.coordinate == Vector2(x, y) && r.height == heightmap[y][x]
  {
    var bare := Unconnected(heightmap);
    PathNode(Vector2(x, y), heightmap[y][x], Climbable(bare.CrossNodes(x, y), heightmap[y][x]))
  }

  /** The grid `buildGraph` returns. */
  function Graph(heightmap: seq<seq<int>>): PathGrid
    requires Buildable(heightmap)
  {
    PathGrid(seq(|heightmap|, y requires 0 <= y < |heightmap| =>
      seq(|heightmap[y]|, x requires 0 <= x < |heightmap[y]| => ConnectedNode(heightmap, x, y))))
  }

  /**
   * `buildGraph`: first a node per cell, row by row, then each node's climbable neighbours
   * appended to its connections. An empty map or first row makes `PathGrid`'s initialisers throw,
   * and a row shorter than the first makes `getNode` throw (see `ShortRowIsQueried`); both are `None`.
   */
  method BuildGraph(heightmap: seq<seq<int>>) returns (r: Option<PathGrid>)
    ensures r.None? <==> !Buildable(heightmap)
    ensures r.Some? ==> r.value == Graph(heightmap)
  {
    var rows := NewNodes(heightmap);
    if !Buildable(heightmap) {
      return None;
    }
    var bare := PathGrid(rows);
    var y := 0;
    while y < |rows|
      invariant 0 <= y <= |rows| == |heightmap|
      invariant forall j :: 0 <= j < y ==> rows[j] == Graph(heightmap).nodes[j]
      invariant forall j :: y <= j < |rows| ==> rows[j] == bare.nodes[j]
    {
      var row := ConnectRow(heightmap, bare, y);
      rows := rows[y := row];
      y := y + 1;
    }
    r := Some(PathGrid(rows));
  }

  /** The first half of `buildGraph`: a node per cell, row by row, with no connections yet. */
  method NewNodes(heightmap: seq<seq<int>>) returns (rows: seq<seq<PathNode>>)
    ensures rows == Unconnected(heightmap).nodes
  {
    rows := [];
    var y := 0;
    while y < |heightmap|
      invariant 0 <= y <= |heightmap| && |rows| == y
      invariant forall j :: 0 <= j < y ==> rows[j] == Unconnected(heightmap).nodes[j]
    {
      var row: seq<PathNode> := [];
      var x := 0;
      while x < |heightmap[y]|
        invariant 0 <= x <= |heightmap[y]| && |row| == x
        invariant forall i :: 0 <= i < x ==> row[i] == PathNode(Vector2(i, y), heightmap[y][i], [])
      {
        row := row + [PathNode(Vector2(x, y), heightmap[y][x], [])];
        x := x + 1;
      }
      rows := rows + [row];
      y := y + 1;
    }
  }

  /** The second half of `buildGraph` on row `y`: each node of the row gets its connections. */
  method ConnectRow(heightmap: seq<seq<int>>, bare: PathGrid, y: nat) returns (row: seq<PathNode>)
    requires Buildable(heightmap) && bare == Unconnected(heightmap) && y < |heightmap|
    ensures row == Graph(heightmap).nodes[y]
  {
    row := bare.nodes[y];
    var x := 0;
    while x < |row|
      invariant |row| == |heightmap[y]| && 0 <= x <= |row|
      invariant forall i :: 0 <= i < x ==> row[i] == ConnectedNode(heightmap, i, y)
      invariant forall i :: x <= i < |row| ==> row[i] == bare.nodes[y][i]
    {
      var node := Connect(heightmap, bare, x, y);
      row := row[x := node];
      x := x + 1;
    }
  }

  /** The body of `forEachNode` in `buildGraph`: append each climbable cross neighbour, in order. */
  method Connect(heightmap: seq<seq<int>>, bare: PathGrid, x: nat, y: nat) returns (node: PathNode)
    requires Buildable(heightmap) && bare == Unconnected(heightmap) && y < |heightmap| && x < |heightmap[y]|
    ensures node == ConnectedNode(heightmap, x, y)
  {
    UnconnectedValid(heightmap);
    node := bare.nodes[y][x];
    var neighbours := bare.CrossNodes(x, y);
    node := ConnectClimbable(node, neighbours);
  }

  /** The loop over the neighbours: each one at most one above `node` becomes a connection. */
  method ConnectClimbable(node0: PathNode, neighbours: seq<PathNode>) returns (node: PathNode)
    ensures node == node0.(connections := node0.connections + Climbable(neighbours, node0.height))
  {
    node := node0;
    var k := 0;
    while k < |neighbours|
      invariant 0 <= k <= |neighbours|
      invariant node == node0.(connections := node0.connections + Climbable(neighbours[..k], node0.height))
    {
      assert neighbours[..k + 1][..k] == neighbours[..k];
      if neighbours[k].height <= node.height + 1 {
        node := node.(connections := node.connections + [neighbours[k].Ref()]);
      }
      k := k + 1;
    }
    assert neighbours[..k] == neighbours;
  }

  lemma UnconnectedValid(heightmap: seq<seq<int>>)
    requires Buildable(heightmap)
    ensures Unconnected(heightmap).Valid()
  {
  }

  /** The finished graph has the shape `getNode` relies on, spanning the height map. */
  lemma GraphValid(heightmap: seq<seq<int>>)
    requires Buildable(heightmap)
    ensures Graph(heightmap).Valid() && Unconnected(heightmap).Valid()
    ensures Graph(heightmap).MaxX() == |heightmap[0]| - 1 && Graph(heightmap).MaxY() == |heightmap| - 1
  {
    UnconnectedValid(heightmap);
  }

  /**
   * A connection of the node at `(x, y)` is exactly an up, down, left or right neighbour inside the
   * map whose height is at most one above this node's.
   */
  lemma ConnectionIff(heightmap: seq<seq<int>>, x: nat, y: nat, ref: NodeRef)
    requires Buildable(heightmap) && y < |heightmap| && x < |heightmap[y]|
    ensures Graph(heightmap).nodes[y][x].coordinate == Vector2(x, y)
    ensures ref in Graph(heightmap).nodes[y][x].connections <==> ClimbableNeighbour(heightmap, x, y, ref)
  {
    assert Graph(heightmap).nodes[y][x] == ConnectedNode(heightmap, x, y);
    UnconnectedValid(heightmap);
    var bare := Unconnected(heightmap);
    if ref in Climbable(bare.CrossNodes(x, y), heightmap[y][x]) {
      var n :| n in bare.CrossNodes(x, y) && n.Ref() == ref && n.height <= heightmap[y][x] + 1;
      CrossNodesInBounds(bare, x, y, n);
    }
    if ClimbableNeighbour(heightmap, x, y, ref) {
      var c := ref.coordinate;
      var n := bare.nodes[c.y][c.x];
      CrossNodesInBounds(bare, x, y, n);
      assert n.Ref() == ref;
    }
  }

  /** `ref` is a cell next to `(x, y)`, inside the map, with its height, at most one above `(x, y)`. */
  predicate ClimbableNeighbour(heightmap: seq<seq<int>>, x: nat, y: nat, ref: NodeRef)
    requires y < |heightmap| && x < |heightmap[y]|
  {
    var c := ref.coordinate;
    && c in Cross(x, y)
    && 0 <= c.x < |heightmap[0]| && 0 <= c.y < |heightmap|
    && c.x < |heightmap[c.y]|
    && ref.height == heightmap[c.y][c.x]
    && ref.height <= heightmap[y][x] + 1
  }

  /**
   * Why a row shorter than the first makes `buildGraph` throw: the first such row lies below a
   * row at least as wide as the first, and the node of that row in the first missing column asks
   * `getNode` for the cell below it, which is inside `[0, maxX] x [0, maxY]` but past the end of its row.
   */
  lemma ShortRowIsQueried(heightmap: seq<seq<int>>, y: nat)
    requires |heightmap| > 0 && |heightmap[0]| > 0 && y < |heightmap| && |heightmap[y]| < |heightmap[0]|
    requires forall j :: 0 <= j < y ==> |heightmap[j]| >= |heightmap[0]|
    ensures y > 0
    ensures var x := |heightmap[y]|;
      && x < |heightmap[y - 1]|
      && Vector2(x, y) in Cross(x, y - 1)
      && 0 <= x < |heightmap[0]| && y < |heightmap|
      && x >= |heightmap[y]|
  {
  }
}
