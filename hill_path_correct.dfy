/**
 * What `calculateShortestPath` computes when only climbing from the start (`startAtAnyA` false):
 * with plain integer sums, every node's final distance is the fewest steps along connections
 * from the start, or `Int.MAX_VALUE` when it cannot be reached; with the source's 32-bit sums the
 * same holds as long as every node can be reached, and can fail otherwise.
 */
module HillPathCorrectness {
  import opened Vectors
  import opened Text
  import opened HillGraph
  import opened HillPath

  /** No two positions of the list hold nodes at the same coordinate, as in a grid. */
  predicate DistinctCoords(nodes: seq<PathNode>)
  {
    forall i, j :: 0 <= i < |nodes| && 0 <= j < |nodes| && nodes[i].coordinate == nodes[j].coordinate ==> i == j
  }

  /** The graph the search runs on: a grid's nodes, connected among themselves, holding the start. */
  predicate Searchable(nodes: seq<PathNode>, start: Vector2)
  {
    && DistinctCoords(nodes)
    && LinksInside(nodes)
    && start in Coords(nodes)
    && |nodes| <= IntMax
  }

  /** The coordinates one connection away from a coordinate of `from`. */
  function Next(nodes: seq<PathNode>, from: set<Vector2>): set<Vector2>
    decreases |nodes|
  {
    if nodes == [] then {}
    else
      var n := nodes[|nodes| - 1];
      Next(nodes[..|nodes| - 1], from) + (if n.coordinate in from then LinkCoords(n.connections) else {})
  }

  /** The coordinates some connections lead to. */
  function LinkCoords(links: seq<NodeRef>): set<Vector2>
  {
    set l | l in links :: l.coordinate
  }

  /** The coordinates reachable from `start` in at most `k` steps along connections. */
  function Reach(nodes: seq<PathNode>, start: Vector2, k: nat): set<Vector2>
  {
    if k == 0 then {start}
    else Reach(nodes, start, k - 1) + Next(nodes, Reach(nodes, start, k - 1))
  }

  /**
   * `d` is the fewest steps from the start to `c`, or at least `Int.MAX_VALUE` when `c` cannot be
   * reached at all.
   */
  ghost predicate Settled(nodes: seq<PathNode>, start: Vector2, c: Vector2, d: int)
  {
    && (d < IntMax ==> forall j: nat :: j < d ==> c !in Reach(nodes, start, j))
    && (d >= IntMax ==> forall j: nat :: c !in Reach(nodes, start, j))
  }

  /** Every node of the graph can be reached from the start. */
  ghost predicate AllReachable(nodes: seq<PathNode>, start: Vector2)
  {
    forall c :: c in Coords(nodes) ==> exists k: nat :: c in Reach(nodes, start, k)
  }

  // ---------------------------------------------------------------- reachability

  /** A connection from a node of `from` leads into `Next`. */
  lemma {:induction false} NextHas(nodes: seq<PathNode>, from: set<Vector2>, n: PathNode, l: NodeRef)
    requires n in nodes && n.coordinate in from && l in n.connections
    ensures l.coordinate in Next(nodes, from)
    decreases |nodes|
  {
    var front, last := nodes[..|nodes| - 1], nodes[|nodes| - 1];
    if n == last {
      assert l.coordinate in LinkCoords(last.connections);
    } else {
      var i :| 0 <= i < |nodes| && nodes[i] == n;
      assert front[i] == n;
      NextHas(front, from, n, l);
    }
  }

  /** Everything in `Next` is one connection away from a node of `from`. */
  lemma {:induction false} NextFrom(nodes: seq<PathNode>, from: set<Vector2>, c: Vector2) returns (n: PathNode, l: NodeRef)
    requires c in Next(nodes, from)
    ensures n in nodes && n.coordinate in from && l in n.connections && l.coordinate == c
    decreases |nodes|
  {
    var front, last := nodes[..|nodes| - 1], nodes[|nodes| - 1];
    if c in Next(front, from) {
      n, l := NextFrom(front, from, c);
      var i :| 0 <= i < |front| && front[i] == n;
      assert nodes[i] == n;
    } else {
      n := last;
      l :| l in last.connections && l.coordinate == c;
    }
  }

  /** A coordinate first reached at step `k` is one connection away from one reached at `k - 1`. */
  lemma Predecessor(nodes: seq<PathNode>, start: Vector2, k: nat, c: Vector2) returns (n: PathNode, l: NodeRef)
    requires k > 0 && c in Reach(nodes, start, k) && c !in Reach(nodes, start, k - 1)
    ensures n in nodes && n.coordinate in Reach(nodes, start, k - 1) && l in n.connections && l.coordinate == c
  {
    n, l := NextFrom(nodes, Reach(nodes, start, k - 1), c);
  }

  /** One connection from a coordinate reached at step `k` leads to one reached at `k + 1`. */
  lemma ReachOneMore(nodes: seq<PathNode>, start: Vector2, k: nat, n: PathNode, l: NodeRef)
    requires n in nodes && n.coordinate in Reach(nodes, start, k) && l in n.connections
    ensures l.coordinate in Reach(nodes, start, k + 1)
  {
    NextHas(nodes, Reach(nodes, start, k), n, l);
  }

  lemma {:induction false} ReachInside(nodes: seq<PathNode>, start: Vector2, k: nat)
    requires LinksInside(nodes) && start in Coords(nodes)
    ensures Reach(nodes, start, k) <= Coords(nodes)
  {
    if k > 0 {
      ReachInside(nodes, start, k - 1);
      forall c | c in Next(nodes, Reach(nodes, start, k - 1)) ensures c in Coords(nodes) {
        var n, l := NextFrom(nodes, Reach(nodes, start, k - 1), c);
      }
    }
  }

  lemma {:induction false} ReachGrows(nodes: seq<PathNode>, start: Vector2, a: nat, b: nat)
    requires a <= b
    ensures Reach(nodes, start, a) <= Reach(nodes, start, b)
    decreases b
  {
    if a < b {
      ReachGrows(nodes, start, a, b - 1);
    }
  }

  /** Once a step adds nothing, no later step does. */
  lemma {:induction false} ReachStable(nodes: seq<PathNode>, start: Vector2, i: nat, m: nat)
    requires Reach(nodes, start, i + 1) == Reach(nodes, start, i) && i <= m
    ensures Reach(nodes, start, m) == Reach(nodes, start, i)
    decreases m
  {
    if m > i {
      ReachStable(nodes, start, i, m - 1);
      ReachSame(nodes, start, m - 1, i);
    }
  }

  /** Steps that reach the same coordinates reach the same ones one step later. */
  lemma ReachSame(nodes: seq<PathNode>, start: Vector2, a: nat, b: nat)
    requires Reach(nodes, start, a) == Reach(nodes, start, b)
    ensures Reach(nodes, start, a + 1) == Reach(nodes, start, b + 1)
  {
  }

  /** Step `i + 1` reaches a coordinate that step `i` does not. */
  predicate Grows(nodes: seq<PathNode>, start: Vector2, i: nat)
  {
    Reach(nodes, start, i + 1) != Reach(nodes, start, i)
  }

  lemma ReachStrictlyGrows(nodes: seq<PathNode>, start: Vector2, i: nat)
    requires 0 < i && Grows(nodes, start, i - 1)
    ensures Reach(nodes, start, i - 1) <= Reach(nodes, start, i) && Reach(nodes, start, i - 1) != Reach(nodes, start, i)
  {
    ReachGrows(nodes, start, i - 1, i);
  }

  /** Set `i - 1` of the chain lies strictly inside set `i`. */
  predicate StrictlyBelow(chain: seq<set<Vector2>>, i: nat)
    requires 0 < i < |chain|
  {
    chain[i - 1] <= chain[i] && chain[i - 1] != chain[i]
  }

  /** A chain of strictly growing sets, the first one not empty, ends in a set at least as large as the chain is long. */
  lemma {:induction false} ChainCount(chain: seq<set<Vector2>>)
    requires |chain| >= 1 && |chain[0]| >= 1
    requires forall i :: 0 < i < |chain| ==> StrictlyBelow(chain, i)
    ensures |chain[|chain| - 1]| >= |chain|
  {
    if |chain| > 1 {
      var front := chain[..|chain| - 1];
      forall i | 0 < i < |front| ensures StrictlyBelow(front, i) {
        assert StrictlyBelow(chain, i);
      }
      ChainCount(front);
      assert StrictlyBelow(chain, |chain| - 1);
      SubsetGrows(chain[|chain| - 2], chain[|chain| - 1], |chain| - 1);
    }
  }

  /** A chain of strictly growing sets inside `bound`, the first one not empty, is no longer than `bound` is large. */
  lemma ChainInside(chain: seq<set<Vector2>>, bound: set<Vector2>)
    requires |chain| >= 1 && chain[0] != {}
    requires forall i :: 0 < i < |chain| ==> StrictlyBelow(chain, i)
    requires forall i :: 0 <= i < |chain| ==> chain[i] <= bound
    ensures |chain| <= |bound|
  {
    ChainCount(chain);
    SubsetCount(chain[|chain| - 1], bound);
  }

  lemma SubsetGrows(a: set<Vector2>, b: set<Vector2>, k: nat)
    requires a <= b && a != b && |a| >= k
    ensures |b| >= k + 1
  {
    var added := b - a;
    assert added != {};
    assert b == a + added;
  }

  lemma SubsetCount(a: set<Vector2>, b: set<Vector2>)
    requires a <= b
    ensures |a| <= |b|
  {
    assert b == a + (b - a);
  }

  lemma {:induction false} CoordsCount(nodes: seq<PathNode>)
    ensures |Coords(nodes)| <= |nodes|
    decreases |nodes|
  {
    if nodes != [] {
      var front := nodes[..|nodes| - 1];
      CoordsCount(front);
      assert Coords(nodes) == Coords(front) + {nodes[|nodes| - 1].coordinate} by {
        assert forall n :: n in nodes <==> n in front || n == nodes[|nodes| - 1];
      }
    }
  }

  /** Whatever can be reached at all can be reached in fewer steps than there are nodes. */
  lemma ReachBounded(nodes: seq<PathNode>, start: Vector2, j: nat)
    requires LinksInside(nodes) && start in Coords(nodes)
    ensures |nodes| >= 1
    ensures Reach(nodes, start, j) <= Reach(nodes, start, |nodes| - 1)
  {
    var last := |nodes| - 1;
    if j <= last {
      ReachGrows(nodes, start, j, last);
    } else if i: nat :| i <= last && !Grows(nodes, start, i) {
      ReachStable(nodes, start, i, j);
      ReachGrows(nodes, start, i, last);
    } else {
      ReachTooLong(nodes, start);
    }
  }

  /** `|nodes| + 1` strictly growing steps cannot all fit inside the graph. */
  lemma ReachTooLong(nodes: seq<PathNode>, start: Vector2)
    requires LinksInside(nodes) && start in Coords(nodes)
    ensures exists i: nat :: i < |nodes| && !Grows(nodes, start, i)
  {
    if forall i: nat :: i < |nodes| ==> Grows(nodes, start, i) {
      var chain := seq(|nodes| + 1, i requires 0 <= i <= |nodes| => Reach(nodes, start, i));
      assert start in chain[0];
      forall i | 0 < i < |chain| ensures StrictlyBelow(chain, i) {
        ReachStrictlyGrows(nodes, start, i);
      }
      forall i | 0 <= i < |chain| ensures chain[i] <= Coords(nodes) {
        ReachInside(nodes, start, i);
      }
      ChainInside(chain, Coords(nodes));
      CoordsCount(nodes);
      assert false;
    }
  }

  // ---------------------------------------------------------------- the loop invariant

  /** The part of the invariant about the shape of the state. */
  predicate Shape(nodes: seq<PathNode>, start: Vector2, unvisited: seq<PathNode>, t: DistTable)
  {
    && Searchable(nodes, start)
    && t.Keys == Coords(nodes)
    && (forall n :: n in unvisited ==> n in nodes)
    && DistinctCoords(unvisited)
    && t[start] == 0
  }

  /** The part of `Shape` the frontier argument needs: which coordinates have entries. */
  predicate Keys(nodes: seq<PathNode>, start: Vector2, unvisited: seq<PathNode>, t: DistTable)
  {
    && LinksInside(nodes)
    && start in Coords(nodes)
    && t.Keys == Coords(nodes)
    && (forall n :: n in unvisited ==> n in nodes)
    && t[start] == 0
  }

  /** Every tentative distance is the length of some path, or `Int.MAX_VALUE`. */
  predicate Bounded(nodes: seq<PathNode>, start: Vector2, t: DistTable)
  {
    forall c :: c in t ==> 0 <= t[c] <= IntMax && (t[c] < IntMax ==> c in Reach(nodes, start, t[c]))
  }

  /** The connections of every visited, reached node have been relaxed. */
  predicate Relaxed(nodes: seq<PathNode>, unvisited: seq<PathNode>, t: DistTable)
  {
    forall n, l :: n in nodes && l in n.connections && n.coordinate in t && l.coordinate in t
      && n.coordinate !in Coords(unvisited) && t[n.coordinate] < IntMax
      ==> t[l.coordinate] <= t[n.coordinate] + 1
  }

  /** Every visited node's distance is final. */
  ghost predicate Final(nodes: seq<PathNode>, start: Vector2, unvisited: seq<PathNode>, t: DistTable)
  {
    forall c :: c in t && c !in Coords(unvisited) ==> Settled(nodes, start, c, t[c])
  }

  ghost predicate Inv(nodes: seq<PathNode>, start: Vector2, unvisited: seq<PathNode>, t: DistTable)
  {
    && Shape(nodes, start, unvisited, t)
    && Bounded(nodes, start, t)
    && Relaxed(nodes, unvisited, t)
    && Final(nodes, start, unvisited, t)
  }

  lemma InvKeyed(nodes: seq<PathNode>, start: Vector2, unvisited: seq<PathNode>, t: DistTable)
    requires Shape(nodes, start, unvisited, t)
    ensures Keyed(t, unvisited) && LinksKeyed(t, unvisited)
  {
  }

  /** The setup establishes the invariant, nothing being visited yet. */
  lemma InitialInv(nodes: seq<PathNode>, start: Vector2)
    requires Searchable(nodes, start)
    ensures Inv(nodes, start, nodes, InitialTable(nodes, start))
  {
  }

  // ---------------------------------------------------------------- one step

  /**
   * Dijkstra's frontier argument: a coordinate reachable in `k` steps is either visited with a
   * distance of at most `k`, or the closest unvisited node is at most `k` away.
   */
  lemma {:induction false} Frontier(nodes: seq<PathNode>, start: Vector2, unvisited: seq<PathNode>, t: DistTable,
                                    u: PathNode, k: nat, c: Vector2)
    requires Keys(nodes, start, unvisited, t) && Relaxed(nodes, unvisited, t)
    requires u in unvisited && forall x :: x in unvisited ==> t[u.coordinate] <= t[x.coordinate]
    requires k < IntMax && c in Reach(nodes, start, k)
    ensures (c in t && c !in Coords(unvisited) && t[c] <= k) || t[u.coordinate] <= k
    decreases k, 1
  {
    if k == 0 {
      if start in Coords(unvisited) {
        MinimumBelow(unvisited, t, u, start);
      }
    } else if c in Reach(nodes, start, k - 1) {
      Frontier(nodes, start, unvisited, t, u, k - 1, c);
    } else {
      var n, l := Predecessor(nodes, start, k, c);
      FrontierVia(nodes, start, unvisited, t, u, k, n, l);
    }
  }

  /** `Frontier` for a coordinate one connection away from a node reached in `k - 1` steps. */
  lemma {:induction false} FrontierVia(nodes: seq<PathNode>, start: Vector2, unvisited: seq<PathNode>, t: DistTable,
                                       u: PathNode, k: nat, n: PathNode, l: NodeRef)
    requires Keys(nodes, start, unvisited, t) && Relaxed(nodes, unvisited, t)
    requires u in unvisited && forall x :: x in unvisited ==> t[u.coordinate] <= t[x.coordinate]
    requires 0 < k < IntMax && n in nodes && n.coordinate in Reach(nodes, start, k - 1) && l in n.connections
    ensures (l.coordinate in t && l.coordinate !in Coords(unvisited) && t[l.coordinate] <= k) || t[u.coordinate] <= k
    decreases k, 0
  {
    Frontier(nodes, start, unvisited, t, u, k - 1, n.coordinate);
    FrontierEdge(nodes, start, unvisited, t, u, k, n, l);
  }

  /** The step of `Frontier` along one connection, from a node that is at most `k - 1` away. */
  lemma FrontierEdge(nodes: seq<PathNode>, start: Vector2, unvisited: seq<PathNode>, t: DistTable,
                     u: PathNode, k: nat, n: PathNode, l: NodeRef)
    requires Keys(nodes, start, unvisited, t) && Relaxed(nodes, unvisited, t)
    requires u in unvisited && forall x :: x in unvisited ==> t[u.coordinate] <= t[x.coordinate]
    requires 0 < k < IntMax && n in nodes && l in n.connections
    requires (n.coordinate in t && n.coordinate !in Coords(unvisited) && t[n.coordinate] <= k - 1) || t[u.coordinate] <= k - 1
    ensures (l.coordinate in t && l.coordinate !in Coords(unvisited) && t[l.coordinate] <= k) || t[u.coordinate] <= k
  {
    if t[u.coordinate] > k - 1 && l.coordinate in Coords(unvisited) {
      MinimumBelow(unvisited, t, u, l.coordinate);
    }
  }

  /** The closest unvisited node is no further than any unvisited coordinate. */
  lemma MinimumBelow(unvisited: seq<PathNode>, t: DistTable, u: PathNode, c: Vector2)
    requires Keyed(t, unvisited) && u in unvisited && forall x :: x in unvisited ==> t[u.coordinate] <= t[x.coordinate]
    requires c in Coords(unvisited)
    ensures c in t && t[u.coordinate] <= t[c]
  {
    var x :| x in unvisited && x.coordinate == c;
  }

  /** The node the scan selects has its final distance. */
  lemma SelectedSettled(nodes: seq<PathNode>, start: Vector2, unvisited: seq<PathNode>, t: DistTable)
    requires Inv(nodes, start, unvisited, t) && unvisited != []
    ensures var u := unvisited[Closest(unvisited, t)];
      u.coordinate in t && Settled(nodes, start, u.coordinate, t[u.coordinate])
  {
    var u := unvisited[Closest(unvisited, t)];
    ClosestIsFirstMinimum(unvisited, t);
    assert forall x :: x in unvisited ==> t[u.coordinate] <= t[x.coordinate] by {
      forall x | x in unvisited ensures t[u.coordinate] <= t[x.coordinate] {
        var j :| 0 <= j < |unvisited| && unvisited[j] == x;
        assert DistAt(t, unvisited, j) == t[x.coordinate];
      }
    }
    var d := t[u.coordinate];
    if d < IntMax {
      forall j: nat | j < d ensures u.coordinate !in Reach(nodes, start, j) {
        if u.coordinate in Reach(nodes, start, j) {
          Frontier(nodes, start, unvisited, t, u, j, u.coordinate);
        }
      }
    } else {
      forall j: nat ensures u.coordinate !in Reach(nodes, start, j) {
        if u.coordinate in Reach(nodes, start, j) {
          ReachBounded(nodes, start, j);
          Frontier(nodes, start, unvisited, t, u, |nodes| - 1, u.coordinate);
        }
      }
    }
  }

  /** The coordinates the connections lead to. */
  function Targets(links: seq<NodeRef>): set<Vector2>
  {
    set l | l in links :: l.coordinate
  }

  /**
   * Relaxing with plain sums and without `startAtAnyA`, at one coordinate: the selected node keeps
   * its distance, the distance does not grow, and if it shrinks it becomes the selected node's
   * plus one and the coordinate is a connection's.
   */
  lemma {:induction false} RelaxAt(links: seq<NodeRef>, from: Vector2, t: DistTable, c: Vector2)
    requires from in t && c in t && forall l :: l in links ==> l.coordinate in t
    ensures var r := Relax(links, from, t, false, false);
      && r[from] == t[from]
      && r[c] <= t[c]
      && (r[c] < t[c] ==> r[c] == t[from] + 1 && c in Targets(links))
    decreases |links|
  {
    if links != [] {
      var once := RelaxOne(links[0], from, t, false, false);
      RelaxAt(links[1..], from, once, c);
      var r := Relax(links, from, t, false, false);
      if r[c] < t[c] {
        if r[c] < once[c] {
          var l :| l in links[1..] && l.coordinate == c;
          assert l in links;
        } else {
          assert links[0] in links;
        }
      }
    }
  }

  /** After relaxing, every connection ends at most one step further than the selected node. */
  lemma {:induction false} RelaxReaches(links: seq<NodeRef>, from: Vector2, t: DistTable, l: NodeRef)
    requires from in t && forall l' :: l' in links ==> l'.coordinate in t
    requires l in links
    ensures Relax(links, from, t, false, false)[l.coordinate] <= t[from] + 1
    decreases |links|
  {
    var once := RelaxOne(links[0], from, t, false, false);
    if links[0] == l {
      RelaxAt(links[1..], from, once, l.coordinate);
    } else {
      RelaxReaches(links[1..], from, once, l);
    }
  }

  lemma {:induction false} RemoveFirstAt(s: seq<PathNode>, i: nat)
    requires i < |s| && forall j :: 0 <= j < i ==> s[j] != s[i]
    ensures RemoveFirst(s, s[i]) == s[..i] + s[i + 1..]
  {
    if i > 0 {
      var tail := s[1..];
      TailDistinctBefore(s, i);
      RemoveFirstAt(tail, i - 1);
      RemoveFirstSkips(s, s[i]);
      JoinFront(s, i);
    }
  }

  lemma TailDistinctBefore(s: seq<PathNode>, i: nat)
    requires 0 < i < |s| && forall j :: 0 <= j < i ==> s[j] != s[i]
    ensures forall j :: 0 <= j < i - 1 ==> s[1..][j] != s[1..][i - 1]
    ensures s[0] != s[i]
  {
    forall j | 0 <= j < i - 1 ensures s[1..][j] != s[1..][i - 1] {
      assert s[1..][j] == s[j + 1];
    }
  }

  /** Looking past a first element that is not `x`. */
  lemma RemoveFirstSkips(s: seq<PathNode>, x: PathNode)
    requires s != [] && s[0] != x
    ensures RemoveFirst(s, x) == [s[0]] + RemoveFirst(s[1..], x)
  {
  }

  lemma JoinFront(s: seq<PathNode>, i: nat)
    requires 0 < i < |s|
    ensures [s[0]] + (s[1..][..i - 1] + s[1..][i..]) == s[..i] + s[i + 1..]
  {
    assert s[1..][..i - 1] == s[1..i] && s[1..][i..] == s[i + 1..];
    assert [s[0]] + s[1..i] == s[..i];
  }

  /** Removing the node at `i` from a list with distinct coordinates removes exactly its coordinate. */
  lemma RemoveNode(unvisited: seq<PathNode>, i: nat)
    requires DistinctCoords(unvisited) && i < |unvisited|
    ensures var rest := RemoveFirst(unvisited, unvisited[i]);
      && DistinctCoords(rest)
      && Coords(rest) == Coords(unvisited) - {unvisited[i].coordinate}
      && (forall n :: n in rest ==> n in unvisited)
  {
    RemoveFirstAt(unvisited, i);
    var rest := unvisited[..i] + unvisited[i + 1..];
    Skipped(unvisited, i);
    RemovedDistinct(unvisited, i, rest);
    RemovedCoords(unvisited, i, rest);
  }

  /** Where each remaining node came from. */
  lemma Skipped(s: seq<PathNode>, i: nat)
    requires i < |s|
    ensures var rest := s[..i] + s[i + 1..];
      |rest| == |s| - 1 && forall j :: 0 <= j < |rest| ==> rest[j] == s[if j < i then j else j + 1]
  {
  }

  lemma RemovedDistinct(s: seq<PathNode>, i: nat, rest: seq<PathNode>)
    requires DistinctCoords(s) && i < |s|
    requires |rest| == |s| - 1 && forall j :: 0 <= j < |rest| ==> rest[j] == s[if j < i then j else j + 1]
    ensures DistinctCoords(rest)
  {
    forall j, j' | 0 <= j < |rest| && 0 <= j' < |rest| && rest[j].coordinate == rest[j'].coordinate
      ensures j == j'
    {
      var a, b := if j < i then j else j + 1, if j' < i then j' else j' + 1;
      assert s[a].coordinate == s[b].coordinate;
    }
  }

  lemma RemovedCoords(s: seq<PathNode>, i: nat, rest: seq<PathNode>)
    requires DistinctCoords(s) && i < |s|
    requires |rest| == |s| - 1 && forall j :: 0 <= j < |rest| ==> rest[j] == s[if j < i then j else j + 1]
    ensures Coords(rest) == Coords(s) - {s[i].coordinate}
    ensures forall n :: n in rest ==> n in s
  {
    forall n | n in rest ensures n in s && n.coordinate != s[i].coordinate {
      var j :| 0 <= j < |rest| && rest[j] == n;
      var a := if j < i then j else j + 1;
      assert s[a] == n;
    }
    forall c | c in Coords(s) - {s[i].coordinate} ensures c in Coords(rest) {
      var n :| n in s && n.coordinate == c;
      var j :| 0 <= j < |s| && s[j] == n;
      assert rest[if j < i then j else j - 1] == n;
    }
  }

  /** In a list with distinct coordinates, a coordinate names one node. */
  lemma SameNode(nodes: seq<PathNode>, n: PathNode, m: PathNode)
    requires DistinctCoords(nodes) && n in nodes && m in nodes && n.coordinate == m.coordinate
    ensures n == m
  {
    var a :| 0 <= a < |nodes| && nodes[a] == n;
    var b :| 0 <= b < |nodes| && nodes[b] == m;
  }

  /** A node whose distance is final keeps it through the relaxation of another node's connections. */
  lemma VisitedUnchanged(nodes: seq<PathNode>, start: Vector2, t: DistTable, u: PathNode, c: Vector2)
    requires u in nodes && u.coordinate in t && forall l :: l in u.connections ==> l.coordinate in t
    requires 0 <= t[u.coordinate] && (t[u.coordinate] < IntMax ==> u.coordinate in Reach(nodes, start, t[u.coordinate]))
    requires c in t && t[c] <= IntMax && Settled(nodes, start, c, t[c])
    ensures Relax(u.connections, u.coordinate, t, false, false)[c] == t[c]
  {
    var r := Relax(u.connections, u.coordinate, t, false, false);
    RelaxAt(u.connections, u.coordinate, t, c);
    if r[c] < t[c] {
      var l :| l in u.connections && l.coordinate == c;
      ReachOneMore(nodes, start, t[u.coordinate], u, l);
    }
  }

  lemma StepShape(nodes: seq<PathNode>, start: Vector2, unvisited: seq<PathNode>, t: DistTable, i: nat)
    requires Shape(nodes, start, unvisited, t) && Bounded(nodes, start, t) && i < |unvisited|
    ensures var u := unvisited[i];
      Shape(nodes, start, RemoveFirst(unvisited, u), Relax(u.connections, u.coordinate, t, false, false))
  {
    var u := unvisited[i];
    RemoveNode(unvisited, i);
    RelaxAt(u.connections, u.coordinate, t, start);
  }

  lemma StepBounded(nodes: seq<PathNode>, start: Vector2, t: DistTable, u: PathNode)
    requires Bounded(nodes, start, t) && u in nodes
    requires u.coordinate in t && forall l :: l in u.connections ==> l.coordinate in t
    ensures Bounded(nodes, start, Relax(u.connections, u.coordinate, t, false, false))
  {
    var r := Relax(u.connections, u.coordinate, t, false, false);
    forall c | c in r ensures 0 <= r[c] <= IntMax && (r[c] < IntMax ==> c in Reach(nodes, start, r[c])) {
      BoundedAt(nodes, start, t, u, c);
    }
  }

  /** A distance lowered by the relaxation is still the length of a path. */
  lemma BoundedAt(nodes: seq<PathNode>, start: Vector2, t: DistTable, u: PathNode, c: Vector2)
    requires u in nodes && u.coordinate in t && forall l :: l in u.connections ==> l.coordinate in t
    requires 0 <= t[u.coordinate] <= IntMax && (t[u.coordinate] < IntMax ==> u.coordinate in Reach(nodes, start, t[u.coordinate]))
    requires c in t && 0 <= t[c] <= IntMax && (t[c] < IntMax ==> c in Reach(nodes, start, t[c]))
    ensures var r := Relax(u.connections, u.coordinate, t, false, false);
      0 <= r[c] <= IntMax && (r[c] < IntMax ==> c in Reach(nodes, start, r[c]))
  {
    var r := Relax(u.connections, u.coordinate, t, false, false);
    RelaxAt(u.connections, u.coordinate, t, c);
    if r[c] < t[c] {
      var l :| l in u.connections && l.coordinate == c;
      ReachOneMore(nodes, start, t[u.coordinate], u, l);
      assert r[c] == t[u.coordinate] + 1;
      assert 0 <= r[c] <= IntMax && c in Reach(nodes, start, r[c]);
    } else {
      assert r[c] == t[c];
      assert 0 <= r[c] <= IntMax && (r[c] < IntMax ==> c in Reach(nodes, start, r[c]));
    }
  }

  lemma StepFinal(nodes: seq<PathNode>, start: Vector2, unvisited: seq<PathNode>, t: DistTable)
    requires Inv(nodes, start, unvisited, t) && unvisited != []
    ensures var i := Closest(unvisited, t); var u := unvisited[i];
      Final(nodes, start, RemoveFirst(unvisited, u), Relax(u.connections, u.coordinate, t, false, false))
  {
    var i := Closest(unvisited, t);
    var u := unvisited[i];
    var r := Relax(u.connections, u.coordinate, t, false, false);
    RemoveNode(unvisited, i);
    SelectedSettled(nodes, start, unvisited, t);
    forall c | c in r && c !in Coords(RemoveFirst(unvisited, u)) ensures Settled(nodes, start, c, r[c]) {
      if c == u.coordinate {
        RelaxAt(u.connections, u.coordinate, t, c);
      } else {
        VisitedUnchanged(nodes, start, t, u, c);
      }
    }
  }

  lemma StepRelaxed(nodes: seq<PathNode>, start: Vector2, unvisited: seq<PathNode>, t: DistTable)
    requires Inv(nodes, start, unvisited, t) && unvisited != []
    ensures var i := Closest(unvisited, t); var u := unvisited[i];
      Relaxed(nodes, RemoveFirst(unvisited, u), Relax(u.connections, u.coordinate, t, false, false))
  {
    var i := Closest(unvisited, t);
    var u := unvisited[i];
    RemoveNode(unvisited, i);
    RelaxedWithout(nodes, start, unvisited, t, u, RemoveFirst(unvisited, u));
  }

  /** Relaxing the connections of `u` keeps every visited node relaxed once `u` counts as visited. */
  lemma RelaxedWithout(nodes: seq<PathNode>, start: Vector2, unvisited: seq<PathNode>, t: DistTable, u: PathNode,
                       rest: seq<PathNode>)
    requires Inv(nodes, start, unvisited, t) && u in unvisited
    requires Coords(rest) == Coords(unvisited) - {u.coordinate}
    ensures Relaxed(nodes, rest, Relax(u.connections, u.coordinate, t, false, false))
  {
    var r := Relax(u.connections, u.coordinate, t, false, false);
    forall n, l | n in nodes && l in n.connections && n.coordinate in r && l.coordinate in r
      && n.coordinate !in Coords(rest) && r[n.coordinate] < IntMax
      ensures r[l.coordinate] <= r[n.coordinate] + 1
    {
      StepRelaxedAt(nodes, start, unvisited, t, u, n, l);
    }
  }

  /** One connection of a node that is visited once `u` is removed. */
  lemma StepRelaxedAt(nodes: seq<PathNode>, start: Vector2, unvisited: seq<PathNode>, t: DistTable, u: PathNode,
                      n: PathNode, l: NodeRef)
    requires Inv(nodes, start, unvisited, t) && u in unvisited
    requires n in nodes && l in n.connections && (n.coordinate == u.coordinate || n.coordinate !in Coords(unvisited))
    ensures var r := Relax(u.connections, u.coordinate, t, false, false);
      r[n.coordinate] < IntMax ==> r[l.coordinate] <= r[n.coordinate] + 1
  {
    if n.coordinate == u.coordinate {
      SelectedRelaxed(nodes, start, unvisited, t, u, n, l);
    } else {
      RelaxedAt(nodes, start, unvisited, t, u, n, l);
    }
  }

  /** The connections of the selected node are relaxed once it is removed. */
  lemma SelectedRelaxed(nodes: seq<PathNode>, start: Vector2, unvisited: seq<PathNode>, t: DistTable, u: PathNode,
                        n: PathNode, l: NodeRef)
    requires Shape(nodes, start, unvisited, t) && u in unvisited
    requires n in nodes && l in n.connections && n.coordinate == u.coordinate
    ensures var r := Relax(u.connections, u.coordinate, t, false, false);
      r[l.coordinate] <= r[n.coordinate] + 1
  {
    InvKeyed(nodes, start, unvisited, t);
    SameNode(nodes, n, u);
    RelaxAt(u.connections, u.coordinate, t, u.coordinate);
    RelaxReaches(u.connections, u.coordinate, t, l);
  }

  /** A visited node other than the selected one keeps its distance, and its connections stay relaxed. */
  lemma RelaxedAt(nodes: seq<PathNode>, start: Vector2, unvisited: seq<PathNode>, t: DistTable, u: PathNode,
                  n: PathNode, l: NodeRef)
    requires Inv(nodes, start, unvisited, t) && u in unvisited
    requires n in nodes && l in n.connections && n.coordinate !in Coords(unvisited)
    ensures var r := Relax(u.connections, u.coordinate, t, false, false);
      r[n.coordinate] < IntMax ==> r[l.coordinate] <= r[n.coordinate] + 1
  {
    RelaxAt(u.connections, u.coordinate, t, l.coordinate);
    VisitedUnchanged(nodes, start, t, u, n.coordinate);
  }

  /** One turn of the main loop keeps the invariant. */
  lemma Step(nodes: seq<PathNode>, start: Vector2, unvisited: seq<PathNode>, t: DistTable)
    requires Inv(nodes, start, unvisited, t) && unvisited != []
    ensures var u := unvisited[Closest(unvisited, t)];
      Inv(nodes, start, RemoveFirst(unvisited, u), Relax(u.connections, u.coordinate, t, false, false))
  {
    var i := Closest(unvisited, t);
    StepShape(nodes, start, unvisited, t, i);
    StepBounded(nodes, start, t, unvisited[i]);
    StepFinal(nodes, start, unvisited, t);
    StepRelaxed(nodes, start, unvisited, t);
  }

  /** The main loop run to the end keeps the invariant, visiting every node. */
  lemma {:induction false} ExploreInv(nodes: seq<PathNode>, start: Vector2, unvisited: seq<PathNode>, t: DistTable)
    requires Inv(nodes, start, unvisited, t)
    ensures Keyed(t, unvisited) && LinksKeyed(t, unvisited)
    ensures Inv(nodes, start, [], Explore(unvisited, t, false, false))
    decreases |unvisited|
  {
    if unvisited != [] {
      var u := unvisited[Closest(unvisited, t)];
      Step(nodes, start, unvisited, t);
      ExploreInv(nodes, start, RemoveFirst(unvisited, u), Relax(u.connections, u.coordinate, t, false, false));
    }
  }

  /**
   * The search with plain sums, climbing from the start: the result is -1 for an end off the
   * grid, and otherwise the fewest steps from the start to the end along connections, or
   * `Int.MAX_VALUE` when the end cannot be reached.
   */
  lemma ShortestPathCorrect(nodes: seq<PathNode>, start: Vector2, end: Vector2)
    requires Searchable(nodes, start)
    ensures var steps := ShortestPath(nodes, start, end, false, false);
      && (end !in Coords(nodes) ==> steps == -1)
      && (end in Coords(nodes) ==>
            && 0 <= steps <= IntMax
            && Settled(nodes, start, end, steps)
            && (steps < IntMax ==> end in Reach(nodes, start, steps)))
  {
    InitialInv(nodes, start);
    ExploreInv(nodes, start, nodes, InitialTable(nodes, start));
  }

  /** The way from the start to itself takes no steps. */
  lemma StartToItself(nodes: seq<PathNode>, start: Vector2)
    requires Searchable(nodes, start)
    ensures ShortestPath(nodes, start, start, false, false) == 0
  {
    ShortestPathCorrect(nodes, start, start);
    var steps := ShortestPath(nodes, start, start, false, false);
    assert start in Reach(nodes, start, 0);
  }

  // ---------------------------------------------------------------- the 32-bit sums

  /** With a distance below `Int.MAX_VALUE`, the 32-bit relaxation is the plain one. */
  lemma {:induction false} RelaxAgrees(links: seq<NodeRef>, from: Vector2, t: DistTable)
    requires from in t && forall l :: l in links ==> l.coordinate in t
    requires 0 <= t[from] < IntMax
    ensures Relax(links, from, t, false, true) == Relax(links, from, t, false, false)
    decreases |links|
  {
    if links != [] {
      RelaxAgrees(links[1..], from, RelaxOne(links[0], from, t, false, false));
    }
  }

  lemma {:induction false} ExploreAgrees(nodes: seq<PathNode>, start: Vector2, unvisited: seq<PathNode>, t: DistTable)
    requires Inv(nodes, start, unvisited, t) && AllReachable(nodes, start)
    ensures Keyed(t, unvisited) && LinksKeyed(t, unvisited)
    ensures Explore(unvisited, t, false, true) == Explore(unvisited, t, false, false)
    decreases |unvisited|
  {
    if unvisited != [] {
      var u := unvisited[Closest(unvisited, t)];
      SelectedSettled(nodes, start, unvisited, t);
      assert u.coordinate in Coords(nodes);
      var k: nat :| u.coordinate in Reach(nodes, start, k);
      RelaxAgrees(u.connections, u.coordinate, t);
      Step(nodes, start, unvisited, t);
      ExploreAgrees(nodes, start, RemoveFirst(unvisited, u), Relax(u.connections, u.coordinate, t, false, false));
    }
  }

  /**
   * When every node can be reached, no distance of a selected node is `Int.MAX_VALUE`, nothing
   * wraps around, and the search as written returns the fewest steps.
   */
  lemma AsWrittenAgreesWhenAllReachable(nodes: seq<PathNode>, start: Vector2, end: Vector2)
    requires Searchable(nodes, start) && AllReachable(nodes, start)
    ensures ShortestPathAsWritten(nodes, start, end, false) == ShortestPath(nodes, start, end, false, false)
  {
    InitialInv(nodes, start);
    ExploreAgrees(nodes, start, nodes, InitialTable(nodes, start));
  }
}
