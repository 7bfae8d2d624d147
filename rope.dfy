/**
 * The rope of knots (Day9.kt): the head follows unit steps, every other knot follows the
 * knot before it by the `moveKnot` rule, and the solver reports the positions of the last knot.
 */
module Rope {
  import opened Results
  import opened Vectors
  import opened Text

  /** The four step directions, declared in the order UP, DOWN, LEFT, RIGHT. */
  datatype Direction = Up | Down | Left | Right
  {
    function Code(): string
    {
      match this
      case Up => "U"
      case Down => "D"
      case Left => "L"
      case Right => "R"
    }

    function Diff(): Vector2
    {
      match this
      case Up => Vector2(0, 1)
      case Down => Vector2(0, -1)
      case Left => Vector2(-1, 0)
      case Right => Vector2(1, 0)
    }
  }

  /** `Direction.values()`, in declaration order. */
  const Directions: seq<Direction> := [Up, Down, Left, Right]

  /** `Direction.fromCode`: the direction with that code; any other code throws. */
  function FromCode(code: string): (r: Option<Direction>)
    ensures r.Some? <==> code == "U" || code == "D" || code == "L" || code == "R"
    ensures r.Some? ==> r.value.Code() == code
  {
    if code == "U" then Some(Up)
    else if code == "D" then Some(Down)
    else if code == "L" then Some(Left)
    else if code == "R" then Some(Right)
    else None
  }

  /** Every direction is decoded from its own code. */
  lemma FromCodeRoundTrip(d: Direction)
    ensures FromCode(d.Code()) == Some(d)
  {
  }

  function Abs(n: int): int
  {
    if n < 0 then -n else n
  }

  function Sign(n: int): int
  {
    if n > 0 then 1 else if n < 0 then -1 else 0
  }

  /** The check `abs(diff.x) <= 1 && abs(diff.y) <= 1` on a difference of positions. */
  predicate Adjacent(diff: Vector2)
  {
    -1 <= diff.x <= 1 && -1 <= diff.y <= 1
  }

  /** Two knots touch when they overlap or are neighbours, diagonals included. */
  predicate Touching(a: Vector2, b: Vector2)
  {
    Adjacent(a.Minus(b))
  }

  /** `Direction.values().find { ... }`: the first direction in `candidates` whose step restores adjacency. */
  function FindDirection(diff: Vector2, candidates: seq<Direction>): (r: Option<Direction>)
    ensures r.Some? ==> r.value in candidates && Adjacent(diff.Minus(r.value.Diff()))
    ensures r.None? ==> forall d :: d in candidates ==> !Adjacent(diff.Minus(d.Diff()))
    decreases |candidates|
  {
    if candidates == [] then None
    else if Adjacent(diff.Minus(candidates[0].Diff())) then Some(candidates[0])
    else FindDirection(diff, candidates[1..])
  }

  /**
   * `moveKnot`: where a knot that was at `prevTail` goes when the knot before it moved from
   * `prevHead` to `nextHead`. `None` is the `IllegalStateException` of the axis-aligned case.
   */
  function MoveKnot(prevHead: Vector2, nextHead: Vector2, prevTail: Vector2): Option<Vector2>
  {
    var diff := nextHead.Minus(prevTail);
    if Adjacent(diff) then Some(prevTail)
    else if Abs(diff.x) > 0 && Abs(diff.y) > 0 then
      var headDiff := nextHead.Minus(prevHead);
      if Abs(headDiff.x) > 0 && Abs(headDiff.y) > 0 then Some(prevTail.Plus(headDiff))
      else Some(prevHead)
    else
      match FindDirection(diff, Directions)
      case None => None
      case Some(d) => Some(prevTail.Plus(d.Diff()))
  }

  /** A knot that still touches the moved knot stays put. */
  lemma StaysWhenTouching(prevHead: Vector2, nextHead: Vector2, prevTail: Vector2)
    requires Touching(nextHead, prevTail)
    ensures MoveKnot(prevHead, nextHead, prevTail) == Some(prevTail)
  {
  }

  /** A diagonal gap after a diagonal move of the leader: the follower copies that move. */
  lemma MirrorsDiagonalMove(prevHead: Vector2, nextHead: Vector2, prevTail: Vector2)
    requires !Touching(nextHead, prevTail)
    requires nextHead.x != prevTail.x && nextHead.y != prevTail.y
    requires nextHead.x != prevHead.x && nextHead.y != prevHead.y
    ensures MoveKnot(prevHead, nextHead, prevTail) == Some(prevTail.Plus(nextHead.Minus(prevHead)))
  {
  }

  /** A diagonal gap after a straight (or no) move of the leader: the follower takes the leader's old place. */
  lemma TakesLeadersPlace(prevHead: Vector2, nextHead: Vector2, prevTail: Vector2)
    requires !Touching(nextHead, prevTail)
    requires nextHead.x != prevTail.x && nextHead.y != prevTail.y
    requires nextHead.x == prevHead.x || nextHead.y == prevHead.y
    ensures MoveKnot(prevHead, nextHead, prevTail) == Some(prevHead)
  {
  }

  /**
   * A gap along one axis: a gap of two is closed by one unit step towards the leader,
   * landing midway; any wider gap has no restoring direction and throws.
   */
  lemma AxisGap(prevHead: Vector2, nextHead: Vector2, prevTail: Vector2)
    requires !Touching(nextHead, prevTail)
    requires nextHead.x == prevTail.x || nextHead.y == prevTail.y
    ensures var gap := nextHead.Minus(prevTail);
      MoveKnot(prevHead, nextHead, prevTail) ==
        if Abs(gap.x) + Abs(gap.y) == 2 then Some(prevTail.Plus(Vector2(Sign(gap.x), Sign(gap.y))))
        else None
  {
    var gap := nextHead.Minus(prevTail);
    SearchesOnAxis(prevHead, nextHead, prevTail);
    AxisStep(gap.x, gap.y);
  }

  /** Off the diagonal, `moveKnot` takes the unit step the direction search finds. */
  lemma SearchesOnAxis(prevHead: Vector2, nextHead: Vector2, prevTail: Vector2)
    requires !Touching(nextHead, prevTail)
    requires nextHead.x == prevTail.x || nextHead.y == prevTail.y
    ensures MoveKnot(prevHead, nextHead, prevTail) == match FindDirection(nextHead.Minus(prevTail), Directions)
      case None => None
      case Some(d) => Some(prevTail.Plus(d.Diff()))
  {
  }

  /** The unit step the search finds for a gap along one axis, if any, as a vector. */
  lemma AxisStep(gx: int, gy: int)
    requires !Adjacent(Vector2(gx, gy)) && (gx == 0 || gy == 0)
    ensures (match FindDirection(Vector2(gx, gy), Directions)
      case None => None
      case Some(d) => Some(d.Diff()))
      == if Abs(gx) + Abs(gy) == 2 then Some(Vector2(Sign(gx), Sign(gy))) else None
  {
    AxisDirection(gx, gy);
    UnitTowards(gx, gy);
  }

  /** A gap of two along one axis points at one of the four unit steps. */
  lemma UnitTowards(gx: int, gy: int)
    requires !Adjacent(Vector2(gx, gy)) && (gx == 0 || gy == 0)
    ensures (if Abs(gx) + Abs(gy) == 2 then Some(Vector2(Sign(gx), Sign(gy))) else None)
      == if gx == 0 && gy == 2 then Some(Vector2(0, 1))
      else if gx == 0 && gy == -2 then Some(Vector2(0, -1))
      else if gx == -2 && gy == 0 then Some(Vector2(-1, 0))
      else if gx == 2 && gy == 0 then Some(Vector2(1, 0))
      else None
  {
  }

  /** The direction the search finds for a gap along one axis that is not adjacent. */
  lemma AxisDirection(gx: int, gy: int)
    requires !Adjacent(Vector2(gx, gy)) && (gx == 0 || gy == 0)
    ensures FindDirection(Vector2(gx, gy), Directions) ==
      if gx == 0 && gy == 2 then Some(Up)
      else if gx == 0 && gy == -2 then Some(Down)
      else if gx == -2 && gy == 0 then Some(Left)
      else if gx == 2 && gy == 0 then Some(Right)
      else None
  {
    AxisSteps(gx, gy);
    FindInEnumOrder(Vector2(gx, gy));
  }

  /** Which unit steps bring a non-adjacent gap along one axis back to adjacency. */
  lemma AxisSteps(gx: int, gy: int)
    requires !Adjacent(Vector2(gx, gy)) && (gx == 0 || gy == 0)
    ensures Adjacent(Vector2(gx, gy - 1)) <==> gx == 0 && gy == 2
    ensures Adjacent(Vector2(gx, gy + 1)) <==> gx == 0 && gy == -2
    ensures Adjacent(Vector2(gx + 1, gy)) <==> gx == -2 && gy == 0
    ensures Adjacent(Vector2(gx - 1, gy)) <==> gx == 2 && gy == 0
  {
  }

  /** The search over `Direction.values()` spelled out: UP, then DOWN, then LEFT, then RIGHT. */
  lemma FindInEnumOrder(diff: Vector2)
    ensures FindDirection(diff, Directions) ==
      if Adjacent(diff.Minus(Up.Diff())) then Some(Up)
      else if Adjacent(diff.Minus(Down.Diff())) then Some(Down)
      else if Adjacent(diff.Minus(Left.Diff())) then Some(Left)
      else if Adjacent(diff.Minus(Right.Diff())) then Some(Right)
      else None
  {
    assert Directions[1..] == [Down, Left, Right];
    assert Directions[1..][1..] == [Left, Right];
    assert Directions[1..][1..][1..] == [Right];
    assert Directions[1..][1..][1..][1..] == [];
  }

  /**
   * The follow rule keeps the rope together: if the follower touched the leader before, and the
   * leader moved by at most one cell in each axis, the rule does not throw, the follower touches
   * the leader again, and it moved by at most one cell in each axis itself.
   */
  lemma {:induction false} FollowKeepsTouching(prevHead: Vector2, nextHead: Vector2, prevTail: Vector2)
    requires Touching(prevHead, prevTail)
    requires Touching(nextHead, prevHead)
    ensures MoveKnot(prevHead, nextHead, prevTail).Some?
    ensures Touching(nextHead, MoveKnot(prevHead, nextHead, prevTail).value)
    ensures Touching(MoveKnot(prevHead, nextHead, prevTail).value, prevTail)
  {
    var diff := nextHead.Minus(prevTail);
    if !Adjacent(diff) && !(Abs(diff.x) > 0 && Abs(diff.y) > 0) {
      AxisGap(prevHead, nextHead, prevTail);
    }
  }

  /** Every knot touches the knot before it. */
  predicate Taut(rope: seq<Vector2>)
  {
    forall i :: 0 < i < |rope| ==> Touching(rope[i - 1], rope[i])
  }

  /**
   * The positions of the first `k` knots after one step, the head now at `newHead`:
   * each later knot follows by `MoveKnot` from the knot before it, as the inner loop of `simulateRope` does.
   */
  function FollowChain(rope: seq<Vector2>, newHead: Vector2, k: nat): (r: seq<Vector2>)
    requires 1 <= k <= |rope| && Taut(rope) && Touching(newHead, rope[0])
    ensures |r| == k && r[0] == newHead && Taut(r)
    ensures forall i :: 0 <= i < k ==> Touching(r[i], rope[i])
    decreases k
  {
    if k == 1 then [newHead]
    else
      var front := FollowChain(rope, newHead, k - 1);
      FollowKeepsTouching(rope[k - 2], front[k - 2], rope[k - 1]);
      front + [MoveKnot(rope[k - 2], front[k - 2], rope[k - 1]).value]
  }

  /** Knot `i` of the chain is fixed once the chain reaches it, and is the `MoveKnot` of the knot before. */
  lemma {:induction false} FollowChainAt(rope: seq<Vector2>, newHead: Vector2, k: nat, i: nat)
    requires 1 <= k <= |rope| && Taut(rope) && Touching(newHead, rope[0])
    requires 1 <= i < k
    ensures FollowChain(rope, newHead, k)[i - 1] == FollowChain(rope, newHead, i)[i - 1]
    ensures MoveKnot(rope[i - 1], FollowChain(rope, newHead, i)[i - 1], rope[i])
      == Some(FollowChain(rope, newHead, k)[i])
    decreases k
  {
    var front := FollowChain(rope, newHead, k - 1);
    assert FollowChain(rope, newHead, k)
      == front + [MoveKnot(rope[k - 2], front[k - 2], rope[k - 1]).value];
    if k > i + 1 {
      FollowChainAt(rope, newHead, k - 1, i);
    } else {
      FollowKeepsTouching(rope[i - 1], front[i - 1], rope[i]);
    }
  }

  /** The whole rope after one step of the head in direction `d`. */
  function StepRope(rope: seq<Vector2>, d: Direction): (r: seq<Vector2>)
    requires |rope| >= 1 && Taut(rope)
    ensures |r| == |rope| && Taut(r)
  {
    FollowChain(rope, rope[0].Plus(d.Diff()), |rope|)
  }

  /** The rope of `knots` knots, all starting at the origin, after the given steps. */
  function RopeAfter(knots: nat, steps: seq<Direction>): (r: seq<Vector2>)
    requires knots >= 1
    ensures |r| == knots && Taut(r)
    decreases |steps|
  {
    if steps == [] then seq(knots, _ => Origin)
    else StepRope(RopeAfter(knots, steps[..|steps| - 1]), steps[|steps| - 1])
  }

  /**
   * One step of the simulation, knot by knot: the head moves by the step's vector and each later
   * knot is the `MoveKnot` of the knot before it, which never takes the throwing branch.
   */
  lemma StepKnots(knots: nat, steps: seq<Direction>, s: nat, i: nat)
    requires knots >= 1 && s < |steps| && i < knots
    ensures var prev, next := RopeAfter(knots, steps[..s]), RopeAfter(knots, steps[..s + 1]);
      && (i == 0 ==> next[0] == prev[0].Plus(steps[s].Diff()))
      && (i > 0 ==> MoveKnot(prev[i - 1], next[i - 1], prev[i]) == Some(next[i]))
  {
    assert steps[..s + 1][..s] == steps[..s];
    var prev := RopeAfter(knots, steps[..s]);
    if i > 0 {
      FollowChainAt(prev, prev[0].Plus(steps[s].Diff()), knots, i);
    }
  }

  /** The sum of the direction vectors of the steps. */
  function Displacement(steps: seq<Direction>): Vector2
    decreases |steps|
  {
    if steps == [] then Origin else Displacement(steps[..|steps| - 1]).Plus(steps[|steps| - 1].Diff())
  }

  /** The head is always at the running sum of the step vectors. */
  lemma {:induction false} HeadFollowsSteps(knots: nat, steps: seq<Direction>)
    requires knots >= 1
    ensures RopeAfter(knots, steps)[0] == Displacement(steps)
    decreases |steps|
  {
    if steps != [] {
      HeadFollowsSteps(knots, steps[..|steps| - 1]);
    }
  }

  /** Between two steps every knot moves by at most one cell in each axis. */
  lemma KnotsMoveByOne(knots: nat, steps: seq<Direction>, s: nat, i: nat)
    requires knots >= 1 && s < |steps| && i < knots
    ensures Touching(RopeAfter(knots, steps[..s + 1])[i], RopeAfter(knots, steps[..s])[i])
  {
    assert steps[..s + 1][..s] == steps[..s];
  }

  /**
   * `simulateRope`: the history of the last knot, one position per step plus the start. A knot
   * count below one makes the source throw (`MutableList` of negative size, or `last()` of an empty list).
   */
  method SimulateRope(steps: seq<Direction>, knots: int) returns (r: Option<seq<Vector2>>)
    ensures r.Some? <==> knots >= 1
    ensures r.Some? ==> |r.value| == |steps| + 1 && r.value[0] == Origin
    ensures r.Some? ==> forall t :: 0 <= t <= |steps| ==> r.value[t] == RopeAfter(knots, steps[..t])[knots - 1]
  {
    if knots <= 0 {
      return None;
    }
    var coords: seq<seq<Vector2>> := seq(knots, _ => [Origin]);
    var s := 0;
    while s < |steps|
      invariant 0 <= s <= |steps| && |coords| == knots
      invariant forall j :: 0 <= j < knots ==> |coords[j]| == s + 1
      invariant forall j, t :: 0 <= j < knots && 0 <= t <= s ==> coords[j][t] == RopeAfter(knots, steps[..t])[j]
    {
      var next := MoveKnots(coords, steps, s, knots);
      coords := next;
      s := s + 1;
    }
    r := Some(coords[knots - 1]);
    assert steps[..0] == [];
  }

  /**
   * The inner loop of `simulateRope`: knot by knot, append each knot's position after step `s`,
   * the head's from the step's vector and every other knot's from `MoveKnot`.
   */
  method MoveKnots(coords: seq<seq<Vector2>>, steps: seq<Direction>, s: nat, knots: nat)
    returns (next: seq<seq<Vector2>>)
    requires knots >= 1 && s < |steps| && |coords| == knots
    requires forall j :: 0 <= j < knots ==> |coords[j]| == s + 1
    requires forall j :: 0 <= j < knots ==> coords[j][s] == RopeAfter(knots, steps[..s])[j]
    ensures |next| == knots
    ensures forall j :: 0 <= j < knots ==> next[j] == coords[j] + [RopeAfter(knots, steps[..s + 1])[j]]
  {
    ghost var after := RopeAfter(knots, steps[..s + 1]);
    next := coords;
    var k := 0;
    while k < knots
      invariant 0 <= k <= knots && |next| == knots
      invariant forall j :: 0 <= j < k ==> next[j] == coords[j] + [after[j]]
      invariant forall j :: k <= j < knots ==> next[j] == coords[j]
    {
      StepKnots(knots, steps, s, k);
      if k == 0 {
        var prevHead := next[0][s];
        var nextHead := prevHead.Plus(steps[s].Diff());
        next := next[0 := next[0] + [nextHead]];
      } else {
        var prevHead := next[k - 1][s];
        var nextHead := next[k - 1][s + 1];
        var prevTail := next[k][s];
        var nextTail := MoveKnot(prevHead, nextHead, prevTail).value;
        next := next[k := next[k] + [nextTail]];
      }
      k := k + 1;
    }
  }

  /** The distinct positions in a history (`toSet()`). */
  function Visited(history: seq<Vector2>): set<Vector2>
  {
    set i | 0 <= i < |history| :: history[i]
  }

  /** A history holds at most as many distinct positions as entries, and a non-empty one at least one. */
  lemma {:induction false} VisitedBounds(history: seq<Vector2>)
    ensures |Visited(history)| <= |history|
    ensures history != [] ==> 1 <= |Visited(history)|
    decreases |history|
  {
    if history != [] {
      var front := history[..|history| - 1];
      var last := history[|history| - 1];
      VisitedBounds(front);
      forall p
        ensures p in Visited(history) <==> p in Visited(front) + {last}
      {
        if p in Visited(history) {
          var i :| 0 <= i < |history| && history[i] == p;
          if i < |history| - 1 {
            assert front[i] == p;
          }
        }
        if p in Visited(front) {
          var i :| 0 <= i < |front| && front[i] == p;
          assert history[i] == p;
        }
      }
      assert Visited(history) == Visited(front) + {last};
    }
  }

  /** The tail's history `simulateRope` returns: its place after each prefix of the steps. */
  function TailHistory(knots: nat, steps: seq<Direction>): (h: seq<Vector2>)
    requires knots >= 1
  {
    seq(|steps| + 1, t requires 0 <= t <= |steps| => RopeAfter(knots, steps[..t])[knots - 1])
  }

  /**
   * The answer `part1` (two knots) and `part2` (ten knots) print: how many distinct places the
   * tail visits. It counts the origin and at most one new place per step.
   */
  function PositionsVisited(knots: nat, steps: seq<Direction>): (r: nat)
    requires knots >= 1
    ensures 1 <= r <= |steps| + 1
  {
    VisitedBounds(TailHistory(knots, steps));
    |Visited(TailHistory(knots, steps))|
  }

  /** A history with the tail's place after each prefix of the steps, as `SimulateRope` returns, is `TailHistory`. */
  lemma SimulatedHistory(knots: nat, steps: seq<Direction>, history: seq<Vector2>)
    requires knots >= 1 && |history| == |steps| + 1
    requires forall t :: 0 <= t <= |steps| ==> history[t] == RopeAfter(knots, steps[..t])[knots - 1]
    ensures history == TailHistory(knots, steps)
    ensures PositionsVisited(knots, steps) == |Visited(history)|
  {
    var h := TailHistory(knots, steps);
    forall t | 0 <= t < |history|
      ensures history[t] == h[t]
    {
    }
  }

  /** A place is counted exactly when the tail stands there after some prefix of the steps. */
  lemma VisitedMeans(knots: nat, steps: seq<Direction>, p: Vector2)
    requires knots >= 1
    ensures p in Visited(TailHistory(knots, steps)) <==>
      exists t :: 0 <= t <= |steps| && RopeAfter(knots, steps[..t])[knots - 1] == p
    ensures Origin in Visited(TailHistory(knots, steps))
  {
    var h := TailHistory(knots, steps);
    assert steps[..0] == [];
    assert h[0] == Origin;
    if exists t :: 0 <= t <= |steps| && RopeAfter(knots, steps[..t])[knots - 1] == p {
      var t :| 0 <= t <= |steps| && RopeAfter(knots, steps[..t])[knots - 1] == p;
      assert h[t] == p;
    }
  }

  /** `List(n) { d }`: `n` copies of one direction. */
  function Repeat(d: Direction, n: nat): (r: seq<Direction>)
    ensures |r| == n && forall i :: 0 <= i < n ==> r[i] == d
  {
    seq(n, _ => d)
  }

  /** `parseSteps` on one line `"<code> <count>"`: `count` copies of the direction. */
  function ParseStepLine(line: string): (r: Option<seq<Direction>>)
  {
    var parts := Split(line, ' ');
    if |parts| < 2 then None
    else
      match ParseInt(parts[1])
      case None => None
      case Some(n) =>
        if n < 0 then None
        else if n == 0 then Some([])
        else
          match FromCode(parts[0])
          case None => None
          case Some(d) => Some(Repeat(d, n))
  }

  /** `parseSteps`: the lines' expansions, concatenated in line order; any bad line throws. */
  function ParseSteps(lines: seq<string>): (r: Option<seq<Direction>>)
    decreases |lines|
  {
    if lines == [] then Some([])
    else
      match ParseSteps(lines[..|lines| - 1])
      case None => None
      case Some(front) =>
        match ParseStepLine(lines[|lines| - 1])
        case None => None
        case Some(last) => Some(front + last)
  }

  /** A move as written in the input: a direction and a repeat count. */
  datatype Move = Move(dir: Direction, count: nat)

  function RenderMove(m: Move): string
  {
    m.dir.Code() + " " + NatToString(m.count)
  }

  /** The steps a list of moves stands for. */
  function Expand(moves: seq<Move>): seq<Direction>
    decreases |moves|
  {
    if moves == [] then []
    else Expand(moves[..|moves| - 1]) + Repeat(moves[|moves| - 1].dir, moves[|moves| - 1].count)
  }

  /** Parsing rendered moves expands each into that many copies of its direction, in order. */
  lemma {:induction false} ParseStepsRoundTrip(moves: seq<Move>)
    requires forall i :: 0 <= i < |moves| ==> moves[i].count <= IntMax
    ensures ParseSteps(seq(|moves|, i requires 0 <= i < |moves| => RenderMove(moves[i]))) == Some(Expand(moves))
    decreases |moves|
  {
    var lines := seq(|moves|, i requires 0 <= i < |moves| => RenderMove(moves[i]));
    if moves != [] {
      var init := moves[..|moves| - 1];
      assert lines[..|lines| - 1] == seq(|init|, i requires 0 <= i < |init| => RenderMove(init[i]));
      ParseStepsRoundTrip(init);
      ParseRenderedMove(moves[|moves| - 1]);
    }
  }

  /** One rendered line parses back to its expansion. */
  lemma ParseRenderedMove(m: Move)
    requires m.count <= IntMax
    ensures ParseStepLine(RenderMove(m)) == Some(Repeat(m.dir, m.count))
  {
    var parts := [m.dir.Code(), NatToString(m.count)];
    assert ' ' !in m.dir.Code();
    assert ' ' !in NatToString(m.count) by {
      forall i | 0 <= i < |NatToString(m.count)| ensures NatToString(m.count)[i] != ' ' {
      }
    }
    assert Join(parts, ' ') == RenderMove(m);
    SplitJoin(parts, ' ');
    ParseNatToString(m.count);
    FromCodeRoundTrip(m.dir);
  }
}
