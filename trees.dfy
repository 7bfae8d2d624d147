/**
 * Treetop tree house: a grid of tree heights, one row per input line (rows may differ in
 * length). A tree is visible from outside when, looking along some of the four directions,
 * every tree up to the edge is strictly shorter; its scenic score multiplies how far it can see
 * in each direction before a tree at least as tall blocks the view.
 */
module Trees {
  import opened Results
  import opened Seqs
  import opened Text

  /** A tree at column `x` of row `y`. */
  datatype Tree = Tree(x: int, y: int, height: int)

  /** `Tree(x, y, …)` comes before `other` in row-major order. */
  predicate Before(t: Tree, other: Tree)
  {
    t.y < other.y || (t.y == other.y && t.x < other.x)
  }

  predicate RowMajor(s: seq<Tree>)
  {
    forall i, j :: 0 <= i < j < |s| ==> Before(s[i], s[j])
  }

  /** The elements of `s` that satisfy `p`, in order. */
  function FilterSeq(s: seq<Tree>, p: Tree -> bool): (r: seq<Tree>)
    ensures |r| <= |s|
    ensures forall t :: t in r <==> t in s && p(t)
    decreases |s|
  {
    if s == [] then []
    else
      var n := |s| - 1;
      var front := FilterSeq(s[..n], p);
      assert forall t :: t in s <==> t in s[..n] || t == s[n];
      if p(s[n]) then front + [s[n]] else front
  }

  lemma {:induction false} FilterKeepsRowMajor(s: seq<Tree>, p: Tree -> bool)
    requires RowMajor(s)
    ensures RowMajor(FilterSeq(s, p))
    decreases |s|
  {
    if s != [] {
      var n := |s| - 1;
      assert RowMajor(s[..n]);
      FilterKeepsRowMajor(s[..n], p);
      var front := FilterSeq(s[..n], p);
      forall i | 0 <= i < |front| ensures Before(front[i], s[n]) {
        assert front[i] in s[..n];
      }
    }
  }

  /** `takeUntilInclusive`: the elements up to and including the first that satisfies `stop`. */
  function TakeUntilInclusive<T>(s: seq<T>, stop: T -> bool): (r: seq<T>)
    ensures |r| <= |s| && r == s[..|r|]
    ensures forall i :: 0 <= i < |r| - 1 ==> !stop(r[i])
    ensures |r| < |s| ==> r != [] && stop(r[|r| - 1])
    ensures s != [] ==> r != []
    ensures (forall i :: 0 <= i < |s| ==> !stop(s[i])) ==> r == s
    decreases |s|
  {
    if s == [] then []
    else if stop(s[0]) then [s[0]]
    else
      var rest := TakeUntilInclusive(s[1..], stop);
      assert forall i :: 1 <= i < |s| ==> s[1..][i - 1] == s[i];
      [s[0]] + rest
  }

  /** `takeUntilInclusive`, as the loop that collects items until one satisfies `stop`. */
  method CollectUntil<T>(s: seq<T>, stop: T -> bool) returns (collected: seq<T>)
    ensures collected == TakeUntilInclusive(s, stop)
  {
    collected := [];
    for i := 0 to |s|
      invariant collected == s[..i]
      invariant forall k :: 0 <= k < i ==> !stop(s[k])
    {
      collected := collected + [s[i]];
      if stop(s[i]) {
        TakeFirstStop(s, stop, i);
        return;
      }
    }
    assert s[..|s|] == s;
  }

  /** The prefix taken ends at the first element that satisfies `stop`. */
  lemma {:induction false} TakeFirstStop<T>(s: seq<T>, stop: T -> bool, i: nat)
    requires i < |s| && stop(s[i]) && forall k :: 0 <= k < i ==> !stop(s[k])
    ensures TakeUntilInclusive(s, stop) == s[..i + 1]
    decreases i
  {
    if i > 0 {
      TakeFirstStop(s[1..], stop, i - 1);
      assert [s[0]] + s[1..][..i] == s[..i + 1];
    }
  }

  /** The four keys of `treesInCross`. */
  datatype Direction = Left | Right | Up | Down

  /** The `groupBy` key of a tree in the cross around `(x, y)`. */
  function DirectionOf(t: Tree, x: int, y: int): Direction
  {
    if t.x < x then Left else if t.x > x then Right else if t.y < y then Up else Down
  }

  /** The cross around `(x, y)`: the same row or column, without the tree itself. */
  predicate InCross(t: Tree, x: int, y: int)
  {
    !(t.x == x && t.y == y) && (t.x == x || t.y == y)
  }

  function RowCells(y: nat, row: seq<int>): (r: seq<Tree>)
    ensures |r| == |row|
  {
    seq(|row|, x requires 0 <= x < |row| => Tree(x, y, row[x]))
  }

  /** Every tree of the grid, row by row, as `filter` and `map` visit them. */
  function Cells(trees: seq<seq<int>>): seq<Tree>
    decreases |trees|
  {
    if trees == [] then [] else Cells(trees[..|trees| - 1]) + RowCells(|trees| - 1, trees[|trees| - 1])
  }

  /** The cell at `(x, y)` holds a tree of the given height. */
  predicate IsCell(trees: seq<seq<int>>, t: Tree)
  {
    0 <= t.y < |trees| && 0 <= t.x < |trees[t.y]| && t.height == trees[t.y][t.x]
  }

  /** The visit holds every cell exactly once, in row-major order. */
  lemma {:induction false} CellsAreTheGrid(trees: seq<seq<int>>)
    ensures forall t :: t in Cells(trees) <==> IsCell(trees, t)
    ensures RowMajor(Cells(trees))
    decreases |trees|
  {
    if trees != [] {
      var n := |trees| - 1;
      CellsAreTheGrid(trees[..n]);
      var front, row := Cells(trees[..n]), RowCells(n, trees[n]);
      forall t ensures t in Cells(trees) <==> IsCell(trees, t) {
        if t in row {
          var x :| 0 <= x < |row| && row[x] == t;
        }
        if IsCell(trees, t) && t.y == n {
          assert row[t.x] == t;
        }
      }
      forall i, j | 0 <= i < j < |front + row| ensures Before((front + row)[i], (front + row)[j]) {
        if i < |front| && j >= |front| {
          assert front[i] in front;
        }
      }
    }
  }

  /** Tree `t` lies in direction `d` as seen from `(x, y)`. */
  predicate Toward(t: Tree, x: int, y: int, d: Direction)
  {
    match d
    case Left => t.y == y && t.x < x
    case Right => t.y == y && t.x > x
    case Up => t.x == x && t.y < y
    case Down => t.x == x && t.y > y
  }

  /** Looking in direction `d`, tree `a` comes before tree `b`. */
  predicate Nearer(a: Tree, b: Tree, d: Direction)
  {
    match d
    case Left => a.x > b.x
    case Right => a.x < b.x
    case Up => a.y > b.y
    case Down => a.y < b.y
  }

  /** Every row has the same number of trees. */
  predicate Rectangular(trees: seq<seq<int>>)
  {
    forall i, j :: 0 <= i < |trees| && 0 <= j < |trees| ==> |trees[i]| == |trees[j]|
  }

  /** The grid of tree heights; rows keep the lengths of their input lines. */
  datatype Grid = Grid(trees: seq<seq<int>>)
  {
    /** `filter`: the trees that satisfy `p`, row by row. */
    function Filter(p: Tree -> bool): (r: seq<Tree>)
      ensures RowMajor(r)
      ensures forall t :: t in r <==> IsCell(trees, t) && p(t)
    {
      CellsAreTheGrid(trees);
      FilterKeepsRowMajor(Cells(trees), p);
      FilterSeq(Cells(trees), p)
    }

    /** `map`: `f` applied to every tree, row by row. */
    function Map<T>(f: Tree -> T): (r: seq<T>)
      ensures |r| == |Cells(trees)| && forall i :: 0 <= i < |r| ==> r[i] == f(Cells(trees)[i])
    {
      var cells := Cells(trees);
      seq(|cells|, i requires 0 <= i < |cells| => f(cells[i]))
    }

    /**
     * One entry of `treesInCross`: the trees of direction `d`, nearest first. `sortedBy` and
     * `sortedByDescending` on coordinates that the visit already lists in ascending order
     * amount to keeping or reversing that order.
     */
    function Line(x: int, y: int, d: Direction): seq<Tree>
    {
      var found := Filter((t: Tree) => InCross(t, x, y) && DirectionOf(t, x, y) == d);
      if d == Left || d == Up then Reversed(found) else found
    }

    /** `treesInCross` has fewer than four entries: a direction without trees. */
    predicate OnEdge(x: int, y: int)
    {
      Line(x, y, Left) == [] || Line(x, y, Right) == [] || Line(x, y, Up) == [] || Line(x, y, Down) == []
    }

    /** `isVisible`: an edge tree is, and so is one that some whole direction is strictly shorter than. */
    function IsVisible(x: int, y: int): bool
    {
      if OnEdge(x, y) then true
      else
        InnerTreeIsCell(x, y);
        exists d: Direction :: forall t :: t in Line(x, y, d) ==> t.height < trees[y][x]
    }

    /** How far the tree at `(x, y)` sees in direction `d`: up to and including the first tree as tall. */
    function ViewingDistance(x: int, y: int, d: Direction): nat
      requires 0 <= y < |trees| && 0 <= x < |trees[y]|
    {
      |TakeUntilInclusive(Line(x, y, d), (t: Tree) => t.height >= trees[y][x])|
    }

    /** `getScenicScore`: 0 on an edge, otherwise the product of the four viewing distances. */
    function ScenicScore(x: int, y: int): int
    {
      if OnEdge(x, y) then 0
      else
        InnerTreeIsCell(x, y);
        ViewingDistance(x, y, Left) * ViewingDistance(x, y, Right) * ViewingDistance(x, y, Up) * ViewingDistance(x, y, Down)
    }

    /** Each line holds exactly the trees of its direction. */
    lemma LineMembers(x: int, y: int, d: Direction)
      ensures forall t :: t in Line(x, y, d) <==> IsCell(trees, t) && Toward(t, x, y, d)
    {
      var found := Filter((t: Tree) => InCross(t, x, y) && DirectionOf(t, x, y) == d);
      forall t ensures t in Line(x, y, d) <==> t in found {
        ReversedElements(found, t);
      }
    }

    /** Each line lists its trees nearest first. */
    lemma LineOrder(x: int, y: int, d: Direction)
      ensures forall i, j :: 0 <= i < j < |Line(x, y, d)| ==> Nearer(Line(x, y, d)[i], Line(x, y, d)[j], d)
    {
      var found := Filter((t: Tree) => InCross(t, x, y) && DirectionOf(t, x, y) == d);
      if d == Left || d == Up {
        forall i, j | 0 <= i < j < |found| ensures Nearer(Reversed(found)[i], Reversed(found)[j], d) {
          ReversedAt(found, i);
          ReversedAt(found, j);
          assert found[|found| - 1 - j] in found && found[|found| - 1 - i] in found;
        }
      } else {
        forall i, j | 0 <= i < j < |found| ensures Nearer(found[i], found[j], d) {
          assert found[j] in found && found[i] in found;
        }
      }
    }

    /** A tree with trees on all four sides lies inside the grid. */
    lemma InnerTreeIsCell(x: int, y: int)
      requires !OnEdge(x, y)
      ensures 0 <= y < |trees| && 0 <= x < |trees[y]|
    {
      LineMembers(x, y, Left);
      LineMembers(x, y, Right);
      var l, r := Line(x, y, Left)[0], Line(x, y, Right)[0];
      assert l in Line(x, y, Left) && r in Line(x, y, Right);
    }

    /** Every tree seen from `(x, y)` in direction `d`, read off the grid directly, is shorter than `h`. */
    predicate ClearView(x: int, y: int, d: Direction, h: int)
    {
      match d
      case Left => forall x' :: 0 <= x' < x && 0 <= y < |trees| && x' < |trees[y]| ==> trees[y][x'] < h
      case Right => forall x' :: x < x' && 0 <= y < |trees| && 0 <= x' < |trees[y]| ==> trees[y][x'] < h
      case Up => forall y' :: 0 <= y' < y && y' < |trees| && 0 <= x < |trees[y']| ==> trees[y'][x] < h
      case Down => forall y' :: y < y' < |trees| && 0 <= y' && 0 <= x < |trees[y']| ==> trees[y'][x] < h
    }

    lemma ClearLine(x: int, y: int, d: Direction, h: int)
      ensures (forall t :: t in Line(x, y, d) ==> t.height < h) <==> ClearView(x, y, d, h)
    {
      LineMembers(x, y, d);
      if forall t :: t in Line(x, y, d) ==> t.height < h {
        match d
        case Left => ClearLeft(x, y, h);
        case Right => ClearRight(x, y, h);
        case Up => ClearUp(x, y, h);
        case Down => ClearDown(x, y, h);
      }
    }

    lemma ClearLeft(x: int, y: int, h: int)
      requires forall t :: t in Line(x, y, Left) ==> t.height < h
      ensures ClearView(x, y, Left, h)
    {
      LineMembers(x, y, Left);
      forall x' | 0 <= x' < x && 0 <= y < |trees| && x' < |trees[y]| ensures trees[y][x'] < h {
        assert Tree(x', y, trees[y][x']) in Line(x, y, Left);
      }
    }

    lemma ClearRight(x: int, y: int, h: int)
      requires forall t :: t in Line(x, y, Right) ==> t.height < h
      ensures ClearView(x, y, Right, h)
    {
      LineMembers(x, y, Right);
      forall x' | x < x' && 0 <= y < |trees| && 0 <= x' < |trees[y]| ensures trees[y][x'] < h {
        assert Tree(x', y, trees[y][x']) in Line(x, y, Right);
      }
    }

    lemma ClearUp(x: int, y: int, h: int)
      requires forall t :: t in Line(x, y, Up) ==> t.height < h
      ensures ClearView(x, y, Up, h)
    {
      LineMembers(x, y, Up);
      forall y' | 0 <= y' < y && y' < |trees| && 0 <= x < |trees[y']| ensures trees[y'][x] < h {
        assert Tree(x, y', trees[y'][x]) in Line(x, y, Up);
      }
    }

    lemma ClearDown(x: int, y: int, h: int)
      requires forall t :: t in Line(x, y, Down) ==> t.height < h
      ensures ClearView(x, y, Down, h)
    {
      LineMembers(x, y, Down);
      forall y' | y < y' < |trees| && 0 <= y' && 0 <= x < |trees[y']| ensures trees[y'][x] < h {
        assert Tree(x, y', trees[y'][x]) in Line(x, y, Down);
      }
    }

    /**
     * A tree on the edge is visible; any other is visible exactly when, in some direction,
     * every tree of the grid between it and the edge is strictly shorter.
     */
    lemma VisibleMeans(x: int, y: int)
      ensures OnEdge(x, y) ==> IsVisible(x, y)
      ensures !OnEdge(x, y) ==>
        && 0 <= y < |trees| && 0 <= x < |trees[y]|
        && (IsVisible(x, y) <==> exists d :: ClearView(x, y, d, trees[y][x]))
    {
      if !OnEdge(x, y) {
        InnerTreeIsCell(x, y);
        var h := trees[y][x];
        forall d ensures (forall t :: t in Line(x, y, d) ==> t.height < h) <==> ClearView(x, y, d, h) {
          ClearLine(x, y, d, h);
        }
      }
    }

    /** In a rectangular grid, a tree lacks trees on some side exactly when it sits on the border. */
    lemma EdgeIsBorder(x: int, y: int)
      requires Rectangular(trees) && 0 <= y < |trees| && 0 <= x < |trees[y]|
      ensures OnEdge(x, y) <==> x == 0 || y == 0 || x == |trees[y]| - 1 || y == |trees| - 1
    {
      EmptyLeft(x, y);
      EmptyRight(x, y);
      EmptyUp(x, y);
      EmptyDown(x, y);
    }

    lemma EmptyLeft(x: int, y: int)
      requires 0 <= y < |trees| && 0 <= x < |trees[y]|
      ensures Line(x, y, Left) == [] <==> x == 0
    {
      LineMembers(x, y, Left);
      if x > 0 {
        assert Tree(x - 1, y, trees[y][x - 1]) in Line(x, y, Left);
      }
      NoMembers(Line(x, y, Left));
    }

    lemma EmptyRight(x: int, y: int)
      requires 0 <= y < |trees| && 0 <= x < |trees[y]|
      ensures Line(x, y, Right) == [] <==> x == |trees[y]| - 1
    {
      LineMembers(x, y, Right);
      if x < |trees[y]| - 1 {
        assert Tree(x + 1, y, trees[y][x + 1]) in Line(x, y, Right);
      }
      NoMembers(Line(x, y, Right));
    }

    lemma EmptyUp(x: int, y: int)
      requires Rectangular(trees) && 0 <= y < |trees| && 0 <= x < |trees[y]|
      ensures Line(x, y, Up) == [] <==> y == 0
    {
      LineMembers(x, y, Up);
      if y > 0 {
        assert |trees[y - 1]| == |trees[y]|;
        assert Tree(x, y - 1, trees[y - 1][x]) in Line(x, y, Up);
      }
      NoMembers(Line(x, y, Up));
    }

    lemma EmptyDown(x: int, y: int)
      requires Rectangular(trees) && 0 <= y < |trees| && 0 <= x < |trees[y]|
      ensures Line(x, y, Down) == [] <==> y == |trees| - 1
    {
      LineMembers(x, y, Down);
      if y < |trees| - 1 {
        assert |trees[y + 1]| == |trees[y]|;
        assert Tree(x, y + 1, trees[y + 1][x]) in Line(x, y, Down);
      }
      NoMembers(Line(x, y, Down));
    }

    /**
     * Inside the grid each viewing distance is between 1 and the number of trees in that
     * direction: the trees before the last one counted are all shorter, and when the view
     * stops early the last one counted is at least as tall.
     */
    lemma ViewingDistanceMeans(x: int, y: int, d: Direction)
      requires !OnEdge(x, y)
      ensures 0 <= y < |trees| && 0 <= x < |trees[y]|
      ensures 1 <= ViewingDistance(x, y, d) <= |Line(x, y, d)|
      ensures forall i :: 0 <= i < ViewingDistance(x, y, d) - 1 ==> Line(x, y, d)[i].height < trees[y][x]
      ensures ViewingDistance(x, y, d) < |Line(x, y, d)| ==> Line(x, y, d)[ViewingDistance(x, y, d) - 1].height >= trees[y][x]
    {
      InnerTreeIsCell(x, y);
      var h := trees[y][x];
      var line := Line(x, y, d);
      var stop := (t: Tree) => t.height >= h;
      var taken := TakeUntilInclusive(line, stop);
      assert |taken| == ViewingDistance(x, y, d);
      assert line != [];
      forall i | 0 <= i < |taken| - 1
        ensures line[i].height < h
      {
        assert taken[i] == line[i] && !stop(taken[i]);
      }
      if |taken| < |line| {
        assert taken[|taken| - 1] == line[|taken| - 1] && stop(taken[|taken| - 1]);
      }
    }

    /** The score is 0 on the edge and at least 1 everywhere else. */
    lemma ScenicScoreMeans(x: int, y: int)
      ensures OnEdge(x, y) ==> ScenicScore(x, y) == 0
      ensures !OnEdge(x, y) ==> ScenicScore(x, y) >= 1
    {
      if !OnEdge(x, y) {
        ViewingDistanceMeans(x, y, Left);
        ViewingDistanceMeans(x, y, Right);
        ViewingDistanceMeans(x, y, Up);
        ViewingDistanceMeans(x, y, Down);
        var l, r, u, w := ViewingDistance(x, y, Left), ViewingDistance(x, y, Right), ViewingDistance(x, y, Up), ViewingDistance(x, y, Down);
        MulAtLeastOne(l, r);
        MulAtLeastOne(l * r, u);
        MulAtLeastOne(l * r * u, w);
      }
    }
  }

  lemma NoMembers(s: seq<Tree>)
    ensures s == [] <==> forall t :: t !in s
  {
    if s != [] {
      assert s[0] in s;
    }
  }

  lemma ReversedElements<T>(s: seq<T>, t: T)
    ensures t in Reversed(s) <==> t in s
  {
    if t in s {
      var i :| 0 <= i < |s| && s[i] == t;
      ReversedAt(s, |s| - 1 - i);
    }
    if t in Reversed(s) {
      var i :| 0 <= i < |s| && Reversed(s)[i] == t;
      ReversedAt(s, i);
    }
  }

  lemma MulAtLeastOne(a: int, b: int)
    requires a >= 1 && b >= 1
    ensures a * b >= 1
  {
    assert a * b >= a * 1;
  }

  /** The largest element, or `None` for an empty list, where Kotlin's `max()` throws. */
  function MaxOf(s: seq<int>): (r: Option<int>)
    ensures r.None? <==> s == []
    ensures r.Some? ==> r.value in s && forall i :: 0 <= i < |s| ==> s[i] <= r.value
    decreases |s|
  {
    if s == [] then None
    else
      var front := MaxOf(s[..|s| - 1]);
      var last := s[|s| - 1];
      assert forall i :: 0 <= i < |s| - 1 ==> s[..|s| - 1][i] == s[i];
      if front.None? || front.value < last then Some(last) else front
  }

  /** `part1`: the number of trees visible from outside the grid. */
  function Part1(g: Grid): (r: nat)
    ensures r <= |Cells(g.trees)|
  {
    var visible := g.Filter((t: Tree) => g.IsVisible(t.x, t.y));
    |visible|
  }

  /** `part2`: the highest scenic score of any tree; an empty grid makes `max()` throw. */
  function Part2(g: Grid): (r: Option<int>)
    ensures r.None? <==> Cells(g.trees) == []
    ensures r.Some? ==>
      && (exists i :: 0 <= i < |Cells(g.trees)| && g.ScenicScore(Cells(g.trees)[i].x, Cells(g.trees)[i].y) == r.value)
      && forall t :: IsCell(g.trees, t) ==> g.ScenicScore(t.x, t.y) <= r.value
  {
    var scores := g.Map((t: Tree) => g.ScenicScore(t.x, t.y));
    CellsAreTheGrid(g.trees);
    var r := MaxOf(scores);
    assert forall t :: IsCell(g.trees, t) ==> exists i :: 0 <= i < |Cells(g.trees)| && Cells(g.trees)[i] == t;
    r
  }

  /** `digitToInt` on the decimal digits; any other character throws. */
  function DigitToInt(c: char): Option<int>
  {
    if IsDigit(c) then Some(DigitValue(c)) else None
  }

  function ParseRow(line: string): (r: Option<seq<int>>)
    ensures r.Some? <==> forall x :: 0 <= x < |line| ==> IsDigit(line[x])
    ensures r.Some? ==> |r.value| == |line| && forall x :: 0 <= x < |line| ==> r.value[x] == DigitValue(line[x])
    decreases |line|
  {
    if line == [] then Some([])
    else
      var n := |line| - 1;
      var front := ParseRow(line[..n]);
      var last := DigitToInt(line[n]);
      assert forall x :: 0 <= x < n ==> line[..n][x] == line[x];
      if front.None? || last.None? then None else Some(front.value + [last.value])
  }

  /** `parseGrid`: one row per line, one height per character. */
  function ParseGrid(lines: seq<string>): (r: Option<Grid>)
    ensures r.Some? <==> forall y, x :: 0 <= y < |lines| && 0 <= x < |lines[y]| ==> IsDigit(lines[y][x])
    ensures r.Some? ==> |r.value.trees| == |lines| && forall y :: 0 <= y < |lines| ==>
      |r.value.trees[y]| == |lines[y]| && forall x :: 0 <= x < |lines[y]| ==> r.value.trees[y][x] == DigitValue(lines[y][x])
    decreases |lines|
  {
    if lines == [] then Some(Grid([]))
    else
      var n := |lines| - 1;
      var front := ParseGrid(lines[..n]);
      var last := ParseRow(lines[n]);
      assert forall y :: 0 <= y < n ==> lines[..n][y] == lines[y];
      if front.None? || last.None? then None else Some(Grid(front.value.trees + [last.value]))
  }
}
