/**
 * Supply stacks: a ship holds numbered stacks of crates (each crate a character), and a step
 * `move a from f to t` moves the top `a` crates of stack `f` onto stack `t`. The CrateMover
 * 9000 (`moveOne`) moves them one at a time, the CrateMover 9001 (`moveMultiple`) as a block.
 * The input draws the starting stacks as columns of `[X]` cells above a line of stack numbers.
 */
module Crates {
  import opened Results
  import opened Seqs
  import opened Text

  /** A rearrangement step; stacks are numbered from 1. */
  datatype Step = Step(from: int, to: int, amount: int)

  /** The stacks of a ship, each listed bottom first, so that its last crate is the top one. */
  type Stacks = seq<seq<char>>

  /** The number of crates on the ship. */
  function TotalCrates(s: Stacks): nat
    decreases |s|
  {
    if s == [] then 0 else TotalCrates(s[..|s| - 1]) + |s[|s| - 1]|
  }

  lemma {:induction false} TotalUpdate(s: Stacks, i: nat, x: seq<char>)
    requires i < |s|
    ensures TotalCrates(s[i := x]) == TotalCrates(s) - |s[i]| + |x|
    decreases |s|
  {
    var n := |s| - 1;
    if i == n {
      assert s[i := x][..n] == s[..n];
    } else {
      assert s[i := x][..n] == s[..n][i := x];
      TotalUpdate(s[..n], i, x);
    }
  }

  /**
   * One repetition of `moveOne`: `removeLast` on stack `from`, then `addLast` on stack `to`.
   * The second component says whether it ran without throwing; when the target index is bad
   * the crate has already left its stack.
   */
  function MoveCrate(s: Stacks, from: int, to: int): (Stacks, bool)
  {
    if !(1 <= from <= |s|) || s[from - 1] == [] then (s, false)
    else
      var src := s[from - 1];
      var lifted := s[from - 1 := src[..|src| - 1]];
      if !(1 <= to <= |s|) then (lifted, false)
      else (lifted[to - 1 := lifted[to - 1] + [src[|src| - 1]]], true)
  }

  /** `moveOne`: `n` single moves in a row (none when `n <= 0`); the first that throws ends the step. */
  function MoveOneSpec(s: Stacks, from: int, to: int, n: int): (Stacks, bool)
    decreases n
  {
    if n <= 0 then (s, true)
    else
      var next := MoveCrate(s, from, to);
      if !next.1 then next else MoveOneSpec(next.0, from, to, n - 1)
  }

  /** Single moves keep the number of stacks, and a step that does not throw keeps every crate. */
  lemma {:induction false} MoveOneKeepsCrates(s: Stacks, from: int, to: int, n: int)
    ensures |MoveOneSpec(s, from, to, n).0| == |s|
    ensures MoveOneSpec(s, from, to, n).1 ==> TotalCrates(MoveOneSpec(s, from, to, n).0) == TotalCrates(s)
    decreases n
  {
    if n > 0 && 1 <= from <= |s| && s[from - 1] != [] {
      var src := s[from - 1];
      var lifted := s[from - 1 := src[..|src| - 1]];
      TotalUpdate(s, from - 1, src[..|src| - 1]);
      if 1 <= to <= |s| {
        TotalUpdate(lifted, to - 1, lifted[to - 1] + [src[|src| - 1]]);
        MoveOneKeepsCrates(MoveCrate(s, from, to).0, from, to, n - 1);
      }
    }
  }

  /**
   * Between two different stacks, moving `n` crates one at a time lifts the top `n` crates
   * off `from` and piles them on `to` in reversed order; no other stack changes.
   */
  lemma {:induction false} MoveOneReverses(s: Stacks, from: int, to: int, n: int)
    requires 1 <= from <= |s| && 1 <= to <= |s| && from != to
    requires 0 <= n <= |s[from - 1]|
    ensures var r := MoveOneSpec(s, from, to, n);
      var src := s[from - 1];
      && r.1 && |r.0| == |s|
      && r.0[from - 1] == src[..|src| - n]
      && r.0[to - 1] == s[to - 1] + Reversed(src[|src| - n..])
      && forall i :: 0 <= i < |s| && i != from - 1 && i != to - 1 ==> r.0[i] == s[i]
    decreases n
  {
    var src := s[from - 1];
    if n == 0 {
      assert src[|src|..] == [];
    } else {
      var s1 := MoveCrate(s, from, to).0;
      MoveOneReverses(s1, from, to, n - 1);
      assert s1[from - 1] == src[..|src| - 1];
      assert s1[to - 1] == s[to - 1] + [src[|src| - 1]];
      LiftTop(src, n);
    }
  }

  /** The top `n` crates of a stack, reversed, are its top crate followed by the `n - 1` below it, reversed. */
  lemma LiftTop<T>(src: seq<T>, n: nat)
    requires 0 < n <= |src|
    ensures var rest := src[..|src| - 1];
      && rest[..|rest| - (n - 1)] == src[..|src| - n]
      && Reversed(src[|src| - n..]) == [src[|src| - 1]] + Reversed(rest[|rest| - (n - 1)..])
  {
    var rest := src[..|src| - 1];
    var block := src[|src| - n..];
    assert block == rest[|rest| - (n - 1)..] + [src[|src| - 1]];
    ReversedAppend(rest[|rest| - (n - 1)..], [src[|src| - 1]]);
    assert Reversed([src[|src| - 1]]) == [src[|src| - 1]];
  }

  /** Moving onto the same stack puts each crate back where it was, as long as the stack has one. */
  lemma {:induction false} MoveOneSameStack(s: Stacks, from: int, n: int)
    requires 1 <= from <= |s| && s[from - 1] != []
    ensures MoveOneSpec(s, from, from, n) == (s, true)
    decreases n
  {
    if n > 0 {
      var src := s[from - 1];
      assert src[..|src| - 1] + [src[|src| - 1]] == src;
      assert MoveCrate(s, from, from).0 == s;
      MoveOneSameStack(s, from, n - 1);
    }
  }

  /**
   * `moveOne` throws exactly when some crate is to be moved and a stack number is out of
   * range or stack `from` runs out of crates.
   */
  lemma MoveOneSucceeds(s: Stacks, from: int, to: int, n: int)
    ensures MoveOneSpec(s, from, to, n).1 <==>
      || n <= 0
      || (&& 1 <= from <= |s| && 1 <= to <= |s|
          && if from == to then s[from - 1] != [] else n <= |s[from - 1]|)
  {
    if n > 0 && 1 <= from <= |s| && 1 <= to <= |s| {
      if from == to {
        if s[from - 1] != [] {
          MoveOneSameStack(s, from, n);
        }
      } else if n <= |s[from - 1]| {
        MoveOneReverses(s, from, to, n);
      } else {
        MoveOneRunsOut(s, from, to, n);
      }
    }
  }

  lemma {:induction false} MoveOneRunsOut(s: Stacks, from: int, to: int, n: int)
    requires 1 <= from <= |s| && 1 <= to <= |s| && from != to
    requires |s[from - 1]| < n
    ensures !MoveOneSpec(s, from, to, n).1
    decreases n
  {
    if s[from - 1] != [] {
      var s1 := MoveCrate(s, from, to).0;
      assert |s1[from - 1]| == |s[from - 1]| - 1;
      MoveOneRunsOut(s1, from, to, n - 1);
    }
  }

  /**
   * `ArrayDeque.removeLast(n)`: the deque left behind, the removed crates in their original
   * order, and whether it ran without throwing. When `n` exceeds the length the deque is
   * emptied and the next `removeLast()` throws.
   */
  function RemoveLastSpec<T>(d: seq<T>, n: int): (seq<T>, seq<T>, bool)
  {
    if n <= 0 then (d, [], true)
    else if n > |d| then ([], [], false)
    else (d[..|d| - n], d[|d| - n..], true)
  }

  /** Taking one more item off the end of `d`. */
  lemma RemoveLastStep<T>(d: seq<T>, k: nat)
    requires k < |d|
    ensures Reversed(d[|d| - (k + 1)..]) == Reversed(d[|d| - k..]) + [d[|d| - (k + 1)]]
    ensures d[..|d| - k][..|d| - k - 1] == d[..|d| - (k + 1)]
  {
    assert [d[|d| - (k + 1)]] + d[|d| - k..] == d[|d| - (k + 1)..];
    ReversedAppend([d[|d| - (k + 1)]], d[|d| - k..]);
  }

  /**
   * `removeLast(n)`: removes the last crate `n` times, collecting them top first, and returns
   * the collection reversed.
   */
  method RemoveLast<T>(d: seq<T>, n: int) returns (rest: seq<T>, removed: seq<T>, ok: bool)
    ensures (rest, removed, ok) == RemoveLastSpec(d, n)
    ensures ok ==> rest + removed == d
  {
    rest := d;
    var collected := [];
    var k := 0;
    while k < n
      invariant 0 <= k <= |d| && k <= (if n > 0 then n else 0)
      invariant rest == d[..|d| - k] && collected == Reversed(d[|d| - k..])
    {
      if rest == [] {
        return [], [], false;
      }
      var top := rest[|rest| - 1];
      RemoveLastStep(d, k);
      collected := collected + [top];
      rest := rest[..|rest| - 1];
      k := k + 1;
    }
    ReversedTwice(d[|d| - k..]);
    removed := Reversed(collected);
    ok := true;
    if n <= 0 {
      assert rest == d && removed == [];
    }
  }

  /** `moveMultiple`: `removeLast(amount)` on stack `from`, then `addAll` on stack `to`. */
  function MoveMultipleSpec(s: Stacks, from: int, to: int, n: int): (Stacks, bool)
  {
    if !(1 <= from <= |s|) then (s, false)
    else
      var cut := RemoveLastSpec(s[from - 1], n);
      var lifted := s[from - 1 := cut.0];
      if !cut.2 || !(1 <= to <= |s|) then (lifted, false)
      else (lifted[to - 1 := lifted[to - 1] + cut.1], true)
  }

  /**
   * `moveMultiple` throws exactly when stack `from` does not exist or holds fewer than `n`
   * crates, or stack `to` does not exist; both stack numbers are looked up even when nothing
   * is moved.
   */
  lemma MoveMultipleSucceeds(s: Stacks, from: int, to: int, n: int)
    ensures MoveMultipleSpec(s, from, to, n).1 <==> 1 <= from <= |s| && 1 <= to <= |s| && n <= |s[from - 1]|
  {
  }

  /**
   * Between two different stacks the top `n` crates move as a block, keeping their order;
   * no other stack changes. On the same stack nothing changes.
   */
  lemma MoveMultipleKeepsOrder(s: Stacks, from: int, to: int, n: int)
    requires 1 <= from <= |s| && 1 <= to <= |s| && 0 <= n <= |s[from - 1]|
    ensures var r := MoveMultipleSpec(s, from, to, n);
      var src := s[from - 1];
      && r.1 && |r.0| == |s|
      && (from != to ==> r.0[from - 1] == src[..|src| - n] && r.0[to - 1] == s[to - 1] + src[|src| - n..])
      && (from == to ==> r.0 == s)
      && forall i :: 0 <= i < |s| && i != from - 1 && i != to - 1 ==> r.0[i] == s[i]
  {
    var src := s[from - 1];
    assert src[..|src| - n] + src[|src| - n..] == src;
    var cut := RemoveLastSpec(src, n);
    assert cut.0 + cut.1 == src;
    if from == to {
      assert s[from - 1 := src] == s;
    }
  }

  /** A step that does not throw keeps every crate and every stack. */
  lemma MoveMultipleKeepsCrates(s: Stacks, from: int, to: int, n: int)
    ensures |MoveMultipleSpec(s, from, to, n).0| == |s|
    ensures MoveMultipleSpec(s, from, to, n).1 ==> TotalCrates(MoveMultipleSpec(s, from, to, n).0) == TotalCrates(s)
  {
    if 1 <= from <= |s| {
      var cut := RemoveLastSpec(s[from - 1], n);
      var lifted := s[from - 1 := cut.0];
      TotalUpdate(s, from - 1, cut.0);
      if cut.2 && 1 <= to <= |s| {
        TotalUpdate(lifted, to - 1, lifted[to - 1] + cut.1);
      }
    }
  }

  /** The two cranes leave the same picture, except that the 9000 turns the moved block upside down. */
  lemma CranesDiffer(s: Stacks, from: int, to: int, n: int)
    requires 1 <= from <= |s| && 1 <= to <= |s| && from != to && 0 <= n <= |s[from - 1]|
    ensures var one := MoveOneSpec(s, from, to, n).0;
      var block := MoveMultipleSpec(s, from, to, n).0;
      var src := s[from - 1];
      && |one| == |block|
      && (forall i :: 0 <= i < |s| && i != to - 1 ==> one[i] == block[i])
      && one[to - 1] == s[to - 1] + Reversed(src[|src| - n..])
      && block[to - 1] == s[to - 1] + src[|src| - n..]
  {
    MoveOneReverses(s, from, to, n);
    MoveMultipleKeepsOrder(s, from, to, n);
  }

  /** `getTopCrates`: the top crate of every stack, in stack order; an empty stack makes `last()` throw. */
  function TopCrates(s: Stacks): (r: Option<seq<char>>)
    ensures r.Some? <==> forall i :: 0 <= i < |s| ==> s[i] != []
    ensures r.Some? ==> |r.value| == |s| && forall i :: 0 <= i < |s| ==> r.value[i] == s[i][|s[i]| - 1]
    decreases |s|
  {
    if s == [] then Some([])
    else
      var front := TopCrates(s[..|s| - 1]);
      var last := s[|s| - 1];
      assert forall i :: 0 <= i < |s| - 1 ==> s[..|s| - 1][i] == s[i];
      if front.None? then None
      else if last == [] then None
      else Some(front.value + [last[|last| - 1]])
  }

  /** The lines before the first blank one: the drawing of the starting stacks and its label line. */
  function Header(lines: seq<string>): (r: seq<string>)
    ensures |r| <= |lines| && r == lines[..|r|]
    ensures forall i :: 0 <= i < |r| ==> !IsBlank(r[i])
    ensures |r| < |lines| ==> IsBlank(lines[|r|])
    decreases |lines|
  {
    if lines == [] || IsBlank(lines[0]) then [] else [lines[0]] + Header(lines[1..])
  }

  /** The number of matches of `[0-9]+`: the maximal runs of digits. */
  function DigitRuns(s: string): nat
    decreases |s|
  {
    if s == [] then 0
    else
      var n := |s| - 1;
      DigitRuns(s[..n]) + if IsDigit(s[n]) && (n == 0 || !IsDigit(s[n - 1])) then 1 else 0
  }

  /** A line without digits numbers no stacks, and a digit anywhere starts a run. */
  lemma {:induction false} DigitRunsZero(s: string)
    ensures DigitRuns(s) == 0 <==> forall i :: 0 <= i < |s| ==> !IsDigit(s[i])
    decreases |s|
  {
    if s != [] {
      var n := |s| - 1;
      DigitRunsZero(s[..n]);
      assert forall i :: 0 <= i < n ==> s[..n][i] == s[i];
    }
  }

  /** One cell of a drawing line: its chunk of four characters without whitespace and brackets. */
  function Item(chunk: string): (r: string)
    ensures forall c :: c in r <==> c in chunk && !IsWhitespace(c) && c != '[' && c != ']'
    decreases |chunk|
  {
    if chunk == [] then []
    else
      var front := Item(chunk[..|chunk| - 1]);
      var c := chunk[|chunk| - 1];
      assert forall x :: x in chunk <==> x in chunk[..|chunk| - 1] || x == c;
      if !IsWhitespace(c) && c != '[' && c != ']' then front + [c] else front
  }

  /** The cells of a drawing line: `chunked(4)` mapped through `Item`. */
  function Items(line: string): (r: seq<string>)
    ensures |r| == |Chunked(line, 4)|
  {
    var chunks := Chunked(line, 4);
    seq(|chunks|, i requires 0 <= i < |chunks| => Item(chunks[i]))
  }

  /** The crate a drawing line puts in column `j`, if it has one there. */
  function CrateAt(line: string, j: nat): (r: seq<char>)
    ensures |r| <= 1
  {
    var items := Items(line);
    if j < |items| && !IsBlank(items[j]) then [items[j][0]] else []
  }

  /** `forEachIndexed` over a line's cells: each non-blank cell's crate goes to the bottom of its stack. */
  function AddLine(s: Stacks, items: seq<string>): (r: Option<Stacks>)
    ensures r.Some? ==> |r.value| == |s|
    decreases |items|
  {
    if items == [] then Some(s)
    else
      var n := |items| - 1;
      var front := AddLine(s, items[..n]);
      if front.None? || IsBlank(items[n]) then front
      else if n >= |front.value| then None
      else Some(front.value[n := [items[n][0]] + front.value[n]])
  }

  /**
   * A line fails exactly when one of its crates lies beyond the last stack; otherwise every
   * stack gains the crate of its own cell, at the bottom.
   */
  lemma {:induction false} AddLineEffect(s: Stacks, items: seq<string>)
    ensures AddLine(s, items).Some? <==> forall i :: 0 <= i < |items| && !IsBlank(items[i]) ==> i < |s|
    ensures AddLine(s, items).Some? ==> forall j :: 0 <= j < |s| ==>
      AddLine(s, items).value[j] == (if j < |items| && !IsBlank(items[j]) then [items[j][0]] else []) + s[j]
    decreases |items|
  {
    if items != [] {
      var n := |items| - 1;
      AddLineEffect(s, items[..n]);
      assert forall i :: 0 <= i < n ==> items[..n][i] == items[i];
    }
  }

  /** The stacks after pushing the crates of the drawing lines, top line first, into `count` empty stacks. */
  function BuildStacks(lines: seq<string>, count: nat): (r: Option<Stacks>)
    ensures r.Some? ==> |r.value| == count
    decreases |lines|
  {
    if lines == [] then Some(seq(count, _ => []))
    else
      var front := BuildStacks(lines[..|lines| - 1], count);
      if front.None? then None else AddLine(front.value, Items(lines[|lines| - 1]))
  }

  /** `extractStartingStacks`: the drawing above the label line, with one stack per number on the label line. */
  function StartingStacks(input: seq<string>): Option<Stacks>
  {
    var header := Header(input);
    if header == [] then None
    else BuildStacks(header[..|header| - 1], DigitRuns(header[|header| - 1]))
  }

  /** Column `j` of a drawing, read from the top line down. */
  function Column(lines: seq<string>, j: nat): seq<char>
    decreases |lines|
  {
    if lines == [] then [] else CrateAt(lines[0], j) + Column(lines[1..], j)
  }

  lemma {:induction false} ColumnSnoc(lines: seq<string>, j: nat)
    requires lines != []
    ensures Column(lines, j) == Column(lines[..|lines| - 1], j) + CrateAt(lines[|lines| - 1], j)
    decreases |lines|
  {
    if |lines| > 1 {
      ColumnSnoc(lines[1..], j);
      assert lines[1..][..|lines| - 2] == lines[..|lines| - 1][1..];
    }
  }

  /** Every crate drawn on the line lies within the first `count` stacks. */
  predicate FitsIn(line: string, count: nat)
  {
    forall i :: 0 <= i < |Items(line)| && !IsBlank(Items(line)[i]) ==> i < count
  }

  /** Building fails exactly when some line draws a crate beyond the last stack. */
  lemma BuildSucceeds(lines: seq<string>, count: nat)
    ensures BuildStacks(lines, count).Some? <==> forall k :: 0 <= k < |lines| ==> FitsIn(lines[k], count)
  {
    if BuildStacks(lines, count).Some? {
      BuildFits(lines, count);
    }
    if forall k :: 0 <= k < |lines| ==> FitsIn(lines[k], count) {
      FitsBuild(lines, count);
    }
  }

  lemma {:induction false} BuildFits(lines: seq<string>, count: nat)
    requires BuildStacks(lines, count).Some?
    ensures forall k :: 0 <= k < |lines| ==> FitsIn(lines[k], count)
    decreases |lines|
  {
    if lines != [] {
      var n := |lines| - 1;
      BuildFits(lines[..n], count);
      LineFits(BuildStacks(lines[..n], count).value, lines[n]);
      FitsPrefix(lines, n, count);
    }
  }

  lemma {:induction false} FitsBuild(lines: seq<string>, count: nat)
    requires forall k :: 0 <= k < |lines| ==> FitsIn(lines[k], count)
    ensures BuildStacks(lines, count).Some?
    decreases |lines|
  {
    if lines != [] {
      var n := |lines| - 1;
      FitsPrefix(lines, n, count);
      FitsBuild(lines[..n], count);
      LineFits(BuildStacks(lines[..n], count).value, lines[n]);
    }
  }

  lemma FitsPrefix(lines: seq<string>, n: nat, count: nat)
    requires n <= |lines|
    ensures (forall k :: 0 <= k < n ==> FitsIn(lines[..n][k], count)) <==> (forall k :: 0 <= k < n ==> FitsIn(lines[k], count))
  {
    assert forall k :: 0 <= k < n ==> lines[..n][k] == lines[k];
  }

  /** A line can be added to the stacks exactly when it fits in them. */
  lemma LineFits(s: Stacks, line: string)
    ensures AddLine(s, Items(line)).Some? <==> FitsIn(line, |s|)
  {
    AddLineEffect(s, Items(line));
  }

  /** Once the first `k + 1` lines fail to build, the whole drawing fails. */
  lemma BuildStopsAt(lines: seq<string>, count: nat, k: nat)
    requires k < |lines| && BuildStacks(lines[..k + 1], count).None?
    ensures BuildStacks(lines, count).None?
  {
    BuildSucceeds(lines[..k + 1], count);
    var j :| 0 <= j < k + 1 && !FitsIn(lines[..k + 1][j], count);
    assert lines[..k + 1][j] == lines[j];
    BuildSucceeds(lines, count);
  }

  /** Stack `j` holds column `j` upside down, so the top line's crate is on top. */
  lemma {:induction false} StacksAreColumns(lines: seq<string>, count: nat, j: nat)
    requires BuildStacks(lines, count).Some? && j < count
    ensures BuildStacks(lines, count).value[j] == Reversed(Column(lines, j))
    decreases |lines|
  {
    if lines != [] {
      var n := |lines| - 1;
      var front := BuildStacks(lines[..n], count);
      StacksAreColumns(lines[..n], count, j);
      AddLineEffect(front.value, Items(lines[n]));
      ColumnSnoc(lines, j);
      var top := CrateAt(lines[n], j);
      ReversedAppend(Column(lines[..n], j), top);
      assert Reversed(top) == top;
    }
  }

  /** The crate a drawing's first line shows in column `j` ends on top of stack `j`. */
  lemma FirstLineOnTop(lines: seq<string>, count: nat, j: nat, c: char)
    requires BuildStacks(lines, count).Some? && j < count
    requires lines != [] && CrateAt(lines[0], j) == [c]
    ensures var stack := BuildStacks(lines, count).value[j];
      stack != [] && stack[|stack| - 1] == c
  {
    StacksAreColumns(lines, count, j);
    var column := Column(lines, j);
    ReversedAt(column, |column| - 1);
  }

  /**
   * `extractStartingStacks`, step by step: collect the lines up to the first blank one, drop
   * the label line, count its numbers, and push every drawn crate with `addFirst`.
   */
  method ExtractStartingStacks(input: seq<string>) returns (r: Option<Stacks>)
    ensures r == StartingStacks(input)
  {
    var header := ReadHeader(input);
    if header == [] {
      return None;
    }
    var drawing := header[..|header| - 1];
    var count := DigitRuns(header[|header| - 1]);
    r := BuildFromDrawing(drawing, count);
  }

  /** The first loop of `extractStartingStacks`: the lines up to the first blank one. */
  method ReadHeader(input: seq<string>) returns (header: seq<string>)
    ensures header == Header(input)
  {
    header := [];
    var i := 0;
    while i < |input| && !IsBlank(input[i])
      invariant 0 <= i <= |input| && header == input[..i]
      invariant forall k :: 0 <= k < i ==> !IsBlank(input[k])
    {
      header := header + [input[i]];
      i := i + 1;
    }
    HeaderEnds(input, i);
  }

  /** The `forEach` over the drawing: `count` empty stacks, then every drawn crate pushed with `addFirst`. */
  method BuildFromDrawing(drawing: seq<string>, count: nat) returns (r: Option<Stacks>)
    ensures r == BuildStacks(drawing, count)
  {
    var stacks: Stacks := seq(count, _ => []);
    for k := 0 to |drawing|
      invariant BuildStacks(drawing[..k], count) == Some(stacks)
    {
      assert drawing[..k + 1][..k] == drawing[..k];
      var next := PushLine(stacks, Items(drawing[k]));
      if next.None? {
        BuildStopsAt(drawing, count, k);
        return None;
      }
      stacks := next.value;
    }
    assert drawing[..|drawing|] == drawing;
    r := Some(stacks);
  }

  /** One drawing line's `forEachIndexed`: push each non-blank cell's crate with `addFirst`. */
  method PushLine(s: Stacks, items: seq<string>) returns (r: Option<Stacks>)
    ensures r == AddLine(s, items)
  {
    var stacks := s;
    for idx := 0 to |items|
      invariant AddLine(s, items[..idx]) == Some(stacks)
    {
      assert items[..idx + 1][..idx] == items[..idx];
      if !IsBlank(items[idx]) {
        if idx >= |stacks| {
          AddLineEffect(s, items[..idx + 1]);
          AddLineEffect(s, items);
          return None;
        }
        stacks := stacks[idx := [items[idx][0]] + stacks[idx]];
      }
    }
    assert items[..|items|] == items;
    r := Some(stacks);
  }

  /** The scan of `ExtractStartingStacks` stops where `Header` does. */
  lemma {:induction false} HeaderEnds(lines: seq<string>, i: nat)
    requires i <= |lines| && forall k :: 0 <= k < i ==> !IsBlank(lines[k])
    requires i == |lines| || IsBlank(lines[i])
    ensures Header(lines) == lines[..i]
    decreases i
  {
    if i > 0 {
      HeaderEnds(lines[1..], i - 1);
      assert [lines[0]] + lines[1..][..i - 1] == lines[..i];
    }
  }

  /** The ship of `part1`/`part2`, holding the stacks it rearranges in place. */
  class Ship {
    var stacks: Stacks

    constructor(stacks: Stacks)
      ensures this.stacks == stacks
    {
      this.stacks := stacks;
    }

    /** `moveOne`: `repeat(step.amount)` of `removeLast` on `from` and `addLast` on `to`. */
    method MoveOne(step: Step) returns (ok: bool)
      modifies this
      ensures (stacks, ok) == MoveOneSpec(old(stacks), step.from, step.to, step.amount)
    {
      var k := 0;
      while k < step.amount
        invariant 0 <= k && (step.amount > 0 ==> k <= step.amount)
        invariant MoveOneSpec(stacks, step.from, step.to, step.amount - k)
          == MoveOneSpec(old(stacks), step.from, step.to, step.amount)
      {
        if !(1 <= step.from <= |stacks|) || stacks[step.from - 1] == [] {
          return false;
        }
        var src := stacks[step.from - 1];
        var crate := src[|src| - 1];
        stacks := stacks[step.from - 1 := src[..|src| - 1]];
        if !(1 <= step.to <= |stacks|) {
          return false;
        }
        stacks := stacks[step.to - 1 := stacks[step.to - 1] + [crate]];
        k := k + 1;
      }
      ok := true;
    }

    /** `moveMultiple`: `removeLast(step.amount)` on `from`, then `addAll` of the removed crates on `to`. */
    method MoveMultiple(step: Step) returns (ok: bool)
      modifies this
      ensures (stacks, ok) == MoveMultipleSpec(old(stacks), step.from, step.to, step.amount)
    {
      if !(1 <= step.from <= |stacks|) {
        return false;
      }
      var rest, crates;
      rest, crates, ok := RemoveLast(stacks[step.from - 1], step.amount);
      stacks := stacks[step.from - 1 := rest];
      if !ok || !(1 <= step.to <= |stacks|) {
        return false;
      }
      stacks := stacks[step.to - 1 := stacks[step.to - 1] + crates];
    }
  }

  /** One line of `extractSteps`: words 1, 3 and 5 of `move a from f to t`. */
  function ParseStep(line: string): Option<Step>
  {
    var words := Split(line, ' ');
    if |words| < 6 then None
    else
      var amount, from, to := ParseInt(words[1]), ParseInt(words[3]), ParseInt(words[5]);
      if amount.None? || from.None? || to.None? then None
      else Some(Step(from.value, to.value, amount.value))
  }

  /** The lines `extractSteps` keeps: those starting with `move`, in order. */
  function MoveLines(lines: seq<string>): (r: seq<string>)
    ensures forall l :: l in r ==> l in lines && StartsWith(l, "move")
    ensures forall l :: l in lines && StartsWith(l, "move") ==> l in r
    decreases |lines|
  {
    if lines == [] then []
    else
      var front := MoveLines(lines[..|lines| - 1]);
      var last := lines[|lines| - 1];
      assert forall l :: l in lines ==> l in lines[..|lines| - 1] || l == last;
      if StartsWith(last, "move") then front + [last] else front
  }

  /** `extractSteps`: one step per kept line, in order; a line that does not parse makes it throw. */
  function ExtractSteps(lines: seq<string>): (r: Option<seq<Step>>)
    ensures r.None? ==> exists i :: 0 <= i < |MoveLines(lines)| && ParseStep(MoveLines(lines)[i]).None?
    ensures r.Some? ==> |r.value| == |MoveLines(lines)|
    ensures r.Some? ==> forall i :: 0 <= i < |MoveLines(lines)| ==> ParseStep(MoveLines(lines)[i]) == Some(r.value[i])
  {
    var kept := MoveLines(lines);
    var steps := ParseAll(kept);
    assert steps.None? ==> exists i :: 0 <= i < |kept| && ParseStep(kept[i]).None?;
    steps
  }

  function ParseAll(lines: seq<string>): (r: Option<seq<Step>>)
    ensures r.Some? <==> forall i :: 0 <= i < |lines| ==> ParseStep(lines[i]).Some?
    ensures r.Some? ==> |r.value| == |lines| && forall i :: 0 <= i < |lines| ==> ParseStep(lines[i]) == Some(r.value[i])
    decreases |lines|
  {
    if lines == [] then Some([])
    else
      var n := |lines| - 1;
      var front := ParseAll(lines[..n]);
      var last := ParseStep(lines[n]);
      assert forall i :: 0 <= i < n ==> lines[..n][i] == lines[i];
      if front.None? || last.None? then None else Some(front.value + [last.value])
  }

  /** The puzzle's own wording of a step. */
  function RenderStep(step: Step): string
  {
    "move " + IntToString(step.amount) + " from " + IntToString(step.from) + " to " + IntToString(step.to)
  }

  /** The words of a rendered step. */
  lemma RenderedWords(step: Step)
    ensures Split(RenderStep(step), ' ')
      == ["move", IntToString(step.amount), "from", IntToString(step.from), "to", IntToString(step.to)]
  {
    var words := ["move", IntToString(step.amount), "from", IntToString(step.from), "to", IntToString(step.to)];
    RenderedJoin(IntToString(step.amount), IntToString(step.from), IntToString(step.to));
    assert forall i :: 0 <= i < |words| ==> ' ' !in words[i];
    SplitJoin(words, ' ');
  }

  /** The wording of a step is its six words joined with spaces. */
  lemma RenderedJoin(amount: string, from: string, to: string)
    ensures Join(["move", amount, "from", from, "to", to], ' ') == "move " + amount + " from " + from + " to " + to
  {
    JoinSix("move", amount, "from", from, "to", to, ' ');
    assert "move " + amount == "move" + [' '] + amount;
    assert " from " + from == [' '] + "from" + [' '] + from;
    assert " to " + to == [' '] + "to" + [' '] + to;
  }

  /** Six pieces joined with a delimiter between them. */
  lemma JoinSix(a: string, b: string, c: string, d: string, e: string, f: string, sep: char)
    ensures Join([a, b, c, d, e, f], sep) == a + [sep] + b + [sep] + c + [sep] + d + [sep] + e + [sep] + f
  {
    var words := [a, b, c, d, e, f];
    assert words[1..] == [b, c, d, e, f] && words[1..][1..] == [c, d, e, f];
    assert [c, d, e, f][1..] == [d, e, f] && [d, e, f][1..] == [e, f] && [e, f][1..] == [f];
    var ef := e + [sep] + f;
    var def := d + [sep] + ef;
    var cdef := c + [sep] + def;
    var bcdef := b + [sep] + cdef;
    assert Join([e, f], sep) == ef;
    assert Join([d, e, f], sep) == def;
    assert Join([c, d, e, f], sep) == cdef;
    assert Join([b, c, d, e, f], sep) == bcdef;
    assert Join(words, sep) == a + [sep] + bcdef;
  }

  /** A rendered step starts with `move` and parses back to itself. */
  lemma ParseRenderedStep(step: Step)
    requires IntMin <= step.amount <= IntMax && IntMin <= step.from <= IntMax && IntMin <= step.to <= IntMax
    ensures StartsWith(RenderStep(step), "move")
    ensures ParseStep(RenderStep(step)) == Some(step)
  {
    RenderedWords(step);
    ParseIntToString(step.amount);
    ParseIntToString(step.from);
    ParseIntToString(step.to);
  }
}
