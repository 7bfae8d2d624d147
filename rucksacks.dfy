/**
 * Rucksack reorganisation. Each rucksack's items are characters; part one scores the item
 * found in both halves of every rucksack, part two the item common to each group of three
 * consecutive rucksacks. An item's priority is 1 to 26 for `a`..`z` and 27 to 52 for `A`..`Z`.
 */
module Rucksacks {
  import opened Results
  import opened Seqs

  /** `Char.isUpperCase` on the ASCII letters. */
  predicate IsUpperCase(c: char)
  {
    'A' <= c <= 'Z'
  }

  /** `getItemTypeScore`: `code - 64 + 26` for an upper-case letter, `code - 96` otherwise. */
  function ItemTypeScore(c: char): (r: int)
    ensures 'a' <= c <= 'z' ==> 1 <= r <= 26 && r == (c as int) - ('a' as int) + 1
    ensures 'A' <= c <= 'Z' ==> 27 <= r <= 52 && r == (c as int) - ('A' as int) + 27
  {
    if IsUpperCase(c) then (c as int) - 64 + 26 else (c as int) - 96
  }

  predicate IsLetter(c: char)
  {
    'a' <= c <= 'z' || 'A' <= c <= 'Z'
  }

  /** Different letters have different priorities, and every priority 1..52 belongs to a letter. */
  lemma ScoresIdentifyLetters(c: char, d: char, p: int)
    ensures IsLetter(c) && IsLetter(d) && ItemTypeScore(c) == ItemTypeScore(d) ==> c == d
    ensures 1 <= p <= 52 ==> exists l :: IsLetter(l) && ItemTypeScore(l) == p
  {
    if 1 <= p <= 26 {
      var l := (('a' as int) + p - 1) as char;
      assert IsLetter(l) && ItemTypeScore(l) == p;
    } else if 27 <= p <= 52 {
      var l := (('A' as int) + p - 27) as char;
      assert IsLetter(l) && ItemTypeScore(l) == p;
    }
  }

  /** The first element of `a` that also occurs in `b`: `a.toSet().intersect(b.toSet()).first()`. */
  function FirstShared(a: seq<char>, b: seq<char>): (r: Option<char>)
    ensures r.None? <==> forall i :: 0 <= i < |a| ==> a[i] !in b
    ensures r.Some? ==> exists i :: 0 <= i < |a| && a[i] == r.value && r.value in b && forall j :: 0 <= j < i ==> a[j] !in b
    decreases |a|
  {
    if a == [] then None
    else if a[0] in b then Some(a[0])
    else
      var r := FirstShared(a[1..], b);
      if r.Some? then
        var i :| 0 <= i < |a[1..]| && a[1..][i] == r.value && r.value in b && forall j :: 0 <= j < i ==> a[1..][j] !in b;
        assert a[i + 1] == r.value && forall j :: 0 <= j < i + 1 ==> a[j] !in b;
        r
      else r
  }

  /**
   * `findCommonItemTypeBetweenCompartments`: the items cut into chunks of half the length,
   * and the first item of the first chunk found in the second. A rucksack with fewer than two
   * items makes `chunked(0)` throw, and one without a shared item makes `first()` throw.
   */
  function FindCommonItemType(items: seq<char>): Option<char>
  {
    var half := |items| / 2;
    if half == 0 then None
    else
      var compartments := Chunked(items, half);
      assert compartments == [items[..half]] + Chunked(items[half..], half);
      FirstShared(compartments[0], compartments[1])
  }

  /**
   * The two compartments are the first `|items| / 2` items and the next `|items| / 2`: the two
   * halves for an even length, while the last item of an odd-length rucksack is in neither.
   */
  lemma Compartments(items: seq<char>)
    requires |items| >= 2
    ensures var half := |items| / 2;
      var compartments := Chunked(items, half);
      && |compartments| >= 2
      && compartments[0] == items[..half]
      && compartments[1] == items[half .. 2 * half]
      && FindCommonItemType(items) == FirstShared(items[..half], items[half .. 2 * half])
  {
    var half := |items| / 2;
    var compartments := Chunked(items, half);
    assert compartments == [items[..half]] + Chunked(items[half..], half);
    ChunkAt(items, half, 0);
    ChunkAt(items, half, 1);
  }

  /** Part one: the summed priorities of every rucksack's common item. */
  function Part1(rucksacks: seq<seq<char>>): Option<int>
    decreases |rucksacks|
  {
    if rucksacks == [] then Some(0)
    else
      var front := Part1(rucksacks[..|rucksacks| - 1]);
      var common := FindCommonItemType(rucksacks[|rucksacks| - 1]);
      if front.None? || common.None? then None else Some(front.value + ItemTypeScore(common.value))
  }

  /**
   * The item of a group, `first()` of the intersection of the three rucksacks' item sets:
   * the first item of the first rucksack found in the other two. A group of fewer than three
   * makes `group[1]` or `group[2]` throw.
   */
  function GroupBadge(group: seq<seq<char>>): (r: Option<char>)
    ensures r.Some? ==> |group| >= 3 && r.value in group[0] && r.value in group[1] && r.value in group[2]
    ensures |group| >= 3 && r.None? ==> forall c :: c in group[0] ==> c !in group[1] || c !in group[2]
  {
    if |group| < 3 then None
    else
      var r := FirstShared(group[0], Common(group[1], group[2]));
      if r.None? then
        forall c | c in group[0] ensures c !in group[1] || c !in group[2] {
          var i :| 0 <= i < |group[0]| && group[0][i] == c;
        }
        r
      else r
  }

  /** The items of `a` that also occur in `b`, in the order of `a`. */
  function Common(a: seq<char>, b: seq<char>): (r: seq<char>)
    ensures forall c :: c in r <==> c in a && c in b
    decreases |a|
  {
    if a == [] then []
    else (if a[0] in b then [a[0]] else []) + Common(a[1..], b)
  }

  /** Part two: the rucksacks in consecutive groups of three, and the summed priorities of their items. */
  function Part2(rucksacks: seq<seq<char>>): Option<int>
  {
    SumBadges(Chunked(rucksacks, 3))
  }

  function SumBadges(groups: seq<seq<seq<char>>>): Option<int>
    decreases |groups|
  {
    if groups == [] then Some(0)
    else
      var front := SumBadges(groups[..|groups| - 1]);
      var badge := GroupBadge(groups[|groups| - 1]);
      if front.None? || badge.None? then None else Some(front.value + ItemTypeScore(badge.value))
  }

  /**
   * Part two succeeds only on a number of rucksacks divisible by three, each group of three
   * consecutive rucksacks sharing an item; its result then sums one letter priority per group.
   */
  lemma {:induction false} Part2Groups(rucksacks: seq<seq<char>>)
    requires Part2(rucksacks).Some?
    ensures |rucksacks| % 3 == 0
    ensures forall g :: 0 <= g < |rucksacks| / 3 ==> GroupBadge(rucksacks[3 * g .. 3 * g + 3]).Some?
  {
    var groups := Chunked(rucksacks, 3);
    SumBadgesAll(groups);
    assert forall i :: 0 <= i < |groups| ==> |groups[i]| == 3;
    ChunksOfThree(rucksacks);
    var n := |groups|;
    assert |rucksacks| == 3 * n;
    assert |rucksacks| / 3 == n;
  }

  /** When every chunk has three elements, chunk `g` is the slice of rucksacks `3 g` to `3 g + 3`. */
  lemma ChunksOfThree(rucksacks: seq<seq<char>>)
    requires forall i :: 0 <= i < |Chunked(rucksacks, 3)| ==> |Chunked(rucksacks, 3)[i]| == 3
    ensures |rucksacks| == 3 * |Chunked(rucksacks, 3)|
    ensures forall g :: 0 <= g < |Chunked(rucksacks, 3)| ==>
      3 * g + 3 <= |rucksacks| && Chunked(rucksacks, 3)[g] == rucksacks[3 * g .. 3 * g + 3]
  {
    var groups := Chunked(rucksacks, 3);
    ChunkedFlatten(rucksacks, 3);
    FlattenLength(groups);
    forall g | 0 <= g < |groups|
      ensures 3 * g + 3 <= |rucksacks| && groups[g] == rucksacks[3 * g .. 3 * g + 3]
    {
      ChunkAt(rucksacks, 3, g);
    }
  }

  /** The length of a flattened list when every chunk has three elements. */
  lemma {:induction false} FlattenLength(groups: seq<seq<seq<char>>>)
    requires forall i :: 0 <= i < |groups| ==> |groups[i]| == 3
    ensures |Flatten(groups)| == 3 * |groups|
    decreases |groups|
  {
    if groups != [] {
      FlattenLength(groups[1..]);
    }
  }

  lemma {:induction false} SumBadgesAll(groups: seq<seq<seq<char>>>)
    requires SumBadges(groups).Some?
    ensures forall i :: 0 <= i < |groups| ==> GroupBadge(groups[i]).Some?
    decreases |groups|
  {
    if groups != [] {
      SumBadgesAll(groups[..|groups| - 1]);
      assert forall i :: 0 <= i < |groups| - 1 ==> groups[..|groups| - 1][i] == groups[i];
    }
  }
}
