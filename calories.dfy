/**
 * Calorie counting: the input lists the calories each elf carries, one number per line, with
 * a blank line between elves. `main` gives every line the number of blank lines before it as
 * its elf key (blank lines themselves get -1), groups the lines by key, drops the -1 group,
 * sums each elf's lines and sorts the totals in descending order; it reports the first total
 * and the sum of the first three.
 */
module Calories {
  import opened Results
  import opened Seqs
  import opened Text

  /** The number of blank lines in `lines`. */
  function Blanks(lines: seq<string>): nat
    decreases |lines|
  {
    if lines == [] then 0
    else Blanks(lines[..|lines| - 1]) + if IsBlank(lines[|lines| - 1]) then 1 else 0
  }

  /** The key the `groupBy` lambda gives line `i`: -1 for a blank line, otherwise its elf. */
  function KeyOf(lines: seq<string>, i: nat): int
    requires i < |lines|
  {
    if IsBlank(lines[i]) then -1 else Blanks(lines[..i])
  }

  /** The `groupBy` key lambda, run over the lines in order with its captured counter `elf`. */
  method ElfKeys(lines: seq<string>) returns (keys: seq<int>)
    ensures |keys| == |lines|
    ensures forall i :: 0 <= i < |lines| ==> keys[i] == KeyOf(lines, i)
  {
    var elf := 0;
    keys := [];
    for i := 0 to |lines|
      invariant |keys| == i && elf == Blanks(lines[..i])
      invariant forall j :: 0 <= j < i ==> keys[j] == KeyOf(lines, j)
    {
      assert lines[..i + 1][..i] == lines[..i];
      if IsBlank(lines[i]) {
        elf := elf + 1;
        keys := keys + [-1];
      } else {
        keys := keys + [elf];
      }
    }
  }

  lemma {:induction false} BlanksAppend(a: seq<string>, b: seq<string>)
    ensures Blanks(a + b) == Blanks(a) + Blanks(b)
    decreases |b|
  {
    if b != [] {
      assert (a + b)[..|a + b| - 1] == a + b[..|b| - 1];
      BlanksAppend(a, b[..|b| - 1]);
    } else {
      assert a + b == a;
    }
  }

  lemma {:induction false} NoBlanks(s: seq<string>)
    ensures Blanks(s) == 0 <==> forall k :: 0 <= k < |s| ==> !IsBlank(s[k])
    decreases |s|
  {
    if s != [] {
      NoBlanks(s[..|s| - 1]);
      assert forall k :: 0 <= k < |s| - 1 ==> s[..|s| - 1][k] == s[k];
    }
  }

  /** Two non-blank lines belong to the same elf exactly when no blank line comes between them. */
  lemma SameElf(lines: seq<string>, i: nat, j: nat)
    requires i < j < |lines| && !IsBlank(lines[i]) && !IsBlank(lines[j])
    ensures KeyOf(lines, i) == KeyOf(lines, j) <==> forall k :: i < k < j ==> !IsBlank(lines[k])
  {
    assert lines[..j] == lines[..i] + lines[i..j];
    BlanksAppend(lines[..i], lines[i..j]);
    assert lines[i..j] == [lines[i]] + lines[i + 1..j];
    BlanksAppend([lines[i]], lines[i + 1..j]);
    assert [lines[i]][..0] == [];
    NoBlanks(lines[i + 1..j]);
    assert forall k :: i < k < j ==> lines[i + 1..j][k - i - 1] == lines[k];
  }

  /** A blank line is keyed -1 and every later line belongs to a later elf than every earlier one. */
  lemma BlankSeparates(lines: seq<string>, i: nat, b: nat, j: nat)
    requires i < b < j < |lines| && IsBlank(lines[b]) && !IsBlank(lines[i]) && !IsBlank(lines[j])
    ensures KeyOf(lines, b) == -1 && 0 <= KeyOf(lines, i) < KeyOf(lines, j)
  {
    SameElf(lines, i, j);
    assert lines[..j] == lines[..i] + lines[i..j];
    BlanksAppend(lines[..i], lines[i..j]);
  }

  /** One group of `groupBy`: a key and the values with that key, in input order. */
  datatype Group = Group(key: int, values: seq<int>)

  /** The position of the group with key `k`, or `|groups|` when there is none. */
  function Find(groups: seq<Group>, k: int): (i: nat)
    ensures i <= |groups|
    ensures i < |groups| ==> groups[i].key == k
    ensures forall j :: 0 <= j < i ==> groups[j].key != k
    decreases |groups|
  {
    if groups == [] then 0
    else if groups[0].key == k then 0
    else 1 + Find(groups[1..], k)
  }

  /**
   * Kotlin `groupBy`: a group per key, in the order the keys first appear; each value is
   * appended to the group of its key.
   */
  function GroupBy(keys: seq<int>, vals: seq<int>): seq<Group>
    requires |keys| == |vals|
    decreases |keys|
  {
    if keys == [] then []
    else
      var n := |keys| - 1;
      var groups := GroupBy(keys[..n], vals[..n]);
      var g := Find(groups, keys[n]);
      if g < |groups| then groups[g := Group(keys[n], groups[g].values + [vals[n]])]
      else groups + [Group(keys[n], [vals[n]])]
  }

  /** The values whose key is `k`, in input order. */
  function Select(keys: seq<int>, vals: seq<int>, k: int): seq<int>
    requires |keys| == |vals|
    decreases |keys|
  {
    if keys == [] then []
    else
      var n := |keys| - 1;
      Select(keys[..n], vals[..n], k) + if keys[n] == k then [vals[n]] else []
  }

  /** `groupBy` gives every key of the input one group, and no group to any other key. */
  lemma {:induction false} GroupKeys(keys: seq<int>, vals: seq<int>)
    requires |keys| == |vals|
    ensures forall g, h :: 0 <= g < h < |GroupBy(keys, vals)| ==> GroupBy(keys, vals)[g].key != GroupBy(keys, vals)[h].key
    ensures forall k :: k in keys <==> Find(GroupBy(keys, vals), k) < |GroupBy(keys, vals)|
    decreases |keys|
  {
    if keys != [] {
      var n := |keys| - 1;
      var k0, v0 := keys[..n], vals[..n];
      GroupKeys(k0, v0);
      var groups := GroupBy(keys, vals);
      var before := GroupBy(k0, v0);
      assert keys == k0 + [keys[n]];
      var g := Find(before, keys[n]);
      if g < |before| {
        assert forall j :: 0 <= j < |before| ==> groups[j].key == before[j].key;
      } else {
        assert groups == before + [Group(keys[n], [vals[n]])];
      }
      forall k ensures k in keys <==> Find(groups, k) < |groups| {
        if g < |before| {
          FindSameKeys(groups, before, k);
        } else {
          FindAppend(before, groups[|before|], k);
        }
        if k in keys && k != keys[n] {
          assert k in k0;
        }
      }
    }
  }

  /** A group of `groupBy` holds exactly the values of its key, in input order. */
  lemma {:induction false} GroupValues(keys: seq<int>, vals: seq<int>, h: nat)
    requires |keys| == |vals| && h < |GroupBy(keys, vals)|
    ensures GroupBy(keys, vals)[h].values == Select(keys, vals, GroupBy(keys, vals)[h].key)
    decreases |keys|
  {
    var n := |keys| - 1;
    var k0, v0 := keys[..n], vals[..n];
    var groups := GroupBy(keys, vals);
    var before := GroupBy(k0, v0);
    var g := Find(before, keys[n]);
    var k := groups[h].key;
    assert Select(keys, vals, k) == Select(k0, v0, k) + if keys[n] == k then [vals[n]] else [];
    GroupKeys(k0, v0);
    if g < |before| {
      GroupValues(k0, v0, g);
      if h != g {
        GroupValues(k0, v0, h);
        assert groups[h] == before[h];
      }
    } else if h == |before| {
      assert keys[n] !in k0;
      SelectAbsent(k0, v0, keys[n]);
    } else {
      GroupValues(k0, v0, h);
      assert groups[h] == before[h];
    }
  }

  /**
   * `groupBy` loses and invents nothing: every key has exactly one group, and a group holds
   * exactly the values of its key, in input order.
   */
  lemma GroupByContents(keys: seq<int>, vals: seq<int>)
    requires |keys| == |vals|
    ensures forall g :: 0 <= g < |GroupBy(keys, vals)| ==>
      GroupBy(keys, vals)[g].values == Select(keys, vals, GroupBy(keys, vals)[g].key)
    ensures forall g, h :: 0 <= g < h < |GroupBy(keys, vals)| ==> GroupBy(keys, vals)[g].key != GroupBy(keys, vals)[h].key
    ensures forall k :: k in keys <==> Find(GroupBy(keys, vals), k) < |GroupBy(keys, vals)|
  {
    GroupKeys(keys, vals);
    forall g | 0 <= g < |GroupBy(keys, vals)| {
      GroupValues(keys, vals, g);
    }
  }

  lemma {:induction false} SelectAbsent(keys: seq<int>, vals: seq<int>, k: int)
    requires |keys| == |vals| && k !in keys
    ensures Select(keys, vals, k) == []
    decreases |keys|
  {
    if keys != [] {
      SelectAbsent(keys[..|keys| - 1], vals[..|vals| - 1], k);
    }
  }

  lemma {:induction false} FindSameKeys(a: seq<Group>, b: seq<Group>, k: int)
    requires |a| == |b| && forall j :: 0 <= j < |a| ==> a[j].key == b[j].key
    ensures Find(a, k) == Find(b, k)
    decreases |a|
  {
    if a != [] {
      FindSameKeys(a[1..], b[1..], k);
    }
  }

  lemma {:induction false} FindAppend(a: seq<Group>, x: Group, k: int)
    ensures Find(a + [x], k) == if Find(a, k) < |a| then Find(a, k) else if x.key == k then |a| else |a| + 1
    decreases |a|
  {
    if a == [] {
      assert [x][1..] == [];
    } else {
      assert (a + [x])[1..] == a[1..] + [x];
      FindAppend(a[1..], x, k);
    }
  }

  /** The groups kept by `filterKeys { it != -1 }`. */
  function Kept(groups: seq<Group>): seq<Group>
    decreases |groups|
  {
    if groups == [] then []
    else (if groups[0].key != -1 then [groups[0]] else []) + Kept(groups[1..])
  }

  /** `mapValues { sumOf }`: the total of every group. */
  function Totals(groups: seq<Group>): (r: seq<int>)
    ensures |r| == |groups|
    decreases |groups|
  {
    if groups == [] then [] else [Sum(groups[0].values)] + Totals(groups[1..])
  }

  /** The sum of the values not keyed -1. */
  function KeptSum(keys: seq<int>, vals: seq<int>): int
    requires |keys| == |vals|
    decreases |keys|
  {
    if keys == [] then 0
    else
      var n := |keys| - 1;
      KeptSum(keys[..n], vals[..n]) + if keys[n] != -1 then vals[n] else 0
  }

  lemma SumCons(x: int, s: seq<int>)
    ensures Sum([x] + s) == x + Sum(s)
  {
    SumAppend([x], s);
    assert [x][..0] == [];
  }

  /** The sum of the kept groups' totals, group by group. */
  function KeptTotal(groups: seq<Group>): int
    decreases |groups|
  {
    if groups == [] then 0
    else (if groups[0].key != -1 then Sum(groups[0].values) else 0) + KeptTotal(groups[1..])
  }

  lemma {:induction false} KeptTotalIsSum(groups: seq<Group>)
    ensures Sum(Totals(Kept(groups))) == KeptTotal(groups)
    decreases |groups|
  {
    if groups != [] {
      KeptTotalIsSum(groups[1..]);
      var rest := Kept(groups[1..]);
      if groups[0].key != -1 {
        assert Kept(groups) == [groups[0]] + rest;
        assert ([groups[0]] + rest)[1..] == rest;
        assert Totals(Kept(groups)) == [Sum(groups[0].values)] + Totals(rest);
        SumCons(Sum(groups[0].values), Totals(rest));
      } else {
        assert Kept(groups) == rest;
      }
    }
  }

  lemma {:induction false} KeptAppend(groups: seq<Group>, x: Group)
    ensures KeptTotal(groups + [x]) == KeptTotal(groups) + if x.key != -1 then Sum(x.values) else 0
    decreases |groups|
  {
    if groups == [] {
      assert [x][1..] == [];
    } else {
      assert (groups + [x])[1..] == groups[1..] + [x];
      KeptAppend(groups[1..], x);
    }
  }

  lemma {:induction false} KeptUpdate(groups: seq<Group>, g: nat, v: int)
    requires g < |groups|
    ensures var updated := groups[g := Group(groups[g].key, groups[g].values + [v])];
      KeptTotal(updated) == KeptTotal(groups) + if groups[g].key != -1 then v else 0
    decreases |groups|
  {
    var updated := groups[g := Group(groups[g].key, groups[g].values + [v])];
    assert Sum(groups[g].values + [v]) == Sum(groups[g].values) + v by {
      assert (groups[g].values + [v])[..|groups[g].values|] == groups[g].values;
    }
    if g == 0 {
      assert updated[1..] == groups[1..];
    } else {
      assert updated[1..] == groups[1..][g - 1 := Group(groups[g].key, groups[g].values + [v])];
      KeptUpdate(groups[1..], g - 1, v);
    }
  }

  /** Grouping and dropping the -1 group keeps the sum: the elves' totals add up to every kept value. */
  lemma {:induction false} GroupTotalsSum(keys: seq<int>, vals: seq<int>)
    requires |keys| == |vals|
    ensures KeptTotal(GroupBy(keys, vals)) == KeptSum(keys, vals)
    decreases |keys|
  {
    if keys != [] {
      var n := |keys| - 1;
      GroupTotalsSum(keys[..n], vals[..n]);
      var groups := GroupBy(keys[..n], vals[..n]);
      var g := Find(groups, keys[n]);
      if g < |groups| {
        KeptUpdate(groups, g, vals[n]);
      } else {
        KeptAppend(groups, Group(keys[n], [vals[n]]));
      }
    }
  }

  /** The calories of every line: a blank line counts 0 (its group is dropped), any other must be an `Int`. */
  function Values(lines: seq<string>): (r: Option<seq<int>>)
    ensures r.Some? ==> |r.value| == |lines|
    ensures r.Some? ==> forall i :: 0 <= i < |lines| && !IsBlank(lines[i]) ==> ParseInt(lines[i]) == Some(r.value[i])
    decreases |lines|
  {
    if lines == [] then Some([])
    else
      var n := |lines| - 1;
      var front := Values(lines[..n]);
      var last := if IsBlank(lines[n]) then Some(0) else ParseInt(lines[n]);
      if front.None? || last.None? then None
      else
        assert forall i :: 0 <= i < n ==> lines[..n][i] == lines[i];
        Some(front.value + [last.value])
  }

  function Keys(lines: seq<string>): (keys: seq<int>)
    ensures |keys| == |lines|
  {
    seq(|lines|, i requires 0 <= i < |lines| => KeyOf(lines, i))
  }

  /** The elves' totals in the order `groupBy` leaves them, before sorting. */
  function ElfTotals(lines: seq<string>): Option<seq<int>>
  {
    match Values(lines)
    case None => None
    case Some(vals) => Some(Totals(Kept(GroupBy(Keys(lines), vals))))
  }

  /** The sum of the non-blank lines' values. */
  function NonBlankSum(lines: seq<string>, vals: seq<int>): int
    requires |lines| == |vals|
    decreases |lines|
  {
    if lines == [] then 0
    else
      var n := |lines| - 1;
      NonBlankSum(lines[..n], vals[..n]) + if IsBlank(lines[n]) then 0 else vals[n]
  }

  lemma {:induction false} KeptSumOfKeys(lines: seq<string>, vals: seq<int>)
    requires |lines| == |vals|
    ensures KeptSum(Keys(lines), vals) == NonBlankSum(lines, vals)
    decreases |lines|
  {
    if lines != [] {
      var n := |lines| - 1;
      assert Keys(lines)[..n] == Keys(lines[..n]) by {
        forall i | 0 <= i < n ensures Keys(lines)[..n][i] == Keys(lines[..n])[i] {
          assert lines[..n][..i] == lines[..i];
        }
      }
      KeptSumOfKeys(lines[..n], vals[..n]);
    }
  }

  /** All elves together carry exactly the calories of all non-blank lines. */
  lemma TotalsAddUp(lines: seq<string>)
    requires Values(lines).Some?
    ensures Sum(ElfTotals(lines).value) == NonBlankSum(lines, Values(lines).value)
  {
    var vals := Values(lines).value;
    GroupTotalsSum(Keys(lines), vals);
    KeptTotalIsSum(GroupBy(Keys(lines), vals));
    KeptSumOfKeys(lines, vals);
  }

  /** Every kept group is one elf: its total is the sum of the values of exactly the lines with its key. */
  lemma ElfTotalIsItsLines(lines: seq<string>, g: nat)
    requires Values(lines).Some?
    requires g < |GroupBy(Keys(lines), Values(lines).value)|
    ensures var group := GroupBy(Keys(lines), Values(lines).value)[g];
      group.values == Select(Keys(lines), Values(lines).value, group.key)
  {
    GroupByContents(Keys(lines), Values(lines).value);
  }

  predicate SortedDescending(s: seq<int>)
  {
    forall i, j :: 0 <= i < j < |s| ==> s[i] >= s[j]
  }

  function Insert(x: int, s: seq<int>): (r: seq<int>)
    requires SortedDescending(s)
    ensures SortedDescending(r) && multiset(r) == multiset(s) + multiset{x}
    decreases |s|
  {
    if s == [] then [x]
    else if x >= s[0] then [x] + s
    else
      var rest := Insert(x, s[1..]);
      assert s == [s[0]] + s[1..];
      AtMostHead(x, s, rest);
      [s[0]] + rest
  }

  /** What is inserted below the head of a descending list stays below it. */
  lemma AtMostHead(x: int, s: seq<int>, rest: seq<int>)
    requires SortedDescending(s) && s != [] && x < s[0]
    requires multiset(rest) == multiset(s[1..]) + multiset{x}
    ensures forall i :: 0 <= i < |rest| ==> rest[i] <= s[0]
  {
    forall i | 0 <= i < |rest|
      ensures rest[i] <= s[0]
    {
      assert rest[i] in multiset(rest);
      if rest[i] != x {
        assert rest[i] in multiset(s[1..]);
        var j :| 0 <= j < |s[1..]| && s[1..][j] == rest[i];
        assert s[j + 1] == rest[i];
      }
    }
  }

  /** `sortedDescending`: the same totals, largest first. */
  function SortDescending(s: seq<int>): (r: seq<int>)
    ensures SortedDescending(r) && multiset(r) == multiset(s)
    decreases |s|
  {
    if s == [] then []
    else
      assert s == [s[0]] + s[1..];
      Insert(s[0], SortDescending(s[1..]))
  }

  /** The answers of `main`: the largest total and the sum of the first three. */
  function Answers(lines: seq<string>): Option<(int, int)>
  {
    match ElfTotals(lines)
    case None => None
    case Some(totals) =>
      var sorted := SortDescending(totals);
      if sorted == [] then None
      else Some((sorted[0], Sum(sorted[..if |sorted| < 3 then |sorted| else 3])))
  }

  /**
   * The first answer is the largest total carried by any elf, and the second sums totals no
   * smaller than any total left out; `first()` throws when there is no elf at all.
   */
  lemma AnswersAreLargest(lines: seq<string>)
    requires ElfTotals(lines).Some?
    ensures var totals := ElfTotals(lines).value;
      var sorted := SortDescending(totals);
      && (Answers(lines).None? <==> totals == [])
      && (Answers(lines).Some? ==> Answers(lines).value.0 in totals && forall t :: t in totals ==> t <= Answers(lines).value.0)
      && (forall i, j :: 0 <= i < 3 <= j < |sorted| ==> sorted[i] >= sorted[j])
  {
    var totals := ElfTotals(lines).value;
    var sorted := SortDescending(totals);
    if sorted != [] {
      assert sorted[0] in multiset(totals);
      forall t | t in totals ensures t <= sorted[0] {
        assert t in multiset(sorted);
      }
    } else {
      assert |multiset(totals)| == 0;
    }
  }
}
