/**
 * The monkey game: each monkey in turn inspects the items it holds, front first, changes their
 * worry level by its operation, reduces it modulo the product of all test divisors (and divides
 * it by three when the monkeys are calm), and throws it to one of two monkeys depending on
 * whether the new level is divisible by its test divisor. Worry levels are `BigInteger`s,
 * so they are unbounded integers here; `%` and `/` on them truncate toward zero.
 */
module Monkeys {
  import opened Results
  import opened Seqs

  /** The operations the monkey tables use: `old + c`, `old * c` and `old * old`. */
  datatype Op = Add(c: int) | Mul(c: int) | Square

  function Apply(op: Op, level: int): int
  {
    match op
    case Add(c) => level + c
    case Mul(c) => level * c
    case Square => level * level
  }

  function Magnitude(n: int): nat
  {
    if n < 0 then -n else n
  }

  /** `BigInteger.rem`: the remainder of truncating division, with the sign of `a`. */
  function Rem(a: int, b: int): (r: int)
    requires b != 0
    ensures a >= 0 ==> 0 <= r < Magnitude(b)
    ensures a < 0 ==> 0 < r + Magnitude(b) && r <= 0
  {
    if a >= 0 then a % Magnitude(b) else -((-a) % Magnitude(b))
  }

  /** `BigInteger.divide`: the quotient rounded toward zero. */
  function Quot(a: int, b: int): int
    requires b != 0
  {
    var q := Magnitude(a) / Magnitude(b);
    if (a < 0) == (b < 0) then q else -q
  }

  /** `a` is its remainder plus a multiple of `b`. */
  lemma RemQuotient(a: int, b: int) returns (q: int)
    requires b != 0
    ensures a == q * b + Rem(a, b)
  {
    var m := Magnitude(b);
    if a >= 0 {
      var q0 := a / m;
      assert a == m * q0 + a % m;
      q := if b > 0 then q0 else -q0;
    } else {
      var q0 := (-a) / m;
      assert -a == m * q0 + (-a) % m;
      q := if b > 0 then -q0 else q0;
    }
  }

  /** A multiple of `b` leaves remainder 0. */
  lemma RemOfMultiple(q: int, b: int)
    requires b != 0
    ensures Rem(q * b, b) == 0
  {
    var m := Magnitude(b);
    var k := Magnitude(q);
    assert Magnitude(q * b) == k * m by {
      if q < 0 && b < 0 { assert q * b == (-q) * (-b); }
      else if q < 0 { assert -(q * b) == (-q) * b; }
      else if b < 0 { assert -(q * b) == q * (-b); }
    }
    MultipleMod(k, m);
  }

  /** Adding a multiple of `d` does not change whether a number is divisible by `d`. */
  lemma DivisibleShift(x: int, y: int, k: int, d: int)
    requires d != 0 && x == y + k * d
    ensures Rem(x, d) == 0 <==> Rem(y, d) == 0
  {
    if Rem(y, d) == 0 {
      var q := RemQuotient(y, d);
      assert x == (q + k) * d;
      RemOfMultiple(q + k, d);
    }
    if Rem(x, d) == 0 {
      var q := RemQuotient(x, d);
      assert y == (q - k) * d;
      RemOfMultiple(q - k, d);
    }
  }

  /** Reducing modulo a multiple `m` of `d` does not change divisibility by `d`. */
  lemma ReducedDivisibility(x: int, m: int, c: int, d: int)
    requires d != 0 && m != 0 && m == c * d
    ensures Rem(Rem(x, m), d) == 0 <==> Rem(x, d) == 0
  {
    var q := RemQuotient(x, m);
    assert x == Rem(x, m) + (q * c) * d;
    DivisibleShift(x, Rem(x, m), q * c, d);
  }

  /**
   * Lines 69-74: the new worry level of an item, reduced modulo `commonMultiplier` and, when
   * the monkeys are calm, divided by three.
   */
  function Inspect(op: Op, item: int, calmed: bool, commonMultiplier: int): (r: int)
    requires commonMultiplier != 0
    ensures Apply(op, item) >= 0 ==> 0 <= r < Magnitude(commonMultiplier)
  {
    var reduced := Rem(Apply(op, item), commonMultiplier);
    if calmed then Quot(reduced, 3) else reduced
  }

  /** What a monkey does with an item: its operation, its test divisor and its two recipients. */
  datatype Rule = Rule(operation: Op, divider: int, onTrue: int, onFalse: int)

  /** `test`: the recipient of an item of the given worry level. */
  function Target(rule: Rule, item: int): (t: int)
    requires rule.divider != 0
    ensures t == rule.onTrue || t == rule.onFalse
    ensures Rem(item, rule.divider) == 0 ==> t == rule.onTrue
    ensures Rem(item, rule.divider) != 0 ==> t == rule.onFalse
  {
    if Rem(item, rule.divider) == 0 then rule.onTrue else rule.onFalse
  }

  /**
   * `commonMultiplier`: the product of the test divisors; `reduce` on an empty list throws.
   */
  function CommonMultiplier(dividers: seq<int>): (r: Option<int>)
    ensures r.None? <==> dividers == []
    ensures r.Some? ==> forall i :: 0 <= i < |dividers| && dividers[i] != 0 ==> Rem(r.value, dividers[i]) == 0
  {
    if dividers == [] then None
    else
      assert forall i :: 0 <= i < |dividers| && dividers[i] != 0 ==> Rem(Product(dividers), dividers[i]) == 0 by {
        forall i | 0 <= i < |dividers| && dividers[i] != 0 {
          FactorDivides(dividers, i);
        }
      }
      Some(Product(dividers))
  }

  lemma FactorDivides(s: seq<int>, i: nat)
    requires i < |s| && s[i] != 0
    ensures Rem(Product(s), s[i]) == 0
  {
    var c := Cofactor(s, i);
    RemOfMultiple(c, s[i]);
  }

  lemma {:induction false} ProductNonZero(s: seq<int>)
    requires forall k :: 0 <= k < |s| ==> s[k] != 0
    ensures Product(s) != 0
    decreases |s|
  {
    if s != [] {
      ProductNonZero(s[..|s| - 1]);
    }
  }

  /**
   * When the monkeys are not calm, reducing modulo the common multiplier sends every item to
   * the monkey it would have reached without the reduction.
   */
  lemma ReductionKeepsTarget(rules: seq<Rule>, j: nat, op: Op, item: int)
    requires j < |rules| && forall k :: 0 <= k < |rules| ==> rules[k].divider != 0
    ensures Product(Dividers(rules)) != 0
    ensures Target(rules[j], Inspect(op, item, false, Product(Dividers(rules)))) == Target(rules[j], Apply(op, item))
  {
    var ds := Dividers(rules);
    ProductNonZero(ds);
    var c := Cofactor(ds, j);
    ReducedDivisibility(Apply(op, item), Product(ds), c, rules[j].divider);
  }

  function Dividers(rules: seq<Rule>): (ds: seq<int>)
    ensures |ds| == |rules| && forall k :: 0 <= k < |rules| ==> ds[k] == rules[k].divider
  {
    seq(|rules|, k requires 0 <= k < |rules| => rules[k].divider)
  }

  /** The state of a monkey that the game changes: its items, front first, and its inspections. */
  datatype MonkeyState = MonkeyState(items: seq<int>, inspected: nat)

  /** Every divisor is non-zero and every recipient is a monkey of the list. */
  predicate Sound(rules: seq<Rule>)
  {
    forall k :: 0 <= k < |rules| ==>
      rules[k].divider != 0 && 0 <= rules[k].onTrue < |rules| && 0 <= rules[k].onFalse < |rules|
  }

  /** The number of items the monkeys hold together. */
  function Count(s: seq<MonkeyState>): nat
  {
    if s == [] then 0 else Count(s[..|s| - 1]) + |s[|s| - 1].items|
  }

  lemma {:induction false} CountUpdate(s: seq<MonkeyState>, j: nat, x: MonkeyState)
    requires j < |s|
    ensures Count(s[j := x]) == Count(s) - |s[j].items| + |x.items|
    decreases |s|
  {
    var t := s[j := x];
    if j < |s| - 1 {
      assert t[..|t| - 1] == s[..|s| - 1][j := x];
      CountUpdate(s[..|s| - 1], j, x);
    } else {
      assert t[..|t| - 1] == s[..|s| - 1];
    }
  }

  /**
   * One item of monkey `i`'s turn: `inspectItem` rewrites the front item, `test` picks the
   * recipient and `passItem` moves the item from the front of `i`'s list to the back of the
   * recipient's.
   */
  function Step(rules: seq<Rule>, s: seq<MonkeyState>, i: nat, calmed: bool, m: int): (r: seq<MonkeyState>)
    requires Sound(rules) && |s| == |rules| && i < |s| && s[i].items != [] && m != 0
    ensures |r| == |s| && |r[i].items| >= |s[i].items| - 1
  {
    var w := Inspect(rules[i].operation, s[i].items[0], calmed, m);
    var t := Target(rules[i], w);
    var thrown := s[i := MonkeyState(s[i].items[1..], s[i].inspected + 1)];
    thrown[t := MonkeyState(thrown[t].items + [w], thrown[t].inspected)]
  }

  /** The state of every monkey after a step, written out. */
  lemma StepAt(rules: seq<Rule>, s: seq<MonkeyState>, i: nat, calmed: bool, m: int)
    requires Sound(rules) && |s| == |rules| && i < |s| && s[i].items != [] && m != 0
    ensures var w := Inspect(rules[i].operation, s[i].items[0], calmed, m);
      var t := Target(rules[i], w);
      var r := Step(rules, s, i, calmed, m);
      forall k :: 0 <= k < |s| ==>
        r[k] == (if k == t && k == i then MonkeyState(s[i].items[1..] + [w], s[i].inspected + 1)
          else if k == t then MonkeyState(s[k].items + [w], s[k].inspected)
          else if k == i then MonkeyState(s[i].items[1..], s[i].inspected + 1)
          else s[k])
  {
  }

  /** A state in which monkey `i` has passed its front item as `Step` says is that step's result. */
  lemma {:induction false} StepFrom(rules: seq<Rule>, s: seq<MonkeyState>, i: nat, calmed: bool, m: int, r: seq<MonkeyState>)
    requires Sound(rules) && |s| == |rules| && i < |s| && s[i].items != [] && m != 0 && |r| == |s|
    requires var w := Inspect(rules[i].operation, s[i].items[0], calmed, m);
      var t := Target(rules[i], w);
      && (t == i ==> r[i] == MonkeyState(s[i].items[1..] + [w], s[i].inspected + 1))
      && (t != i ==> r[i] == MonkeyState(s[i].items[1..], s[i].inspected + 1))
      && (t != i ==> r[t] == MonkeyState(s[t].items + [w], s[t].inspected))
      && (forall k :: 0 <= k < |s| && k != i && k != t ==> r[k] == s[k])
    ensures r == Step(rules, s, i, calmed, m)
  {
    StepAt(rules, s, i, calmed, m);
    var q := Step(rules, s, i, calmed, m);
    assert forall k :: 0 <= k < |s| ==> r[k] == q[k];
  }

  /**
   * A step keeps the number of items, counts one inspection for monkey `i` only, takes one item
   * from the front of `i`'s list and adds it at the back of exactly one list.
   */
  lemma {:induction false} StepEffect(rules: seq<Rule>, s: seq<MonkeyState>, i: nat, calmed: bool, m: int)
    requires Sound(rules) && |s| == |rules| && i < |s| && s[i].items != [] && m != 0
    ensures var r := Step(rules, s, i, calmed, m);
      && Count(r) == Count(s)
      && r[i].inspected == s[i].inspected + 1
      && (forall j :: 0 <= j < |s| && j != i ==> r[j].inspected == s[j].inspected)
      && |r[i].items| >= |s[i].items| - 1
      && r[i].items[..|s[i].items| - 1] == s[i].items[1..]
      && (forall j :: 0 <= j < |s| && j != i ==> |r[j].items| >= |s[j].items| && r[j].items[..|s[j].items|] == s[j].items)
  {
    StepCount(rules, s, i, calmed, m);
    StepInspected(rules, s, i, calmed, m);
    StepItems(rules, s, i, calmed, m);
  }

  lemma {:induction false} StepCount(rules: seq<Rule>, s: seq<MonkeyState>, i: nat, calmed: bool, m: int)
    requires Sound(rules) && |s| == |rules| && i < |s| && s[i].items != [] && m != 0
    ensures Count(Step(rules, s, i, calmed, m)) == Count(s)
  {
    var w := Inspect(rules[i].operation, s[i].items[0], calmed, m);
    var t := Target(rules[i], w);
    var thrown := s[i := MonkeyState(s[i].items[1..], s[i].inspected + 1)];
    var x := MonkeyState(thrown[t].items + [w], thrown[t].inspected);
    assert Step(rules, s, i, calmed, m) == thrown[t := x];
    CountUpdate(s, i, thrown[i]);
    CountUpdate(thrown, t, x);
  }

  lemma {:induction false} StepInspected(rules: seq<Rule>, s: seq<MonkeyState>, i: nat, calmed: bool, m: int)
    requires Sound(rules) && |s| == |rules| && i < |s| && s[i].items != [] && m != 0
    ensures var r := Step(rules, s, i, calmed, m);
      && r[i].inspected == s[i].inspected + 1
      && (forall j :: 0 <= j < |s| && j != i ==> r[j].inspected == s[j].inspected)
  {
    StepAt(rules, s, i, calmed, m);
  }

  lemma {:induction false} StepItems(rules: seq<Rule>, s: seq<MonkeyState>, i: nat, calmed: bool, m: int)
    requires Sound(rules) && |s| == |rules| && i < |s| && s[i].items != [] && m != 0
    ensures var r := Step(rules, s, i, calmed, m);
      && |r[i].items| >= |s[i].items| - 1
      && r[i].items[..|s[i].items| - 1] == s[i].items[1..]
      && (forall j :: 0 <= j < |s| && j != i ==> |r[j].items| >= |s[j].items| && r[j].items[..|s[j].items|] == s[j].items)
  {
    StepAt(rules, s, i, calmed, m);
    var r := Step(rules, s, i, calmed, m);
    assert r[i].items[..|s[i].items| - 1] == s[i].items[1..];
  }

  /**
   * Monkey `i` handles `k` items: as many as it held when its turn began (line 43), even when
   * it throws some of them to itself.
   */
  function Turn(rules: seq<Rule>, s: seq<MonkeyState>, i: nat, k: nat, calmed: bool, m: int): (r: seq<MonkeyState>)
    requires Sound(rules) && |s| == |rules| && i < |s| && k <= |s[i].items| && m != 0
    ensures |r| == |s| && |r[i].items| >= |s[i].items| - k
    decreases k
  {
    if k == 0 then s
    else
      Turn(rules, Step(rules, s, i, calmed, m), i, k - 1, calmed, m)
  }

  /**
   * A turn of `k` items keeps the number of items, counts `k` inspections for monkey `i` only,
   * takes `k` items from the front of its list and only adds items at the back of the others'.
   */
  lemma {:induction false} TurnEffect(rules: seq<Rule>, s: seq<MonkeyState>, i: nat, k: nat, calmed: bool, m: int)
    requires Sound(rules) && |s| == |rules| && i < |s| && k <= |s[i].items| && m != 0
    ensures var r := Turn(rules, s, i, k, calmed, m);
      && Count(r) == Count(s)
      && r[i].inspected == s[i].inspected + k
      && (forall j :: 0 <= j < |s| && j != i ==> r[j].inspected == s[j].inspected)
      && r[i].items[..|s[i].items| - k] == s[i].items[k..]
      && (forall j :: 0 <= j < |s| && j != i ==> |r[j].items| >= |s[j].items| && r[j].items[..|s[j].items|] == s[j].items)
  {
    TurnCount(rules, s, i, k, calmed, m);
    TurnInspected(rules, s, i, k, calmed, m);
    TurnItems(rules, s, i, k, calmed, m);
  }

  lemma {:induction false} TurnCount(rules: seq<Rule>, s: seq<MonkeyState>, i: nat, k: nat, calmed: bool, m: int)
    requires Sound(rules) && |s| == |rules| && i < |s| && k <= |s[i].items| && m != 0
    ensures Count(Turn(rules, s, i, k, calmed, m)) == Count(s)
    decreases k
  {
    if k > 0 {
      var next := Step(rules, s, i, calmed, m);
      StepCount(rules, s, i, calmed, m);
      TurnCount(rules, next, i, k - 1, calmed, m);
    }
  }

  lemma {:induction false} TurnInspected(rules: seq<Rule>, s: seq<MonkeyState>, i: nat, k: nat, calmed: bool, m: int)
    requires Sound(rules) && |s| == |rules| && i < |s| && k <= |s[i].items| && m != 0
    ensures var r := Turn(rules, s, i, k, calmed, m);
      && r[i].inspected == s[i].inspected + k
      && (forall j :: 0 <= j < |s| && j != i ==> r[j].inspected == s[j].inspected)
    decreases k
  {
    if k > 0 {
      var next := Step(rules, s, i, calmed, m);
      StepInspected(rules, s, i, calmed, m);
      TurnInspected(rules, next, i, k - 1, calmed, m);
    }
  }

  lemma {:induction false} TurnItems(rules: seq<Rule>, s: seq<MonkeyState>, i: nat, k: nat, calmed: bool, m: int)
    requires Sound(rules) && |s| == |rules| && i < |s| && k <= |s[i].items| && m != 0
    ensures var r := Turn(rules, s, i, k, calmed, m);
      && r[i].items[..|s[i].items| - k] == s[i].items[k..]
      && (forall j :: 0 <= j < |s| && j != i ==> |r[j].items| >= |s[j].items| && r[j].items[..|s[j].items|] == s[j].items)
    decreases k
  {
    if k > 0 {
      var next := Step(rules, s, i, calmed, m);
      StepItems(rules, s, i, calmed, m);
      TurnItems(rules, next, i, k - 1, calmed, m);
      var r := Turn(rules, next, i, k - 1, calmed, m);
      assert r[i].items[..|s[i].items| - k] == next[i].items[..|s[i].items| - 1][k - 1..];
      forall j | 0 <= j < |s| && j != i
        ensures r[j].items[..|s[j].items|] == s[j].items
      {
        assert r[j].items[..|s[j].items|] == r[j].items[..|next[j].items|][..|s[j].items|];
      }
    }
  }

  /** A turn of `k + 1` items is a turn of `k` items followed by one more step. */
  lemma {:induction false} TurnSnoc(rules: seq<Rule>, s: seq<MonkeyState>, i: nat, k: nat, calmed: bool, m: int)
    requires Sound(rules) && |s| == |rules| && i < |s| && k < |s[i].items| && m != 0
    ensures Turn(rules, s, i, k + 1, calmed, m) == Step(rules, Turn(rules, s, i, k, calmed, m), i, calmed, m)
    decreases k
  {
    if k > 0 {
      var next := Step(rules, s, i, calmed, m);
      TurnSnoc(rules, next, i, k - 1, calmed, m);
    }
  }

  /**
   * When monkey `i` throws to other monkeys only, its turn empties its list and each item goes
   * to the back of one other list.
   */
  lemma {:induction false} TurnEmpties(rules: seq<Rule>, s: seq<MonkeyState>, i: nat, calmed: bool, m: int)
    requires Sound(rules) && |s| == |rules| && i < |s| && m != 0
    requires rules[i].onTrue != i && rules[i].onFalse != i
    ensures Turn(rules, s, i, |s[i].items|, calmed, m)[i].items == []
  {
    TurnFromOthers(rules, s, i, |s[i].items|, calmed, m);
  }

  lemma {:induction false} TurnFromOthers(rules: seq<Rule>, s: seq<MonkeyState>, i: nat, k: nat, calmed: bool, m: int)
    requires Sound(rules) && |s| == |rules| && i < |s| && k <= |s[i].items| && m != 0
    requires rules[i].onTrue != i && rules[i].onFalse != i
    ensures Turn(rules, s, i, k, calmed, m)[i].items == s[i].items[k..]
    decreases k
  {
    if k > 0 {
      var next := Step(rules, s, i, calmed, m);
      assert next[i].items == s[i].items[1..];
      TurnFromOthers(rules, next, i, k - 1, calmed, m);
      assert s[i].items[1..][k - 1..] == s[i].items[k..];
    }
  }

  /**
   * Monkey `i`'s turn (lines 39-47): nothing when it holds no items, otherwise as many steps as
   * it holds items when the turn begins.
   */
  function TurnOf(rules: seq<Rule>, s: seq<MonkeyState>, i: nat, calmed: bool, m: int): (r: seq<MonkeyState>)
    requires Sound(rules) && |s| == |rules| && i < |s| && m != 0
    ensures |r| == |s|
  {
    if s[i].items == [] then s else Turn(rules, s, i, |s[i].items|, calmed, m)
  }

  /** The turns of monkeys `from`, `from + 1`, … of one round (line 38). */
  function Round(rules: seq<Rule>, s: seq<MonkeyState>, from: nat, calmed: bool, m: int): (r: seq<MonkeyState>)
    requires Sound(rules) && |s| == |rules| && from <= |s| && m != 0
    ensures |r| == |s|
    decreases |s| - from
  {
    if from == |s| then s
    else Round(rules, TurnOf(rules, s, from, calmed, m), from + 1, calmed, m)
  }

  /** The turns of monkeys `0`, …, `from - 1` of one round. */
  function FirstTurns(rules: seq<Rule>, s: seq<MonkeyState>, from: nat, calmed: bool, m: int): (r: seq<MonkeyState>)
    requires Sound(rules) && |s| == |rules| && from <= |s| && m != 0
    ensures |r| == |s|
  {
    if from == 0 then s else TurnOf(rules, FirstTurns(rules, s, from - 1, calmed, m), from - 1, calmed, m)
  }

  lemma FirstTurnsNext(rules: seq<Rule>, s: seq<MonkeyState>, from: nat, calmed: bool, m: int)
    requires Sound(rules) && |s| == |rules| && from < |s| && m != 0
    ensures FirstTurns(rules, s, from + 1, calmed, m) == TurnOf(rules, FirstTurns(rules, s, from, calmed, m), from, calmed, m)
  {
  }

  /** `now` is what the first `from` turns of a round leave of `s`. */
  predicate TurnsTaken(rules: seq<Rule>, s: seq<MonkeyState>, from: nat, now: seq<MonkeyState>, calmed: bool, m: int)
  {
    Sound(rules) && |s| == |rules| && from <= |s| && m != 0 && now == FirstTurns(rules, s, from, calmed, m)
  }

  lemma TurnsTakenNext(rules: seq<Rule>, s: seq<MonkeyState>, from: nat, before: seq<MonkeyState>,
                       after: seq<MonkeyState>, calmed: bool, m: int)
    requires TurnsTaken(rules, s, from, before, calmed, m) && from < |s|
    requires after == TurnOf(rules, before, from, calmed, m)
    ensures TurnsTaken(rules, s, from + 1, after, calmed, m)
  {
    FirstTurnsNext(rules, s, from, calmed, m);
  }

  /** A round is its first turns followed by the rest. */
  lemma {:induction false} RoundAfter(rules: seq<Rule>, s: seq<MonkeyState>, from: nat, calmed: bool, m: int)
    requires Sound(rules) && |s| == |rules| && from <= |s| && m != 0
    ensures Round(rules, s, 0, calmed, m) == Round(rules, FirstTurns(rules, s, from, calmed, m), from, calmed, m)
  {
    if from > 0 {
      RoundAfter(rules, s, from - 1, calmed, m);
    }
  }

  /** `n` rounds of the game. */
  function Rounds(rules: seq<Rule>, s: seq<MonkeyState>, n: nat, calmed: bool, m: int): (r: seq<MonkeyState>)
    requires Sound(rules) && |s| == |rules| && m != 0
    ensures |r| == |s|
  {
    if n == 0 then s else Round(rules, Rounds(rules, s, n - 1, calmed, m), 0, calmed, m)
  }

  /**
   * In a round every monkey that holds items when its turn comes inspects all of them, so its
   * count grows by exactly that number; the items themselves are only moved.
   */
  lemma {:induction false} RoundEffect(rules: seq<Rule>, s: seq<MonkeyState>, from: nat, calmed: bool, m: int)
    requires Sound(rules) && |s| == |rules| && from <= |s| && m != 0
    ensures var r := Round(rules, s, from, calmed, m);
      && Count(r) == Count(s)
      && (forall j :: 0 <= j < |s| ==> r[j].inspected >= s[j].inspected)
      && (forall j :: 0 <= j < from ==> r[j].inspected == s[j].inspected)
      && (from < |s| ==> r[from].inspected == s[from].inspected + |s[from].items|)
  {
    RoundCount(rules, s, from, calmed, m);
    RoundInspected(rules, s, from, calmed, m);
  }

  /** A turn keeps the number of items and counts one inspection per item the monkey held. */
  lemma {:induction false} TurnOfEffect(rules: seq<Rule>, s: seq<MonkeyState>, i: nat, calmed: bool, m: int)
    requires Sound(rules) && |s| == |rules| && i < |s| && m != 0
    ensures var r := TurnOf(rules, s, i, calmed, m);
      && Count(r) == Count(s)
      && r[i].inspected == s[i].inspected + |s[i].items|
      && (forall j :: 0 <= j < |s| && j != i ==> r[j].inspected == s[j].inspected)
  {
    if s[i].items != [] {
      TurnCount(rules, s, i, |s[i].items|, calmed, m);
      TurnInspected(rules, s, i, |s[i].items|, calmed, m);
    }
  }

  lemma {:induction false} RoundCount(rules: seq<Rule>, s: seq<MonkeyState>, from: nat, calmed: bool, m: int)
    requires Sound(rules) && |s| == |rules| && from <= |s| && m != 0
    ensures Count(Round(rules, s, from, calmed, m)) == Count(s)
    decreases |s| - from
  {
    if from < |s| {
      TurnOfEffect(rules, s, from, calmed, m);
      RoundCount(rules, TurnOf(rules, s, from, calmed, m), from + 1, calmed, m);
    }
  }

  lemma {:induction false} RoundInspected(rules: seq<Rule>, s: seq<MonkeyState>, from: nat, calmed: bool, m: int)
    requires Sound(rules) && |s| == |rules| && from <= |s| && m != 0
    ensures var r := Round(rules, s, from, calmed, m);
      && (forall j :: 0 <= j < |s| ==> r[j].inspected >= s[j].inspected)
      && (forall j :: 0 <= j < from ==> r[j].inspected == s[j].inspected)
      && (from < |s| ==> r[from].inspected == s[from].inspected + |s[from].items|)
    decreases |s| - from
  {
    if from < |s| {
      var t := TurnOf(rules, s, from, calmed, m);
      TurnOfEffect(rules, s, from, calmed, m);
      RoundInspected(rules, t, from + 1, calmed, m);
    }
  }

  /** The game moves items between monkeys but never creates or loses one. */
  lemma {:induction false} RoundsEffect(rules: seq<Rule>, s: seq<MonkeyState>, n: nat, calmed: bool, m: int)
    requires Sound(rules) && |s| == |rules| && m != 0
    ensures var r := Rounds(rules, s, n, calmed, m);
      && Count(r) == Count(s)
      && forall j :: 0 <= j < |s| ==> r[j].inspected >= s[j].inspected
  {
    if n > 0 {
      var before := Rounds(rules, s, n - 1, calmed, m);
      RoundsEffect(rules, s, n - 1, calmed, m);
      RoundEffect(rules, before, 0, calmed, m);
    }
  }

  class Monkey {
    const id: int
    var items: seq<int>
    const operation: Op
    const testDivider: int
    const testTrue: int
    const testFalse: int
    var inspectedItems: nat

    constructor(id: int, items: seq<int>, operation: Op, testDivider: int, testTrue: int, testFalse: int)
      ensures this.id == id && this.items == items && this.operation == operation
      ensures this.testDivider == testDivider && this.testTrue == testTrue && this.testFalse == testFalse
      ensures inspectedItems == 0
    {
      this.id := id;
      this.items := items;
      this.operation := operation;
      this.testDivider := testDivider;
      this.testTrue := testTrue;
      this.testFalse := testFalse;
      inspectedItems := 0;
    }

    function Behaviour(): Rule
    {
      Rule(operation, testDivider, testTrue, testFalse)
    }

    function State(): MonkeyState
      reads this
    {
      MonkeyState(items, inspectedItems)
    }

    predicate HasItems()
      reads this
    {
      items != []
    }

    /** Counts an inspection and rewrites the front item with its new worry level. */
    method InspectItem(calmed: bool, commonMultiplier: int) returns (item: int)
      requires items != [] && commonMultiplier != 0
      modifies this
      ensures inspectedItems == old(inspectedItems) + 1
      ensures item == Inspect(operation, old(items[0]), calmed, commonMultiplier)
      ensures items == old(items)[0 := item]
    {
      inspectedItems := inspectedItems + 1;
      item := items[0];
      item := Apply(operation, item);
      item := Rem(item, commonMultiplier);
      if calmed {
        item := Quot(item, 3);
      }
      items := items[0 := item];
    }

    /** Moves the front item to the back of the recipient's list, which may be this monkey's. */
    method PassItem(recipient: Monkey)
      requires items != []
      modifies this, recipient
      ensures recipient == this ==> items == old(items[1..]) + [old(items[0])]
      ensures recipient != this ==> items == old(items[1..]) && recipient.items == old(recipient.items) + [old(items[0])]
      ensures inspectedItems == old(inspectedItems) && recipient.inspectedItems == old(recipient.inspectedItems)
    {
      var item := items[0];
      items := items[1..];
      recipient.items := recipient.items + [item];
    }

    function Test(item: int): (t: int)
      requires testDivider != 0
      ensures t == Target(Behaviour(), item)
    {
      if Rem(item, testDivider) == 0 then testTrue else testFalse
    }
  }

  /** The states of the monkeys of a list, in list order. */
  function States(monkeys: seq<Monkey>): (s: seq<MonkeyState>)
    reads set m | m in monkeys
    ensures |s| == |monkeys|
    ensures forall k :: 0 <= k < |monkeys| ==> s[k] == MonkeyState(monkeys[k].items, monkeys[k].inspectedItems)
  {
    if monkeys == [] then []
    else States(monkeys[..|monkeys| - 1]) + [monkeys[|monkeys| - 1].State()]
  }

  function Rules(monkeys: seq<Monkey>): (rules: seq<Rule>)
    ensures |rules| == |monkeys| && forall k :: 0 <= k < |monkeys| ==> rules[k] == monkeys[k].Behaviour()
  {
    seq(|monkeys|, k requires 0 <= k < |monkeys| => monkeys[k].Behaviour())
  }

  class Game {
    const monkeys: seq<Monkey>
    const rounds: int
    const calmed: bool
    const commonMultiplier: int

    /** The monkeys are distinct objects, their table is sound and the multiplier is their product. */
    predicate Valid()
    {
      && (forall j, k :: 0 <= j < k < |monkeys| ==> monkeys[j] != monkeys[k])
      && Sound(Rules(monkeys))
      && commonMultiplier == Product(Dividers(Rules(monkeys)))
      && commonMultiplier != 0
    }

    constructor(monkeys: seq<Monkey>, rounds: int, calmed: bool)
      requires monkeys != []
      ensures this.monkeys == monkeys && this.rounds == rounds && this.calmed == calmed
      ensures CommonMultiplier(Dividers(Rules(monkeys))) == Some(commonMultiplier)
    {
      this.monkeys := monkeys;
      this.rounds := rounds;
      this.calmed := calmed;
      this.commonMultiplier := Product(Dividers(Rules(monkeys)));
    }

    /** `play`: `rounds` rounds, in each of which the monkeys take their turns in list order. */
    method Play() returns (r: seq<Monkey>)
      requires Valid()
      modifies set m | m in monkeys
      ensures r == monkeys
      ensures States(monkeys) == Rounds(Rules(monkeys), old(States(monkeys)), if rounds < 0 then 0 else rounds, calmed, commonMultiplier)
    {
      var rules := Rules(monkeys);
      ghost var start := States(monkeys);
      var n := if rounds < 0 then 0 else rounds;
      for round := 0 to n
        invariant States(monkeys) == Rounds(rules, start, round, calmed, commonMultiplier)
      {
        PlayRound(rules);
      }
      r := monkeys;
    }

    /** One round: the monkeys take their turns in list order. */
    method PlayRound(rules: seq<Rule>)
      requires Valid() && rules == Rules(monkeys)
      modifies set m | m in monkeys
      ensures States(monkeys) == Round(rules, old(States(monkeys)), 0, calmed, commonMultiplier)
    {
      ghost var start := States(monkeys);
      for i := 0 to |monkeys|
        invariant TurnsTaken(rules, start, i, States(monkeys), calmed, commonMultiplier)
      {
        TakeTurnOfRound(rules, start, i);
      }
      RoundAfter(rules, start, |monkeys|, calmed, commonMultiplier);
    }

    /** Monkey `i`'s turn, after the turns of the monkeys before it in the round. */
    method TakeTurnOfRound(rules: seq<Rule>, ghost start: seq<MonkeyState>, i: nat)
      requires Valid() && rules == Rules(monkeys) && i < |monkeys|
      requires TurnsTaken(rules, start, i, States(monkeys), calmed, commonMultiplier)
      modifies set m | m in monkeys
      ensures TurnsTaken(rules, start, i + 1, States(monkeys), calmed, commonMultiplier)
    {
      ghost var before := States(monkeys);
      TakeTurn(rules, i);
      TurnsTakenNext(rules, start, i, before, States(monkeys), calmed, commonMultiplier);
    }

    /** Monkey `i`'s turn: it handles as many items as it holds when the turn begins. */
    method TakeTurn(rules: seq<Rule>, i: nat)
      requires Valid() && rules == Rules(monkeys) && i < |monkeys|
      modifies set m | m in monkeys
      ensures States(monkeys) == TurnOf(rules, old(States(monkeys)), i, calmed, commonMultiplier)
    {
      var monkey := monkeys[i];
      if !monkey.HasItems() {
        return;
      }
      ghost var before := States(monkeys);
      var count := |monkey.items|;
      for k := 0 to count
        invariant States(monkeys) == Turn(rules, before, i, k, calmed, commonMultiplier)
      {
        TakeOne(rules, i);
        TurnSnoc(rules, before, i, k, calmed, commonMultiplier);
      }
    }

    /** One pass of the inner loop: `inspectItem`, `test`, `passItem`. */
    method TakeOne(rules: seq<Rule>, i: nat)
      requires Valid() && rules == Rules(monkeys) && i < |monkeys| && monkeys[i].items != []
      modifies set m | m in monkeys
      ensures States(monkeys) == Step(rules, old(States(monkeys)), i, calmed, commonMultiplier)
    {
      ghost var s := States(monkeys);
      var monkey := monkeys[i];
      var worryLevel := monkey.InspectItem(calmed, commonMultiplier);
      var target := monkey.Test(worryLevel);
      var recipient := monkeys[target];
      monkey.PassItem(recipient);
      assert worryLevel == Inspect(rules[i].operation, s[i].items[0], calmed, commonMultiplier);
      assert target == Target(rules[i], worryLevel);
      ghost var r := States(monkeys);
      forall k | 0 <= k < |monkeys| && k != i && k != target
        ensures r[k] == s[k]
      {
        assert monkeys[k] != monkey && monkeys[k] != recipient;
      }
      StepFrom(rules, s, i, calmed, commonMultiplier, r);
    }
  }
}
