/**
 * Rock-paper-scissors strategy guide. Every line holds an opponent code (A/B/C) and a second
 * code (X/Y/Z), read in part one as the player's shape and in part two as the result the player
 * must reach. A round scores the result (won 6, draw 3, lost 0) plus the player's shape
 * (rock 1, paper 2, scissors 3).
 */
module Rps {
  import opened Results
  import opened Seqs
  import opened Text

  datatype Symbol = Rock | Paper | Scissors
  {
    function OpponentChar(): string
    {
      match this
      case Rock => "A"
      case Paper => "B"
      case Scissors => "C"
    }

    function PlayerChar(): string
    {
      match this
      case Rock => "X"
      case Paper => "Y"
      case Scissors => "Z"
    }

    function Score(): int
    {
      match this
      case Rock => 1
      case Paper => 2
      case Scissors => 3
    }
  }

  datatype GameResult = Won | Draw | Lost
  {
    function ResultChar(): string
    {
      match this
      case Won => "Z"
      case Draw => "Y"
      case Lost => "X"
    }

    function Score(): int
    {
      match this
      case Won => 6
      case Draw => 3
      case Lost => 0
    }
  }

  /** `values()` of the enums, in declaration order. */
  const Symbols: seq<Symbol> := [Rock, Paper, Scissors]
  const GameResults: seq<GameResult> := [Won, Draw, Lost]

  /** `Symbol.getByOpponentChar`: the first symbol with that code; any other code throws. */
  function SymbolByOpponentChar(code: string): (r: Option<Symbol>)
  {
    if code == Rock.OpponentChar() then Some(Rock)
    else if code == Paper.OpponentChar() then Some(Paper)
    else if code == Scissors.OpponentChar() then Some(Scissors)
    else None
  }

  function SymbolByPlayerChar(code: string): (r: Option<Symbol>)
  {
    if code == Rock.PlayerChar() then Some(Rock)
    else if code == Paper.PlayerChar() then Some(Paper)
    else if code == Scissors.PlayerChar() then Some(Scissors)
    else None
  }

  function ResultByChar(code: string): (r: Option<GameResult>)
  {
    if code == Won.ResultChar() then Some(Won)
    else if code == Draw.ResultChar() then Some(Draw)
    else if code == Lost.ResultChar() then Some(Lost)
    else None
  }

  /**
   * Every code decodes back to the value it belongs to, and a code decodes exactly when it is
   * one of the three codes of its kind.
   */
  lemma CodesDecode(s: Symbol, g: GameResult, code: string)
    ensures SymbolByOpponentChar(s.OpponentChar()) == Some(s)
    ensures SymbolByPlayerChar(s.PlayerChar()) == Some(s)
    ensures ResultByChar(g.ResultChar()) == Some(g)
    ensures SymbolByOpponentChar(code).Some? <==> code in {"A", "B", "C"}
    ensures SymbolByPlayerChar(code).Some? <==> code in {"X", "Y", "Z"}
    ensures ResultByChar(code).Some? <==> code in {"X", "Y", "Z"}
    ensures ResultByChar(code) == Some(Lost) <==> code == "X"
    ensures ResultByChar(code) == Some(Won) <==> code == "Z"
  {
  }

  /** Each symbol and result decodes from its own code. */
  lemma CharsDecode(s: Symbol, g: GameResult)
    ensures SymbolByOpponentChar(s.OpponentChar()) == Some(s)
    ensures ResultByChar(g.ResultChar()) == Some(g)
  {
  }

  /** Kotlin `mapOf` / `associate`: the entries in order, a later entry replacing an earlier key. */
  function Associate<K(==), V>(entries: seq<(K, V)>): (m: map<K, V>)
    ensures m.Keys == set i | 0 <= i < |entries| :: entries[i].0
    decreases |entries|
  {
    if entries == [] then map[]
    else
      var front := entries[..|entries| - 1];
      var last := entries[|entries| - 1];
      var m := Associate(front);
      assert forall i :: 0 <= i < |front| ==> front[i] == entries[i];
      m[last.0 := last.1]
  }

  /** The table of `Round.states`: (opponent, player) to the player's result. */
  const StateEntries: seq<((Symbol, Symbol), GameResult)> := [
    ((Rock, Rock), Draw),
    ((Rock, Paper), Won),
    ((Rock, Scissors), Lost),
    ((Paper, Rock), Lost),
    ((Paper, Paper), Draw),
    ((Paper, Scissors), Won),
    ((Scissors, Rock), Won),
    ((Scissors, Paper), Lost),
    ((Scissors, Scissors), Draw)
  ]

  function States(): map<(Symbol, Symbol), GameResult>
  {
    Associate(StateEntries)
  }

  /** `statesToAchieveResult`: every entry of the table turned round to (opponent, result) to player. */
  function InvertedEntries(): seq<((Symbol, GameResult), Symbol)>
  {
    seq(|StateEntries|, i requires 0 <= i < |StateEntries| =>
      ((StateEntries[i].0.0, StateEntries[i].1), StateEntries[i].0.1))
  }

  function StatesToAchieveResult(): map<(Symbol, GameResult), Symbol>
  {
    Associate(InvertedEntries())
  }

  /** The shape each shape defeats, independent of the table. */
  function Defeats(s: Symbol): Symbol
  {
    match s
    case Rock => Scissors
    case Paper => Rock
    case Scissors => Paper
  }

  /** With no key repeated, every entry survives in the map. */
  lemma {:induction false} AssociateAt<K, V>(entries: seq<(K, V)>, i: nat)
    requires forall j, k :: 0 <= j < k < |entries| ==> entries[j].0 != entries[k].0
    requires i < |entries|
    ensures entries[i].0 in Associate(entries) && Associate(entries)[entries[i].0] == entries[i].1
    decreases |entries|
  {
    if i < |entries| - 1 {
      var front := entries[..|entries| - 1];
      AssociateAt(front, i);
    }
  }

  /** The position of a shape in `values()`. */
  function Ordinal(s: Symbol): nat
  {
    match s
    case Rock => 0
    case Paper => 1
    case Scissors => 2
  }

  lemma StatesAt(opponent: Symbol, player: Symbol)
    ensures (opponent, player) in States()
    ensures States()[(opponent, player)] ==
      if opponent == player then Draw
      else if Defeats(player) == opponent then Won
      else Lost
  {
    var i := 3 * Ordinal(opponent) + Ordinal(player);
    assert StateEntries[i].0 == (opponent, player);
    AssociateAt(StateEntries, i);
  }

  /**
   * The table follows the rules of the game: a draw exactly for equal shapes, a win exactly
   * when the player's shape defeats the opponent's, and a loss exactly when the opponent's
   * defeats the player's.
   */
  lemma StatesFollowRules(opponent: Symbol, player: Symbol)
    ensures (opponent, player) in States()
    ensures States()[(opponent, player)] == Draw <==> opponent == player
    ensures States()[(opponent, player)] == Won <==> Defeats(player) == opponent
    ensures States()[(opponent, player)] == Lost <==> Defeats(opponent) == player
  {
    StatesAt(opponent, player);
  }

  /** Against each opponent shape, each result is reached by exactly one player shape. */
  lemma OneResponsePerResult(opponent: Symbol, result: GameResult)
    ensures exists player :: (opponent, player) in States() && States()[(opponent, player)] == result
    ensures forall p, q ::
      && (opponent, p) in States() && (opponent, q) in States()
      && States()[(opponent, p)] == result && States()[(opponent, q)] == result
      ==> p == q
  {
    StatesAt(opponent, Rock);
    StatesAt(opponent, Paper);
    StatesAt(opponent, Scissors);
  }

  lemma InvertedAt(opponent: Symbol, result: GameResult)
    ensures (opponent, result) in StatesToAchieveResult()
    ensures StatesToAchieveResult()[(opponent, result)] == ResponseFor(opponent, result)
  {
    var e := InvertedEntries();
    assert e == [
      ((Rock, Draw), Rock), ((Rock, Won), Paper), ((Rock, Lost), Scissors),
      ((Paper, Lost), Rock), ((Paper, Draw), Paper), ((Paper, Won), Scissors),
      ((Scissors, Won), Rock), ((Scissors, Lost), Paper), ((Scissors, Draw), Scissors)];
    var player := ResponseFor(opponent, result);
    var i := 3 * Ordinal(opponent) + Ordinal(player);
    assert e[i].0 == (opponent, result);
    AssociateAt(e, i);
  }

  /** The shape that reaches `result` against `opponent`, from the rules rather than the table. */
  function ResponseFor(opponent: Symbol, result: GameResult): Symbol
  {
    match result
    case Draw => opponent
    case Won => if Defeats(Rock) == opponent then Rock else if Defeats(Paper) == opponent then Paper else Scissors
    case Lost => Defeats(opponent)
  }

  /** `Round.getScore`: the result's score plus the player's shape score; the lookup never fails. */
  function GetScore(opponent: Symbol, player: Symbol): (r: Option<int>)
    ensures r.Some? && 1 <= r.value <= 9
    ensures r.value == (if opponent == player then 3 else if Defeats(player) == opponent then 6 else 0) + player.Score()
  {
    StatesAt(opponent, player);
    var key := (opponent, player);
    if key in States() then Some(States()[key].Score() + player.Score()) else None
  }

  /**
   * `Round.getSymbolToAchieveGameResult`: the shape that reaches `expected` against `opponent`,
   * read from the inverted table; playing it gives exactly that result.
   */
  function SymbolToAchieve(opponent: Symbol, expected: GameResult): (r: Option<Symbol>)
    ensures r.Some?
    ensures (opponent, r.value) in States() && States()[(opponent, r.value)] == expected
  {
    InvertedAt(opponent, expected);
    var key := (opponent, expected);
    if key in StatesToAchieveResult() then
      var p := StatesToAchieveResult()[key];
      StatesAt(opponent, p);
      Some(p)
    else None
  }

  /** `extractRounds` on one line: the first two space-separated codes. */
  function ExtractRound(line: string): Option<(string, string)>
  {
    var symbols := Split(line, ' ');
    if |symbols| < 2 then None else Some((symbols[0], symbols[1]))
  }

  function ExtractRounds(lines: seq<string>): (r: Option<seq<(string, string)>>)
    ensures r.Some? ==> |r.value| == |lines| && forall k :: 0 <= k < |lines| ==> ExtractRound(lines[k]) == Some(r.value[k])
    ensures r.None? ==> exists k :: 0 <= k < |lines| && ExtractRound(lines[k]).None?
    decreases |lines|
  {
    if lines == [] then Some([])
    else
      var front := ExtractRounds(lines[..|lines| - 1]);
      var last := ExtractRound(lines[|lines| - 1]);
      if front.None? then
        assert exists k :: 0 <= k < |lines| && ExtractRound(lines[k]).None? by {
          var k :| 0 <= k < |lines| - 1 && ExtractRound(lines[..|lines| - 1][k]).None?;
          assert lines[..|lines| - 1][k] == lines[k];
        }
        None
      else if last.None? then None
      else
        assert forall k :: 0 <= k < |lines| - 1 ==> lines[..|lines| - 1][k] == lines[k];
        Some(front.value + [last.value])
  }

  /** A line written as two codes and a space splits back into those codes. */
  lemma ExtractRoundOfCodes(a: string, b: string)
    requires ' ' !in a && ' ' !in b
    ensures ExtractRound(a + " " + b) == Some((a, b))
  {
    assert Join([a, b], ' ') == a + " " + b;
    SplitJoin([a, b], ' ');
  }

  /** The score of one part-one round: both codes read as shapes. */
  function Part1Round(round: (string, string)): Option<int>
  {
    var opponent, player := SymbolByOpponentChar(round.0), SymbolByPlayerChar(round.1);
    if opponent.None? || player.None? then None
    else GetScore(opponent.value, player.value)
  }

  /** The score of one part-two round: the second code read as the result to reach. */
  function Part2Round(round: (string, string)): Option<int>
  {
    var opponent, result := SymbolByOpponentChar(round.0), ResultByChar(round.1);
    if opponent.None? || result.None? then None
    else
      match SymbolToAchieve(opponent.value, result.value)
      case None => None
      case Some(player) => GetScore(opponent.value, player)
  }

  /** In part two a round scores the result it asks for plus the shape that reaches it. */
  lemma Part2RoundScore(opponent: Symbol, result: GameResult)
    ensures var p := SymbolToAchieve(opponent, result).value;
      Part2Round((opponent.OpponentChar(), result.ResultChar())) == Some(result.Score() + p.Score())
  {
    CharsDecode(opponent, result);
    Part2RoundDecoded((opponent.OpponentChar(), result.ResultChar()), opponent, result);
  }

  /** The score of a round is read from the table of results. */
  lemma GetScoreFromTable(opponent: Symbol, player: Symbol)
    ensures (opponent, player) in States()
    ensures GetScore(opponent, player) == Some(States()[(opponent, player)].Score() + player.Score())
  {
    StatesAt(opponent, player);
  }

  /** A part-two round whose codes decode scores the shape that reaches the result. */
  lemma Part2RoundDecoded(round: (string, string), opponent: Symbol, result: GameResult)
    requires SymbolByOpponentChar(round.0) == Some(opponent) && ResultByChar(round.1) == Some(result)
    ensures Part2Round(round) == Some(result.Score() + SymbolToAchieve(opponent, result).value.Score())
  {
    var p := SymbolToAchieve(opponent, result).value;
    GetScoreFromTable(opponent, p);
  }

  /** The total of a part: the sum of the round scores, or `None` when a code does not decode. */
  function Total(scores: seq<Option<int>>): Option<int>
    decreases |scores|
  {
    if scores == [] then Some(0)
    else
      var front := Total(scores[..|scores| - 1]);
      var last := scores[|scores| - 1];
      if front.None? || last.None? then None else Some(front.value + last.value)
  }

  function Part1(rounds: seq<(string, string)>): Option<int>
  {
    Total(seq(|rounds|, i requires 0 <= i < |rounds| => Part1Round(rounds[i])))
  }

  function Part2(rounds: seq<(string, string)>): Option<int>
  {
    Total(seq(|rounds|, i requires 0 <= i < |rounds| => Part2Round(rounds[i])))
  }

  /** Every round scores between 1 and 9, so a total lies between the round count and nine times it. */
  lemma {:induction false} TotalBounds(scores: seq<Option<int>>)
    requires forall i :: 0 <= i < |scores| ==> scores[i].None? || 1 <= scores[i].value <= 9
    ensures Total(scores).Some? ==> |scores| <= Total(scores).value <= 9 * |scores|
    decreases |scores|
  {
    if scores != [] {
      TotalBounds(scores[..|scores| - 1]);
    }
  }

  lemma PartsBounds(rounds: seq<(string, string)>)
    ensures Part1(rounds).Some? ==> |rounds| <= Part1(rounds).value <= 9 * |rounds|
    ensures Part2(rounds).Some? ==> |rounds| <= Part2(rounds).value <= 9 * |rounds|
  {
    TotalBounds(seq(|rounds|, i requires 0 <= i < |rounds| => Part1Round(rounds[i])));
    TotalBounds(seq(|rounds|, i requires 0 <= i < |rounds| => Part2Round(rounds[i])));
  }
}
