/**
 * Day 2, rock paper scissors.  Each line holds the opponent's letter
 * (A, B, C) and a second letter (X, Y, Z); both are read as 1, 2, 3
 * (rock, paper, scissors).  Part 1 reads the second letter as the shape
 * played; part 2 reads it as the outcome wanted (1 lose, 2 draw, 3 win).
 * A round scores the shape played plus 0, 3 or 6 for a loss, draw or win.
 */
module Day2 {
  import opened Text
  import opened Lists

  /** The character code of 'C', the last opponent letter. */
  const C_CHAR := 67

  /** `charCodeAt(0)` offset so that 'A' and 'X' both become 1. */
  function Code(token: string): (r: int)
    requires |token| >= 1
    ensures 'A' <= token[0] <= 'C' ==> r == token[0] as int - 'A' as int + 1
    ensures 'X' <= token[0] <= 'Z' ==> r == token[0] as int - 'X' as int + 1
  {
    var code := token[0] as int;
    if code <= C_CHAR then code - 64 else code - 87
  }

  /** Every space-separated token of every line is non-empty, so `charCodeAt(0)` is a number. */
  predicate WellFormed(input: string)
  {
    var lines := Split(Trim(input), "\n");
    forall i :: 0 <= i < |lines| ==> forall t :: t in Split(lines[i], " ") ==> |t| >= 1
  }

  /** `prepare`: one round per line, one code per space-separated token. */
  function Prepare(input: string): (rounds: seq<seq<int>>)
    requires WellFormed(input)
    ensures |rounds| == |Split(Trim(input), "\n")|
    ensures forall i :: 0 <= i < |rounds| ==> |rounds[i]| == |Split(Split(Trim(input), "\n")[i], " ")|
    ensures forall i, j :: 0 <= i < |rounds| && 0 <= j < |rounds[i]| ==>
      var token := Split(Split(Trim(input), "\n")[i], " ")[j];
      |token| >= 1 && rounds[i][j] == Code(token)
  {
    var lines := Split(Trim(input), "\n");
    seq(|lines|, i requires 0 <= i < |lines| =>
      var tokens := Split(lines[i], " ");
      seq(|tokens|, j requires 0 <= j < |tokens| => Code(tokens[j])))
  }

  predicate IsShape(x: int)
  {
    1 <= x <= 3
  }

  /** Shape `a` beats shape `b`: paper (2) beats rock (1), scissors (3) paper, rock scissors. */
  predicate Beats(a: int, b: int)
  {
    a == b % 3 + 1
  }

  /** The part 1 score of a round, as written: draw, then "one more" or rock against scissors. */
  function ScoreRound1(opp: int, player: int): (r: int)
    ensures IsShape(opp) && IsShape(player) ==>
      r == player + (if player == opp then 3 else if Beats(player, opp) then 6 else 0)
    ensures IsShape(opp) && IsShape(player) ==> 1 <= r <= 9
  {
    if opp == player then player + 3
    else if player - opp == 1 || (player == 1 && opp == 3) then player + 6
    else player
  }

  /** The part 2 score of a round, as written, for the outcome `result`. */
  function ScoreRound2(opp: int, result: int): (r: int)
    ensures IsShape(opp) && IsShape(result) ==> r == Chosen(opp, result) + 3 * (result - 1)
    ensures IsShape(opp) && IsShape(result) ==> 1 <= r <= 9
  {
    if result == 2 then opp + 3
    else if result == 3 then (if opp == 3 then 7 else opp + 7)
    else if opp == 1 then 3
    else opp - 1
  }

  /** The shape that gives the outcome `result` against `opp`, worked out from `Beats`. */
  function Chosen(opp: int, result: int): (s: int)
    requires IsShape(opp) && IsShape(result)
    ensures IsShape(s)
    ensures result == 1 ==> Beats(opp, s)
    ensures result == 2 ==> s == opp
    ensures result == 3 ==> Beats(s, opp)
  {
    if result == 3 then opp % 3 + 1
    else if result == 2 then opp
    else (opp + 1) % 3 + 1
  }

  /** Part 2's shortcut scores agree with playing the chosen shape under part 1's rule. */
  lemma ScoresAgree(opp: int, result: int)
    requires IsShape(opp) && IsShape(result)
    ensures ScoreRound2(opp, result) == ScoreRound1(opp, Chosen(opp, result))
  {
  }

  /** The per-round scores of `calculateScorePart1`. */
  function Scores1(rounds: seq<seq<int>>): (scores: seq<int>)
    requires forall i :: 0 <= i < |rounds| ==> |rounds[i]| >= 2
    ensures |scores| == |rounds|
    ensures forall i :: 0 <= i < |rounds| ==> scores[i] == ScoreRound1(rounds[i][0], rounds[i][1])
  {
    seq(|rounds|, i requires 0 <= i < |rounds| => ScoreRound1(rounds[i][0], rounds[i][1]))
  }

  function Scores2(rounds: seq<seq<int>>): (scores: seq<int>)
    requires forall i :: 0 <= i < |rounds| ==> |rounds[i]| >= 2
    ensures |scores| == |rounds|
    ensures forall i :: 0 <= i < |rounds| ==> scores[i] == ScoreRound2(rounds[i][0], rounds[i][1])
  {
    seq(|rounds|, i requires 0 <= i < |rounds| => ScoreRound2(rounds[i][0], rounds[i][1]))
  }

  /** Every round holds two codes 1 to 3. */
  predicate Shaped(rounds: seq<seq<int>>)
  {
    forall i :: 0 <= i < |rounds| ==> |rounds[i]| >= 2 && IsShape(rounds[i][0]) && IsShape(rounds[i][1])
  }

  /** `calculateScorePart1`: the sum of the round scores, from one to nine points a round. */
  function CalculateScorePart1(rounds: seq<seq<int>>): (total: int)
    requires forall i :: 0 <= i < |rounds| ==> |rounds[i]| >= 2
    ensures Shaped(rounds) ==> |rounds| <= total <= 9 * |rounds|
  {
    var scores := Scores1(rounds);
    assert Shaped(rounds) ==> |rounds| <= Sum(scores) <= 9 * |rounds| by {
      if Shaped(rounds) {
        SumBounds(scores, 1, 9);
      }
    }
    Sum(scores)
  }

  /** `calculateScorePart2`: the sum of the round scores, from one to nine points a round. */
  function CalculateScorePart2(rounds: seq<seq<int>>): (total: int)
    requires forall i :: 0 <= i < |rounds| ==> |rounds[i]| >= 2
    ensures Shaped(rounds) ==> |rounds| <= total <= 9 * |rounds|
  {
    var scores := Scores2(rounds);
    assert Shaped(rounds) ==> |rounds| <= Sum(scores) <= 9 * |rounds| by {
      if Shaped(rounds) {
        SumBounds(scores, 1, 9);
      }
    }
    Sum(scores)
  }

  /** Playing one more round adds exactly that round's score to either total. */
  lemma AppendRound(rounds: seq<seq<int>>, round: seq<int>)
    requires forall i :: 0 <= i < |rounds| ==> |rounds[i]| >= 2
    requires |round| >= 2
    ensures CalculateScorePart1(rounds + [round]) == CalculateScorePart1(rounds) + ScoreRound1(round[0], round[1])
    ensures CalculateScorePart2(rounds + [round]) == CalculateScorePart2(rounds) + ScoreRound2(round[0], round[1])
  {
    var all := rounds + [round];
    assert Scores1(all) == Scores1(rounds) + [ScoreRound1(round[0], round[1])];
    assert Scores2(all) == Scores2(rounds) + [ScoreRound2(round[0], round[1])];
  }

  /** The total of part 2 equals part 1's total over the chosen shapes. */
  lemma {:induction false} Part2IsPart1OfChosen(rounds: seq<seq<int>>)
    requires Shaped(rounds)
    ensures CalculateScorePart2(rounds) == CalculateScorePart1(ChosenRounds(rounds))
    decreases |rounds|
  {
    if |rounds| > 0 {
      var front := rounds[..|rounds| - 1];
      var last := rounds[|rounds| - 1];
      Part2IsPart1OfChosen(front);
      AppendRound(front, last);
      assert rounds == front + [last];
      assert ChosenRounds(rounds) == ChosenRounds(front) + [[last[0], Chosen(last[0], last[1])]];
      AppendRound(ChosenRounds(front), [last[0], Chosen(last[0], last[1])]);
      ScoresAgree(last[0], last[1]);
    }
  }

  /** Each round with its outcome replaced by the shape that achieves it. */
  function ChosenRounds(rounds: seq<seq<int>>): (played: seq<seq<int>>)
    requires Shaped(rounds)
    ensures |played| == |rounds|
    ensures forall i :: 0 <= i < |rounds| ==> |played[i]| == 2 && played[i][0] == rounds[i][0]
  {
    seq(|rounds|, i requires 0 <= i < |rounds| => [rounds[i][0], Chosen(rounds[i][0], rounds[i][1])])
  }
}
