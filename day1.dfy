/**
 * Day 1, calorie counting.  The input lists the calories of each elf's
 * food, one number per line, with a blank line between elves.  Part 1 is
 * the largest elf total (`Math.max`), part 2 the sum of the three largest
 * totals (sort ascending, keep the last three).
 */
module Day1 {
  import opened Text
  import opened Lists

  /** The blank-line-separated blocks of the trimmed input. */
  function Blocks(input: string): seq<string>
  {
    Split(Trim(input), "\n\n")
  }

  /** Every line reads as a number (`parseInt` never yields `NaN`). */
  predicate AllNumbers(lines: seq<string>)
  {
    forall j :: 0 <= j < |lines| ==> ParseInt(lines[j]).Some?
  }

  /** The input the solver is written for: every line of every block is a number. */
  predicate WellFormed(input: string)
  {
    var blocks := Blocks(input);
    forall i :: 0 <= i < |blocks| ==> AllNumbers(Split(blocks[i], "\n"))
  }

  function ParseLines(lines: seq<string>): (ns: seq<int>)
    requires AllNumbers(lines)
    ensures |ns| == |lines|
    ensures forall j :: 0 <= j < |lines| ==> ParseInt(lines[j]) == Some(ns[j])
  {
    seq(|lines|, j requires 0 <= j < |lines| => ParseInt(lines[j]).value)
  }

  /** `prepare`: one group per blank-line-separated block, one number per line of the block. */
  function Prepare(input: string): (groups: seq<seq<int>>)
    requires WellFormed(input)
    ensures |groups| == |Blocks(input)| >= 1
    ensures forall i :: 0 <= i < |groups| ==> |groups[i]| == |Split(Blocks(input)[i], "\n")| >= 1
  {
    var blocks := Blocks(input);
    seq(|blocks|, i requires 0 <= i < |blocks| => ParseLines(Split(blocks[i], "\n")))
  }

  /** `reduce`: the i-th entry is the total of group i. */
  function Reduce(groups: seq<seq<int>>): (totals: seq<int>)
    ensures |totals| == |groups|
    ensures forall i :: 0 <= i < |groups| ==> totals[i] == Sum(groups[i])
  {
    seq(|groups|, i requires 0 <= i < |groups| => Sum(groups[i]))
  }

  function Id(x: int): int
  {
    x
  }

  /**
   * `getTopN`: `[...input].sort((a, b) => a - b).slice(-1 * n)`.  For
   * `n >= 1` the `min(n, |input|)` largest entries, ascending, drawn from
   * the input; no entry left out is larger than the smallest one kept.  The input is a
   * value and stays as it was.
   */
  function GetTopN(input: seq<int>, n: int): (r: seq<int>)
    ensures n >= 1 ==> |r| == if n < |input| then n else |input|
    ensures SortedBy(r, Id)
    ensures multiset(r) <= multiset(input)
    ensures |r| > 0 ==> forall y :: y in multiset(input) - multiset(r) ==> y <= r[0]
    ensures |r| > 0 ==> forall y :: y in input ==> y <= r[|r| - 1]
  {
    TopBy(input, n, Id)
  }

  /**
   * `top` holds three of the totals (all of them when there are fewer),
   * and no total left out is larger than any total kept.
   */
  ghost predicate TopThree(totals: seq<int>, top: seq<int>)
  {
    && |top| == (if 3 < |totals| then 3 else |totals|)
    && multiset(top) <= multiset(totals)
    && forall y, z :: y in multiset(totals) - multiset(top) && z in top ==> y <= z
  }

  /** The two answers: the largest total, and the sum of the three largest. */
  function Solve(input: string): (answers: (int, int))
    requires WellFormed(input)
    ensures answers.0 in Reduce(Prepare(input))
    ensures forall t :: t in Reduce(Prepare(input)) ==> t <= answers.0
    ensures exists top :: TopThree(Reduce(Prepare(input)), top) && answers.1 == Sum(top)
  {
    var totals := Reduce(Prepare(input));
    var top := GetTopN(totals, 3);
    assert TopThree(totals, top) by {
      forall y, z | y in multiset(totals) - multiset(top) && z in top
        ensures y <= z
      {
        var k :| 0 <= k < |top| && top[k] == z;
        assert Id(top[0]) <= Id(top[k]) || k == 0;
      }
    }
    (Max(totals), Sum(top))
  }

  /** Part 1 could equally have been read off `getTopN(totals, 1)`: the top-1 sum is the maximum. */
  lemma TopOneIsMax(totals: seq<int>)
    requires |totals| >= 1
    ensures Sum(GetTopN(totals, 1)) == Max(totals)
  {
    var top := GetTopN(totals, 1);
    SingleTop(totals, top);
  }

  /** A one-element list drawn from `totals` that no total exceeds sums to their maximum. */
  lemma SingleTop(totals: seq<int>, top: seq<int>)
    requires |totals| >= 1 && |top| == 1 && multiset(top) <= multiset(totals)
    requires forall y :: y in totals ==> y <= top[|top| - 1]
    ensures Sum(top) == Max(totals)
  {
    var t := top[0];
    assert top == [t];
    assert t in multiset(top);
    SumSingle(t);
  }

  /** Totalling per group loses nothing: the totals add up to the sum of every line. */
  lemma {:induction false} ReduceKeepsTotal(groups: seq<seq<int>>)
    ensures Sum(Reduce(groups)) == Sum(Flatten(groups))
    decreases |groups|
  {
    if |groups| > 0 {
      var front := groups[..|groups| - 1];
      ReduceKeepsTotal(front);
      assert Reduce(groups)[..|groups| - 1] == Reduce(front);
      SumAppend(Flatten(front), groups[|groups| - 1]);
    }
  }

  // ---------------------------------------------------------------------
  // Round trip: writing groups out as the puzzle does and preparing them
  // ---------------------------------------------------------------------

  /** Groups of non-negative numbers written in the puzzle's format. */
  function Render(groups: seq<seq<nat>>): string
  {
    Join(RenderedBlocks(groups), "\n\n")
  }

  function RenderedBlocks(groups: seq<seq<nat>>): (blocks: seq<string>)
    ensures |blocks| == |groups|
    ensures forall i :: 0 <= i < |groups| ==> blocks[i] == RenderGroup(groups[i])
  {
    seq(|groups|, i requires 0 <= i < |groups| => RenderGroup(groups[i]))
  }

  function RenderGroup(group: seq<nat>): string
  {
    Join(Decimals(group), "\n")
  }

  /** Two newlines in a row at `k`. */
  predicate BlankLineAt(s: string, k: int)
  {
    0 <= k && k + 1 < |s| && s[k] == '\n' && s[k + 1] == '\n'
  }

  /** Digits and single newlines, starting and ending with a digit. */
  ghost predicate NumberBlock(s: string)
  {
    && |s| >= 1 && IsDigit(s[0]) && IsDigit(s[|s| - 1])
    && forall k :: 0 <= k < |s| - 1 ==> !BlankLineAt(s, k)
  }

  lemma {:induction false} JoinNumberBlock(ds: seq<string>)
    requires |ds| >= 1
    requires forall i :: 0 <= i < |ds| ==> |ds[i]| >= 1 && forall k :: 0 <= k < |ds[i]| ==> IsDigit(ds[i][k])
    ensures NumberBlock(Join(ds, "\n"))
    decreases |ds|
  {
    if |ds| > 1 {
      JoinNumberBlock(ds[1..]);
      var rest := Join(ds[1..], "\n");
      var s := ds[0] + "\n" + rest;
      assert Join(ds, "\n") == s;
      forall k | 0 <= k < |s| - 1 ensures !BlankLineAt(s, k) {
        if k < |ds[0]| {
          assert s[k] == ds[0][k];
        } else if k == |ds[0]| {
          assert s[k + 1] == rest[0];
        } else {
          assert s[k] == rest[k - |ds[0]| - 1];
          assert s[k + 1] == rest[k - |ds[0]|];
          assert !BlankLineAt(rest, k - |ds[0]| - 1);
        }
      }
    }
  }

  lemma NumberBlockSeparable(s: string)
    requires NumberBlock(s)
    ensures Separable(s, "\n\n")
  {
    forall k: nat | k < |s| ensures !OccursAt(s + "\n\n", "\n\n", k) {
      var t := s + "\n\n";
      assert t[k..k + 2] == [t[k], t[k + 1]];
      assert t[k] == s[k];
      if k + 1 < |s| {
        assert !BlankLineAt(s, k);
        assert t[k + 1] == s[k + 1];
      } else {
        assert s[k] == s[|s| - 1];
      }
    }
  }

  lemma {:induction false} JoinEnds(xs: seq<string>, sep: string)
    requires |xs| >= 1 && forall i :: 0 <= i < |xs| ==> |xs[i]| >= 1
    ensures |Join(xs, sep)| >= 1
    ensures Join(xs, sep)[0] == xs[0][0]
    ensures Join(xs, sep)[|Join(xs, sep)| - 1] == xs[|xs| - 1][|xs[|xs| - 1]| - 1]
    decreases |xs|
  {
    if |xs| > 1 {
      JoinEnds(xs[1..], sep);
    }
  }

  function Decimals(group: seq<nat>): (ds: seq<string>)
    ensures |ds| == |group|
    ensures forall j :: 0 <= j < |group| ==> ds[j] == Decimal(group[j])
    ensures forall j :: 0 <= j < |group| ==> ParseInt(ds[j]) == Some(group[j] as int)
  {
    var ds := seq(|group|, j requires 0 <= j < |group| => Decimal(group[j]));
    assert forall j :: 0 <= j < |group| ==> ParseInt(ds[j]) == Some(group[j] as int) by {
      forall j | 0 <= j < |group| ensures ParseInt(ds[j]) == Some(group[j] as int) {
        ParseDecimal(group[j]);
      }
    }
    ds
  }

  lemma RenderGroupLines(group: seq<nat>)
    requires |group| >= 1
    ensures NumberBlock(RenderGroup(group))
    ensures Split(RenderGroup(group), "\n") == Decimals(group)
  {
    var ds := Decimals(group);
    JoinNumberBlock(ds);
    forall j | 0 <= j < |ds| ensures Separable(ds[j], "\n") {
      SeparableByChar(ds[j], '\n');
    }
    SplitJoin(ds, "\n");
  }

  lemma RenderEnds(groups: seq<seq<nat>>)
    requires |groups| >= 1 && forall i :: 0 <= i < |groups| ==> |groups[i]| >= 1
    ensures forall i :: 0 <= i < |groups| ==> NumberBlock(RenderGroup(groups[i]))
    ensures var text := Render(groups); |text| >= 1 && IsDigit(text[0]) && IsDigit(text[|text| - 1])
  {
    var blocks := RenderedBlocks(groups);
    forall i | 0 <= i < |groups| ensures NumberBlock(RenderGroup(groups[i])) {
      RenderGroupLines(groups[i]);
    }
    JoinEnds(blocks, "\n\n");
  }

  /** The rendered text starts and ends with a digit, so trimming keeps it whole. */
  lemma RenderTrimmed(groups: seq<seq<nat>>)
    requires |groups| >= 1 && forall i :: 0 <= i < |groups| ==> |groups[i]| >= 1
    ensures Trim(Render(groups)) == Render(groups)
  {
    RenderEnds(groups);
    var text := Render(groups);
    assert !IsSpace(text[0]) && !IsSpace(text[|text| - 1]);
  }

  /** No rendered block holds a blank line. */
  lemma BlocksSeparable(groups: seq<seq<nat>>)
    requires |groups| >= 1 && forall i :: 0 <= i < |groups| ==> |groups[i]| >= 1
    ensures forall i :: 0 <= i < |groups| ==> Separable(RenderedBlocks(groups)[i], "\n\n")
  {
    RenderEnds(groups);
    forall i | 0 <= i < |groups| ensures Separable(RenderedBlocks(groups)[i], "\n\n") {
      NumberBlockSeparable(RenderGroup(groups[i]));
    }
  }

  lemma RenderBlocks(groups: seq<seq<nat>>)
    requires |groups| >= 1 && forall i :: 0 <= i < |groups| ==> |groups[i]| >= 1
    ensures Blocks(Render(groups)) == RenderedBlocks(groups)
  {
    RenderTrimmed(groups);
    BlocksSeparable(groups);
    SplitJoin(RenderedBlocks(groups), "\n\n");
  }


  /** Preparing what `Render` writes gives the groups back. */
  lemma PrepareRender(groups: seq<seq<nat>>)
    requires |groups| >= 1 && forall i :: 0 <= i < |groups| ==> |groups[i]| >= 1
    ensures WellFormed(Render(groups))
    ensures Prepare(Render(groups)) == groups
  {
    var text := Render(groups);
    RenderBlocks(groups);
    var blocks := Blocks(text);
    forall i | 0 <= i < |groups| ensures Split(blocks[i], "\n") == Decimals(groups[i]) {
      RenderGroupLines(groups[i]);
    }
    assert WellFormed(text);
    var prepared := Prepare(text);
    forall i | 0 <= i < |groups| ensures prepared[i] == groups[i] {
      assert prepared[i] == ParseLines(Decimals(groups[i]));
    }
  }
}
