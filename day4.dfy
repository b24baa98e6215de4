/**
 * Day 4, camp cleanup.  Each line holds two section assignments
 * "a-b,c-d" (inclusive ranges).  Part 2 counts the pairs that overlap at
 * all; part 1 keeps, out of those, the pairs where one range contains the
 * other.  Ranges are read with `parseInt`, so an unreadable bound is
 * `NaN`, and every comparison with `NaN` is false.
 */
module Day4 {
  import opened Text
  import opened Lists

  /** `prepare`: each line of the trimmed input split at its commas. */
  function Prepare(input: string): (assignments: seq<seq<string>>)
    ensures |assignments| == |Split(Trim(input), "\n")|
    ensures forall i :: 0 <= i < |assignments| ==> Join(assignments[i], ",") == Split(Trim(input), "\n")[i]
    ensures forall i, j :: 0 <= i < |assignments| && 0 <= j < |assignments[i]| ==> !Contains(assignments[i][j], ",")
  {
    var lines := Split(Trim(input), "\n");
    seq(|lines|, i requires 0 <= i < |lines| => Split(lines[i], ","))
  }

  /** A bound read with `parseInt`; `None` is `NaN`. */
  type Bound = Option<int>

  /** `a <= b` on numbers that may be `NaN`. */
  predicate Le(a: Bound, b: Bound)
  {
    a.Some? && b.Some? && a.value <= b.value
  }

  /** The start and end of an assignment: `split('-')`, then `parseInt` of parts 0 and 1. */
  function Range(text: string): (Bound, Bound)
  {
    var temp := Split(text, "-");
    (ParseInt(temp[0]), if |temp| >= 2 then ParseInt(temp[1]) else None)
  }

  /** An assignment as read: its start and end. */
  type Section = (Bound, Bound)

  /** One range lies inside the other, as `findCompleteOverlaps` compares them. */
  predicate Containing(a: Section, b: Section)
  {
    (Le(a.0, b.0) && Le(b.1, a.1)) || (Le(b.0, a.0) && Le(a.1, b.1))
  }

  /** Either start lies within the other range, as `findAnyOverlaps` compares them. */
  predicate Overlapping(a: Section, b: Section)
  {
    (Le(b.0, a.1) && Le(a.0, b.0)) || (Le(a.0, b.1) && Le(b.0, a.0))
  }

  /** The test of `findCompleteOverlaps` on one pair. */
  predicate CompleteOverlap(pair: seq<string>)
  {
    |pair| >= 2 && Containing(Range(pair[0]), Range(pair[1]))
  }

  /** The test of `findAnyOverlaps` on one pair. */
  predicate AnyOverlap(pair: seq<string>)
  {
    |pair| >= 2 && Overlapping(Range(pair[0]), Range(pair[1]))
  }

  /** Destructuring `[first, second]` and calling `second.split` needs a second entry. */
  predicate Paired(assignments: seq<seq<string>>)
  {
    forall i :: 0 <= i < |assignments| ==> |assignments[i]| >= 2
  }

  /** `findCompleteOverlaps`: the containing pairs, in input order. */
  function FindCompleteOverlaps(assignments: seq<seq<string>>): (r: seq<seq<string>>)
    requires Paired(assignments)
    ensures forall p :: p in r <==> p in assignments && CompleteOverlap(p)
  {
    Filter(assignments, CompleteOverlap)
  }

  /** `findAnyOverlaps`: the overlapping pairs, in input order. */
  function FindAnyOverlaps(assignments: seq<seq<string>>): (r: seq<seq<string>>)
    requires Paired(assignments)
    ensures forall p :: p in r <==> p in assignments && AnyOverlap(p)
    ensures Paired(r)
  {
    var r := Filter(assignments, AnyOverlap);
    assert Paired(r) by {
      forall i | 0 <= i < |r| ensures |r[i]| >= 2 {
        assert r[i] in r;
      }
    }
    r
  }

  // ---------------------------------------------------------------------
  // The two tests on ranges of integers
  // ---------------------------------------------------------------------

  /** Section `x` lies in the inclusive range `lo..hi`. */
  predicate In(x: int, lo: int, hi: int)
  {
    lo <= x <= hi
  }

  /** A range read as two numbers, the start at most the end. */
  predicate OrderedRange(a: Section)
  {
    Le(a.0, a.1)
  }

  /** Containment as written is containment of the sets of sections, either way round. */
  lemma ContainingMeansSubset(a: Section, b: Section)
    requires OrderedRange(a) && OrderedRange(b)
    ensures Containing(a, b) <==>
      (forall x :: In(x, b.0.value, b.1.value) ==> In(x, a.0.value, a.1.value))
      || (forall x :: In(x, a.0.value, a.1.value) ==> In(x, b.0.value, b.1.value))
  {
    if forall x :: In(x, b.0.value, b.1.value) ==> In(x, a.0.value, a.1.value) {
      assert In(b.0.value, b.0.value, b.1.value) && In(b.1.value, b.0.value, b.1.value);
    }
    if forall x :: In(x, a.0.value, a.1.value) ==> In(x, b.0.value, b.1.value) {
      assert In(a.0.value, a.0.value, a.1.value) && In(a.1.value, a.0.value, a.1.value);
    }
  }

  /** Overlap as written is a shared section; ends count, so 2-4 and 4-6 overlap. */
  lemma OverlappingMeansShared(a: Section, b: Section)
    requires OrderedRange(a) && OrderedRange(b)
    ensures Overlapping(a, b) <==> exists x :: In(x, a.0.value, a.1.value) && In(x, b.0.value, b.1.value)
    ensures Overlapping(a, b) <==> Max(a.0.value, b.0.value) <= Min(a.1.value, b.1.value)
  {
    if Overlapping(a, b) {
      var x := Max(a.0.value, b.0.value);
      assert In(x, a.0.value, a.1.value) && In(x, b.0.value, b.1.value);
    }
  }

  function Max(a: int, b: int): int
  {
    if a < b then b else a
  }

  function Min(a: int, b: int): int
  {
    if a < b then a else b
  }

  /** Swapping the two assignments changes neither test. */
  lemma Symmetric(a: Section, b: Section)
    ensures Containing(a, b) == Containing(b, a)
    ensures Overlapping(a, b) == Overlapping(b, a)
  {
  }

  /** For ordered ranges, containment implies overlap. */
  lemma ContainingImpliesOverlapping(a: Section, b: Section)
    requires OrderedRange(a) && OrderedRange(b)
    ensures Containing(a, b) ==> Overlapping(a, b)
  {
  }

  /** Both assignments of the pair read as ordered ranges. */
  predicate Ordered(pair: seq<string>)
  {
    |pair| >= 2 && OrderedRange(Range(pair[0])) && OrderedRange(Range(pair[1]))
  }

  /** Part 1 and part 2 as the solver computes them: containing pairs are filtered out of the overlapping ones. */
  function Solve(assignments: seq<seq<string>>): (answers: (nat, nat))
    requires Paired(assignments)
    ensures answers.1 == |Indices(assignments, AnyOverlap)|
    ensures answers.0 == |Indices(FindAnyOverlaps(assignments), CompleteOverlap)|
    ensures answers.0 <= answers.1
  {
    var partOverlaps := FindAnyOverlaps(assignments);
    var fullOverlaps := FindCompleteOverlaps(partOverlaps);
    FilterCount(assignments, AnyOverlap);
    FilterCount(partOverlaps, CompleteOverlap);
    (|fullOverlaps|, |partOverlaps|)
  }

  /**
   * For ordered ranges, filtering containment out of the overlapping pairs
   * finds every containing pair, so part 1 counts the containing pairs.
   */
  lemma SolveCounts(assignments: seq<seq<string>>)
    requires Paired(assignments)
    requires forall i :: 0 <= i < |assignments| ==> Ordered(assignments[i])
    ensures FindCompleteOverlaps(FindAnyOverlaps(assignments)) == FindCompleteOverlaps(assignments)
    ensures Solve(assignments).0 == |Indices(assignments, CompleteOverlap)|
  {
    forall i | 0 <= i < |assignments| ensures CompleteOverlap(assignments[i]) ==> AnyOverlap(assignments[i]) {
      ContainingImpliesOverlapping(Range(assignments[i][0]), Range(assignments[i][1]));
    }
    FilterFilter(assignments, AnyOverlap, CompleteOverlap);
    FilterCount(assignments, CompleteOverlap);
  }

  /** Reading back an assignment written as "start-end". */
  lemma RangeRoundTrip(start: nat, end: nat)
    ensures Range(Decimal(start) + "-" + Decimal(end)) == (Some(start), Some(end))
  {
    var a, b := Decimal(start), Decimal(end);
    SeparableByChar(a, '-');
    SeparableByChar(b, '-');
    SplitJoin([a, b], "-");
    assert Join([a, b], "-") == a + "-" + b;
    ParseDecimal(start);
    ParseDecimal(end);
  }

  /** Out of order ranges can be "contained" without overlapping: 5-1 and 3-2. */
  lemma UnorderedContainment()
    ensures Containing((Some(5), Some(1)), (Some(3), Some(2)))
    ensures !Overlapping((Some(5), Some(1)), (Some(3), Some(2)))
  {
  }
}
