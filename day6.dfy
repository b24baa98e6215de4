/**
 * Day 6, tuning trouble.  The signal is one line of characters; the
 * answer is the number of characters read when the last `n` of them are
 * first all different (4 for the start of a packet, 14 for the start of a
 * message).  `prepare` only trims the line, which is `Text.Trim`.
 */
module Day6 {
  import opened Text

  /** `new Set(window).size`: how many different characters the window holds. */
  function Unique(w: string): nat
  {
    |set c | c in w|
  }

  /** No character of `w` occurs twice. */
  predicate Distinct(w: string)
  {
    forall j, k :: 0 <= j < k < |w| ==> w[j] != w[k]
  }

  /** A window never holds more different characters than it has characters, and all of them exactly when they are distinct. */
  lemma {:induction false} UniqueDistinct(w: string)
    ensures Unique(w) <= |w|
    ensures Unique(w) == |w| <==> Distinct(w)
    decreases |w|
  {
    if |w| > 0 {
      var rest := w[1..];
      UniqueDistinct(rest);
      assert (set c | c in w) == {w[0]} + (set c | c in rest) by {
        assert w == [w[0]] + rest;
      }
      if w[0] in rest {
        assert (set c | c in w) == (set c | c in rest);
        var k :| 0 <= k < |rest| && rest[k] == w[0];
        assert w[0] == w[k + 1];
      } else {
        assert Distinct(w) <==> Distinct(rest) by {
          if Distinct(rest) {
            forall j, k | 0 <= j < k < |w| ensures w[j] != w[k] {
              if j == 0 {
                assert w[k] == rest[k - 1];
              } else {
                assert w[j] == rest[j - 1] && w[k] == rest[k - 1];
              }
            }
          }
          if Distinct(w) {
            forall j, k | 0 <= j < k < |rest| ensures rest[j] != rest[k] {
              assert rest[j] == w[j + 1] && rest[k] == w[k + 1];
            }
          }
        }
      }
    }
  }

  /** The `n` characters read just before position `i`. */
  function Window(s: string, n: nat, i: nat): string
    requires n <= i <= |s|
  {
    s[i - n..i]
  }

  /** The error `findIndexFirstNonDuplicateN` throws. */
  function NotFound(n: nat): string
  {
    "could not find a unique string of length " + Decimal(n)
  }

  /** `i` is the first window end at or after `lo` whose window is all different. */
  predicate EarliestFrom(s: string, n: nat, lo: nat, i: nat)
    requires n <= lo
  {
    lo <= i <= |s| && Distinct(Window(s, n, i))
    && forall j :: lo <= j < i ==> !Distinct(Window(s, n, j))
  }

  /** No window ending at or after `lo` is all different. */
  predicate NoneFrom(s: string, n: nat, lo: nat)
    requires n <= lo
  {
    forall j :: lo <= j <= |s| ==> !Distinct(Window(s, n, j))
  }

  /** The search of `findIndexFirstNonDuplicateN` from window end `i` on. */
  function FirstFrom(s: string, n: nat, i: nat): Result<nat>
    requires n <= i
    decreases |s| - i
  {
    if i > |s| then Error(NotFound(n))
    else if Unique(Window(s, n, i)) == n then Ok(i)
    else FirstFrom(s, n, i + 1)
  }

  /**
   * The search from `lo` finds the first window end at or after `lo`
   * whose window is all different, and fails exactly when there is none.
   */
  lemma {:induction false} FirstFromSpec(s: string, n: nat, lo: nat)
    requires n <= lo
    ensures FirstFrom(s, n, lo).Ok? ==> EarliestFrom(s, n, lo, FirstFrom(s, n, lo).value)
    ensures FirstFrom(s, n, lo).Error? ==> FirstFrom(s, n, lo).message == NotFound(n) && NoneFrom(s, n, lo)
    decreases |s| - lo
  {
    if lo <= |s| {
      UniqueDistinct(Window(s, n, lo));
      if Unique(Window(s, n, lo)) != n {
        FirstFromSpec(s, n, lo + 1);
      }
    }
  }

  /**
   * `findIndexFirstNonDuplicateN`: scans window ends from `n` up to the
   * length of the input and returns the first whose `n` characters are all
   * different; the error when there is none.
   */
  method FindIndexFirstNonDuplicateN(input: string, n: nat) returns (r: Result<nat>)
    ensures r == FirstFrom(input, n, n)
  {
    var i := n;
    while i <= |input|
      invariant n <= i
      invariant FirstFrom(input, n, n) == FirstFrom(input, n, i)
      decreases |input| - i
    {
      var window := input[i - n..i];
      var unique := |set c | c in window|;
      if unique == n {
        return Ok(i);
      }
      i := i + 1;
    }
    return Error(NotFound(n));
  }

  /**
   * The answer as the solver reports it: a window end `i` with `n <= i <= |s|`
   * whose window is all different, no earlier window end qualifying; an error
   * exactly when no window qualifies, which is always the case when the input
   * is shorter than `n`.
   */
  lemma FirstWindow(s: string, n: nat)
    ensures FirstFrom(s, n, n).Ok? ==> EarliestFrom(s, n, n, FirstFrom(s, n, n).value)
    ensures FirstFrom(s, n, n).Error? <==> NoneFrom(s, n, n)
    ensures |s| < n ==> FirstFrom(s, n, n) == Error(NotFound(n))
  {
    FirstFromSpec(s, n, n);
  }

  /** A longer all-different window ends no earlier than the first shorter one. */
  lemma Monotone(s: string, n: nat)
    ensures FirstFrom(s, n + 1, n + 1).Ok? ==>
      FirstFrom(s, n, n).Ok? && FirstFrom(s, n, n).value <= FirstFrom(s, n + 1, n + 1).value
  {
    FirstFromSpec(s, n + 1, n + 1);
    FirstFromSpec(s, n, n);
    if FirstFrom(s, n + 1, n + 1).Ok? {
      var i := FirstFrom(s, n + 1, n + 1).value;
      var long := Window(s, n + 1, i);
      assert Window(s, n, i) == long[1..];
      assert Distinct(Window(s, n, i)) by {
        forall j, k | 0 <= j < k < n ensures Window(s, n, i)[j] != Window(s, n, i)[k] {
          assert Window(s, n, i)[j] == long[j + 1] && Window(s, n, i)[k] == long[k + 1];
        }
      }
    }
  }

  /** A window with a repeated character is passed over. */
  lemma Skip(s: string, n: nat, i: nat, j: nat, k: nat)
    requires n <= i <= |s| && j < k < n && s[i - n + j] == s[i - n + k]
    ensures FirstFrom(s, n, i) == FirstFrom(s, n, i + 1)
  {
    UniqueDistinct(Window(s, n, i));
    assert Window(s, n, i)[j] == Window(s, n, i)[k];
  }

  /** An all-different window ends the search. */
  lemma Hit(s: string, n: nat, i: nat)
    requires n <= i <= |s| && Distinct(Window(s, n, i))
    ensures FirstFrom(s, n, i) == Ok(i)
  {
    UniqueDistinct(Window(s, n, i));
  }

  /** A sample signal. */
  const SAMPLE := "bvwbjplbgvbhsrlpgdmjqwftvncz"

  /** The sample's packet starts after 5 characters. */
  lemma SamplePacket(s: string)
    requires s == SAMPLE
    ensures FirstFrom(s, 4, 4) == Ok(5)
  {
    PacketWindows(s);
    Skip(s, 4, 4, 0, 3);
    Hit(s, 4, 5);
  }

  /** The repeat in the sample's first window of four, and the second window. */
  lemma PacketWindows(s: string)
    requires s == SAMPLE
    ensures |s| == 28 && s[0] == s[3]
    ensures Distinct(Window(s, 4, 5))
  {
    assert s[0] == SAMPLE[0] == SAMPLE[3] == s[3];
    var w := Window(s, 4, 5);
    assert w[0] == s[1] == SAMPLE[1] == 'v';
    assert w[1] == s[2] == SAMPLE[2] == 'w';
    assert w[2] == s[3] == SAMPLE[3] == 'b';
    assert w[3] == s[4] == SAMPLE[4] == 'j';
  }

  /** The sample's message starts after 23 characters. */
  lemma SampleMessage(s: string)
    requires s == SAMPLE
    ensures FirstFrom(s, 14, 14) == Ok(23)
  {
    MessageRepeats(s);
    Skip(s, 14, 14, 0, 3);
    Skip(s, 14, 15, 0, 8);
    Skip(s, 14, 16, 1, 5);
    Skip(s, 14, 17, 0, 4);
    Skip(s, 14, 18, 1, 11);
    Skip(s, 14, 19, 0, 10);
    Skip(s, 14, 20, 0, 8);
    Skip(s, 14, 21, 0, 3);
    Skip(s, 14, 22, 0, 8);
    MessageWindow(s);
    Hit(s, 14, 23);
  }

  /** A repeat in each of the sample's windows of fourteen ending before 23. */
  lemma MessageRepeats(s: string)
    requires s == SAMPLE
    ensures |s| == 28
    ensures s[0] == s[3] && s[1] == s[9] && s[3] == s[7] && s[5] == s[15] && s[6] == s[14] && s[7] == s[10] && s[8] == s[16]
  {
    assert s[0] == SAMPLE[0] == SAMPLE[3] == s[3];
    assert s[1] == SAMPLE[1] == SAMPLE[9] == s[9];
    assert s[3] == SAMPLE[3] == SAMPLE[7] == s[7];
    assert s[5] == SAMPLE[5] == SAMPLE[15] == s[15];
    assert s[6] == SAMPLE[6] == SAMPLE[14] == s[14];
    assert s[7] == SAMPLE[7] == SAMPLE[10] == s[10];
    assert s[8] == SAMPLE[8] == SAMPLE[16] == s[16];
  }

  /** The fourteen characters before position 23 of the sample are all different. */
  lemma MessageWindow(s: string)
    requires s == SAMPLE
    ensures Distinct(Window(s, 14, 23))
  {
    var w := Window(s, 14, 23);
    assert w[0] == s[9] == SAMPLE[9] == 'v';
    assert w[1] == s[10] == SAMPLE[10] == 'b';
    assert w[2] == s[11] == SAMPLE[11] == 'h';
    assert w[3] == s[12] == SAMPLE[12] == 's';
    assert w[4] == s[13] == SAMPLE[13] == 'r';
    assert w[5] == s[14] == SAMPLE[14] == 'l';
    assert w[6] == s[15] == SAMPLE[15] == 'p';
    assert w[7] == s[16] == SAMPLE[16] == 'g';
    assert w[8] == s[17] == SAMPLE[17] == 'd';
    assert w[9] == s[18] == SAMPLE[18] == 'm';
    assert w[10] == s[19] == SAMPLE[19] == 'j';
    assert w[11] == s[20] == SAMPLE[20] == 'q';
    assert w[12] == s[21] == SAMPLE[21] == 'w';
    assert w[13] == s[22] == SAMPLE[22] == 'f';
  }
}
