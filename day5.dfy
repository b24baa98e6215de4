/**
 * Day 5, supply stacks.  The input draws the stacks of crates ("[Z] [M]"
 * rows over a line of stack numbers), then a blank line, then commands
 * "move n from a to b".  The CrateMover 9000 moves crates one at a time;
 * the 9001 moves the top n as one block.  Each simulator records the state
 * after every command; the answers are the top crates of the last state.
 */
module Day5 {
  import opened Text
  import opened Lists

  /** A stack of crates, bottom first: the top crate is the last one. */
  type Stack = seq<char>

  /** One stack per column of the drawing, in column order. */
  type Grid = seq<Stack>

  /** What `prepare` returns: the stacks and the command lines. */
  datatype Payload = Payload(stacks: Grid, commands: seq<string>)

  /** A parsed command: move `move` crates from stack `from` to stack `to` (numbered from 1). */
  datatype Command = Command(move: int, from: int, to: int)

  // ---------------------------------------------------------------------
  // Reading the drawing
  // ---------------------------------------------------------------------

  /** The number of stacks: the loop `i < length / 4` runs for every `i` with `4 * i < length`. */
  function Columns(lines: seq<string>): nat
    requires |lines| >= 1
  {
    (|lines[0]| + 3) / 4
  }

  /** The drawing shows a crate in column `k` of `line`: a `[` at position `4 * k`. */
  predicate HasCrate(line: string, k: nat)
  {
    4 * k < |line| && line[4 * k] == '['
  }

  /** What row `line` adds to stack `k`: the letter after the `[`, if there is one. */
  function Crate(line: string, k: nat): (c: Stack)
    ensures |c| <= 1
    ensures |c| == 1 <==> HasCrate(line, k) && 4 * k + 1 < |line|
  {
    if HasCrate(line, k) && 4 * k + 1 < |line| then [line[4 * k + 1]] else []
  }

  /**
   * A drawing `prepare` can read: every crate lies within the stacks the
   * first line makes room for, and every `[` is followed by its letter.
   */
  predicate Drawable(lines: seq<string>)
  {
    && |lines| >= 1
    && forall i :: 0 <= i < |lines| - 1 ==>
         forall k :: 0 <= k < |lines[i]| && HasCrate(lines[i], k) ==> 4 * k + 1 < |lines[i]| && k < Columns(lines)
  }

  /** Stack `k` built from rows `lo .. hi - 1`, pushing from the bottom row up. */
  function ColumnOf(lines: seq<string>, k: nat, lo: nat, hi: nat): (c: Stack)
    requires lo <= hi <= |lines|
    ensures |c| <= hi - lo
    decreases hi - lo
  {
    if lo == hi then [] else ColumnOf(lines, k, lo + 1, hi) + Crate(lines[lo], k)
  }

  /** The drawing part and the command part of the input: the first two blank-line-separated pieces. */
  predicate Sectioned(input: string)
  {
    |Split(input, "\n\n")| >= 2
  }

  function DrawingLines(input: string): seq<string>
    requires Sectioned(input)
  {
    Split(Split(input, "\n\n")[0], "\n")
  }

  /**
   * `prepare`: one empty stack per four characters of the first line, then
   * the rows from the one above the number line up to the top, pushing the
   * letter at `4 * k + 1` onto stack `k` wherever a `[` stands at `4 * k`.
   */
  method Prepare(input: string) returns (p: Payload)
    requires Sectioned(input) && Drawable(DrawingLines(input))
    ensures |p.stacks| == Columns(DrawingLines(input))
    ensures forall k :: 0 <= k < |p.stacks| ==>
      p.stacks[k] == ColumnOf(DrawingLines(input), k, 0, |DrawingLines(input)| - 1)
    ensures p.commands == Split(Trim(Split(input, "\n\n")[1]), "\n")
  {
    var pieces := Split(input, "\n\n");
    var mapLines := Split(pieces[0], "\n");
    var cols := Columns(mapLines);
    var stacks: Grid := [];
    var c := 0;
    while 4 * c < |mapLines[0]|
      invariant |stacks| == c && c <= cols
      invariant forall k :: 0 <= k < c ==> stacks[k] == []
    {
      stacks := stacks + [[]];
      c := c + 1;
    }
    var top := |mapLines| - 1;
    var i := top - 1;
    while i >= 0
      invariant -1 <= i < top
      invariant |stacks| == cols
      invariant forall k :: 0 <= k < cols ==> stacks[k] == ColumnOf(mapLines, k, i + 1, top)
    {
      var line := mapLines[i];
      var j := 0;
      var row := 0;
      while j <= |line|
        invariant j == 4 * row && 4 * row <= |line| + 4
        invariant |stacks| == cols
        invariant forall k :: 0 <= k < cols ==>
          stacks[k] == ColumnOf(mapLines, k, i + 1, top) + (if k < row then Crate(line, k) else [])
      {
        if j < |line| && line[j] == '[' {
          assert HasCrate(line, row);
          stacks := stacks[row := stacks[row] + [line[j + 1]]];
        }
        row := row + 1;
        j := j + 4;
      }
      assert forall k :: row <= k ==> !HasCrate(line, k);
      i := i - 1;
    }
    p := Payload(stacks, Split(Trim(pieces[1]), "\n"));
  }

  // ---------------------------------------------------------------------
  // Reading a command
  // ---------------------------------------------------------------------

  /**
   * The command as the simulators read it: the words "move ", "from " and
   * "to " removed (each at its first occurrence), the rest split at
   * spaces, and the first three pieces read with `parseInt`.  `None` when
   * a piece is missing or is not a number.
   */
  function ParseCommand(command: string): Option<Command>
  {
    var bare := Replace(Replace(Replace(command, "move ", ""), "from ", ""), "to ", "");
    var tokens := Split(bare, " ");
    if |tokens| < 3 then None
    else
      match (ParseInt(tokens[0]), ParseInt(tokens[1]), ParseInt(tokens[2]))
      case (Some(m), Some(f), Some(t)) => Some(Command(m, f, t))
      case _ => None
  }

  /** A command written out as the puzzle writes it. */
  function CommandText(move: nat, from: nat, to: nat): string
  {
    "move " + Decimal(move) + " from " + Decimal(from) + " to " + Decimal(to)
  }

  lemma NoLetters(d: string, c: char)
    requires forall i :: 0 <= i < |d| ==> IsDigit(d[i])
    requires !IsDigit(c) && c != ' '
    ensures forall i :: 0 <= i < |d + " "| ==> (d + " ")[i] != c
  {
  }

  /** Removing the three words leaves the numbers separated by single spaces. */
  lemma StripWords(a: string, b: string, c: string)
    requires forall i :: 0 <= i < |a| ==> IsDigit(a[i])
    requires forall i :: 0 <= i < |b| ==> IsDigit(b[i])
    ensures Replace(Replace(Replace("move " + a + " from " + b + " to " + c, "move ", ""), "from ", ""), "to ", "")
      == a + " " + b + " " + c
  {
    StripMove(a, b, c);
    StripFrom(a, b, c);
    StripTo(a, b, c);
  }

  lemma StripMove(a: string, b: string, c: string)
    ensures Replace("move " + a + " from " + b + " to " + c, "move ", "") == a + " from " + b + " to " + c
  {
    assert "move " + a + " from " + b + " to " + c == "" + "move " + (a + " from " + b + " to " + c);
    ReplaceAt("", "move ", a + " from " + b + " to " + c, "");
  }

  lemma StripFrom(a: string, b: string, c: string)
    requires forall i :: 0 <= i < |a| ==> IsDigit(a[i])
    ensures Replace(a + " from " + b + " to " + c, "from ", "") == a + " " + b + " to " + c
  {
    assert a + " from " + b + " to " + c == (a + " ") + "from " + (b + " to " + c);
    NoLetters(a, 'f');
    ReplaceAt(a + " ", "from ", b + " to " + c, "");
  }

  lemma StripTo(a: string, b: string, c: string)
    requires forall i :: 0 <= i < |a| ==> IsDigit(a[i])
    requires forall i :: 0 <= i < |b| ==> IsDigit(b[i])
    ensures Replace(a + " " + b + " to " + c, "to ", "") == a + " " + b + " " + c
  {
    var front := a + " " + b + " ";
    assert a + " " + b + " to " + c == front + "to " + c;
    NoLetters(a, 't');
    NoLetters(b, 't');
    assert front == (a + " ") + (b + " ");
    assert forall i :: 0 <= i < |front| ==> front[i] != 't';
    ReplaceAt(front, "to ", c, "");
  }

  /** Numbers separated by single spaces split into those numbers. */
  lemma SplitNumbers(a: string, b: string, c: string)
    requires forall i :: 0 <= i < |a| ==> IsDigit(a[i])
    requires forall i :: 0 <= i < |b| ==> IsDigit(b[i])
    requires forall i :: 0 <= i < |c| ==> IsDigit(c[i])
    ensures Split(a + " " + b + " " + c, " ") == [a, b, c]
  {
    var xs := [a, b, c];
    JoinThree(a, b, c, " ");
    SeparableByChar(a, ' ');
    SeparableByChar(b, ' ');
    SeparableByChar(c, ' ');
    assert forall i :: 0 <= i < |xs| ==> Separable(xs[i], " ");
    SplitJoin(xs, " ");
  }

  lemma JoinThree(a: string, b: string, c: string, sep: string)
    ensures Join([a, b, c], sep) == a + sep + b + sep + c
  {
    assert [a, b, c][1..] == [b, c];
    assert [b, c][1..] == [c];
    assert Join([c], sep) == c;
    assert Join([b, c], sep) == b + sep + c;
    assert Join([a, b, c], sep) == a + sep + (b + sep + c);
  }

  /** Reading a command back gives the numbers it was written with. */
  lemma ParseCommandText(move: nat, from: nat, to: nat)
    ensures ParseCommand(CommandText(move, from, to)) == Some(Command(move, from, to))
  {
    var a, b, c := Decimal(move), Decimal(from), Decimal(to);
    var bare := Replace(Replace(Replace(CommandText(move, from, to), "move ", ""), "from ", ""), "to ", "");
    StripWords(a, b, c);
    assert bare == a + " " + b + " " + c;
    SplitNumbers(a, b, c);
    ParseDecimal(move);
    ParseDecimal(from);
    ParseDecimal(to);
  }

  /** Both stack numbers name one of the `n` stacks. */
  predicate Fits(c: Command, n: nat)
  {
    1 <= c.from <= n && 1 <= c.to <= n
  }

  /** Every command reads as three numbers naming existing stacks. */
  predicate ValidCommands(p: Payload)
  {
    forall i :: 0 <= i < |p.commands| ==>
      ParseCommand(p.commands[i]).Some? && Fits(ParseCommand(p.commands[i]).value, |p.stacks|)
  }

  // ---------------------------------------------------------------------
  // The two cranes
  // ---------------------------------------------------------------------

  /** `pop` from stack `f` and, if a crate came off, `push` it onto stack `t`. */
  function MoveOne(g: Grid, f: nat, t: nat): (r: Grid)
    requires f < |g| && t < |g|
    ensures |r| == |g|
  {
    if |g[f]| == 0 then g
    else
      var crate := g[f][|g[f]| - 1];
      var lifted := g[f := g[f][..|g[f]| - 1]];
      lifted[t := lifted[t] + [crate]]
  }

  /** `n` single-crate moves, one after the other. */
  function MoveEach(g: Grid, f: nat, t: nat, n: int): (r: Grid)
    requires f < |g| && t < |g|
    ensures |r| == |g|
    decreases n
  {
    if n <= 0 then g else MoveOne(MoveEach(g, f, t, n - 1), f, t)
  }

  /** One command on the CrateMover 9000. */
  function Step9000(g: Grid, c: Command): (r: Grid)
    requires Fits(c, |g|)
    ensures |r| == |g|
  {
    MoveEach(g, c.from - 1, c.to - 1, c.move)
  }

  /** How many crates `splice(-1 * move, move)` takes off a stack of `len`. */
  function SpliceCount(len: nat, move: int): (k: nat)
    ensures k <= len
    ensures move >= 1 ==> k == if move < len then move else len
    ensures move <= 0 ==> k == 0
  {
    if move <= 0 then 0 else if move < len then move else len
  }

  /** One command on the CrateMover 9001: the top crates come off as a block and keep their order. */
  function Step9001(g: Grid, c: Command): (r: Grid)
    requires Fits(c, |g|)
    ensures |r| == |g|
  {
    var f, t := c.from - 1, c.to - 1;
    var k := SpliceCount(|g[f]|, c.move);
    var block := g[f][|g[f]| - k..];
    var lifted := g[f := g[f][..|g[f]| - k]];
    lifted[t := lifted[t] + block]
  }

  /** The crates of every stack taken together. */
  function Crates(g: Grid): multiset<char>
  {
    multiset(Flatten(g))
  }

  /** Taking crates `x` off the top of stack `i` removes exactly them. */
  lemma CratesTake(g: Grid, i: nat, s: Stack, x: Stack)
    requires i < |g| && g[i] == s + x
    ensures Crates(g) == Crates(g[i := s]) + multiset(x)
  {
    var h := g[i := s];
    FlattenAround(g, i);
    FlattenAround(h, i);
    assert h[..i] == g[..i] && h[i + 1..] == g[i + 1..];
  }

  /** Putting crates `x` on top of stack `i` adds exactly them. */
  lemma CratesPut(g: Grid, i: nat, x: Stack)
    requires i < |g|
    ensures Crates(g[i := g[i] + x]) == Crates(g) + multiset(x)
  {
    var h := g[i := g[i] + x];
    FlattenAround(g, i);
    FlattenAround(h, i);
    assert h[..i] == g[..i] && h[i + 1..] == g[i + 1..];
  }

  lemma MoveOneKeepsCrates(g: Grid, f: nat, t: nat)
    requires f < |g| && t < |g|
    ensures Crates(MoveOne(g, f, t)) == Crates(g)
  {
    if |g[f]| > 0 {
      var crate := g[f][|g[f]| - 1];
      var rest := g[f][..|g[f]| - 1];
      assert g[f] == rest + [crate];
      var lifted := g[f := rest];
      CratesTake(g, f, rest, [crate]);
      CratesPut(lifted, t, [crate]);
    }
  }

  lemma {:induction false} MoveEachKeepsCrates(g: Grid, f: nat, t: nat, n: int)
    requires f < |g| && t < |g|
    ensures Crates(MoveEach(g, f, t, n)) == Crates(g)
    decreases n
  {
    if n > 0 {
      MoveEachKeepsCrates(g, f, t, n - 1);
      MoveOneKeepsCrates(MoveEach(g, f, t, n - 1), f, t);
    }
  }

  /** Lifting the top `k` crates of stack `f` as a block onto stack `t` keeps every crate. */
  lemma BlockKeepsCrates(g: Grid, f: nat, t: nat, k: nat)
    requires f < |g| && t < |g| && k <= |g[f]|
    ensures var block := g[f][|g[f]| - k..];
      var lifted := g[f := g[f][..|g[f]| - k]];
      Crates(lifted[t := lifted[t] + block]) == Crates(g)
  {
    var block := g[f][|g[f]| - k..];
    var rest := g[f][..|g[f]| - k];
    assert g[f] == rest + block;
    CratesTake(g, f, rest, block);
    CratesPut(g[f := rest], t, block);
  }

  /** Neither crane loses or creates a crate. */
  lemma StepsKeepCrates(g: Grid, c: Command)
    requires Fits(c, |g|)
    ensures Crates(Step9000(g, c)) == Crates(g)
    ensures Crates(Step9001(g, c)) == Crates(g)
  {
    MoveEachKeepsCrates(g, c.from - 1, c.to - 1, c.move);
    BlockKeepsCrates(g, c.from - 1, c.to - 1, SpliceCount(|g[c.from - 1]|, c.move));
  }

  /** The elements of `s` in the opposite order. */
  function Reverse(s: Stack): (r: Stack)
    ensures |r| == |s|
  {
    seq(|s|, i requires 0 <= i < |s| => s[|s| - 1 - i])
  }

  /** What the cranes do to two different stacks: the top `k` crates of one land on the other. */
  function Transfer(g: Grid, f: nat, t: nat, k: nat, reversed: bool): Grid
    requires f < |g| && t < |g| && f != t && k <= |g[f]|
  {
    var block := g[f][|g[f]| - k..];
    g[f := g[f][..|g[f]| - k]][t := g[t] + if reversed then Reverse(block) else block]
  }

  lemma {:induction false} MoveEachTransfers(g: Grid, f: nat, t: nat, n: nat)
    requires f < |g| && t < |g| && f != t
    ensures MoveEach(g, f, t, n) == Transfer(g, f, t, SpliceCount(|g[f]|, n), true)
    decreases n
  {
    if n == 0 {
      TransferNone(g, f, t);
    } else {
      MoveEachTransfers(g, f, t, n - 1);
      var k := SpliceCount(|g[f]|, n - 1);
      assert MoveEach(g, f, t, n) == MoveOne(Transfer(g, f, t, k, true), f, t);
      if k < |g[f]| {
        TransferStep(g, f, t, k);
        assert SpliceCount(|g[f]|, n) == k + 1;
      } else {
        TransferAll(g, f, t);
        assert SpliceCount(|g[f]|, n) == k;
      }
    }
  }

  lemma TransferNone(g: Grid, f: nat, t: nat)
    requires f < |g| && t < |g| && f != t
    ensures Transfer(g, f, t, 0, true) == g
  {
    var len := |g[f]|;
    assert g[f][..len] == g[f] && g[f][len..] == [];
    assert Reverse([]) == [];
    assert g[t] + [] == g[t];
    assert g[f := g[f]][t := g[t]] == g;
  }

  /** Once the source stack is empty, a further single move does nothing. */
  lemma TransferAll(g: Grid, f: nat, t: nat)
    requires f < |g| && t < |g| && f != t
    ensures MoveOne(Transfer(g, f, t, |g[f]|, true), f, t) == Transfer(g, f, t, |g[f]|, true)
  {
    var h := Transfer(g, f, t, |g[f]|, true);
    assert h[f] == g[f][..0] == [];
  }

  /** One more single move on top of a reversed transfer of `k` crates. */
  lemma TransferStep(g: Grid, f: nat, t: nat, k: nat)
    requires f < |g| && t < |g| && f != t && k < |g[f]|
    ensures MoveOne(Transfer(g, f, t, k, true), f, t) == Transfer(g, f, t, k + 1, true)
  {
    var len := |g[f]|;
    var h := Transfer(g, f, t, k, true);
    var x := g[f][len - k - 1];
    assert h[f] == g[f][..len - k];
    assert h[t] == g[t] + Reverse(g[f][len - k..]);
    assert h[f][|h[f]| - 1] == x;
    assert h[f][..|h[f]| - 1] == g[f][..len - (k + 1)];
    assert Reverse(g[f][len - (k + 1)..]) == Reverse(g[f][len - k..]) + [x];
    var lifted := h[f := h[f][..|h[f]| - 1]];
    assert MoveOne(h, f, t) == lifted[t := lifted[t] + [x]];
    assert lifted[t] + [x] == g[t] + Reverse(g[f][len - (k + 1)..]);
  }

  /** Moving onto the same stack puts every crate back where it was. */
  lemma {:induction false} MoveEachSameStack(g: Grid, f: nat, n: int)
    requires f < |g|
    ensures MoveEach(g, f, f, n) == g
    decreases n
  {
    if n > 0 {
      MoveEachSameStack(g, f, n - 1);
      if |g[f]| > 0 {
        assert g[f][..|g[f]| - 1] + [g[f][|g[f]| - 1]] == g[f];
      }
    }
  }

  /**
   * The 9000 takes the top `min(move, height)` crates off the source stack
   * and they land reversed; the 9001 moves the same crates in their order.
   * Between a stack and itself, nothing changes.
   */
  lemma StepsTransfer(g: Grid, c: Command)
    requires Fits(c, |g|)
    ensures var f, t := c.from - 1, c.to - 1;
      var k := SpliceCount(|g[f]|, c.move);
      && (f != t ==> Step9000(g, c) == Transfer(g, f, t, k, true))
      && (f != t ==> Step9001(g, c) == Transfer(g, f, t, k, false))
      && (f == t ==> Step9000(g, c) == g && Step9001(g, c) == g)
  {
    var f, t := c.from - 1, c.to - 1;
    if f != t {
      Transfer9000(g, c);
      Transfer9001(g, c);
    } else {
      SameStack(g, c);
    }
  }

  /** Between two stacks, the 9000's single moves amount to a reversed transfer. */
  lemma Transfer9000(g: Grid, c: Command)
    requires Fits(c, |g|) && c.from != c.to
    ensures Step9000(g, c) == Transfer(g, c.from - 1, c.to - 1, SpliceCount(|g[c.from - 1]|, c.move), true)
  {
    var f, t := c.from - 1, c.to - 1;
    if c.move > 0 {
      MoveEachTransfers(g, f, t, c.move);
    } else {
      TransferNone(g, f, t);
    }
  }

  /** Between two stacks, the 9001 transfers its block in order. */
  lemma Transfer9001(g: Grid, c: Command)
    requires Fits(c, |g|) && c.from != c.to
    ensures Step9001(g, c) == Transfer(g, c.from - 1, c.to - 1, SpliceCount(|g[c.from - 1]|, c.move), false)
  {
  }

  /** Between a stack and itself, neither crane changes anything. */
  lemma SameStack(g: Grid, c: Command)
    requires Fits(c, |g|) && c.from == c.to
    ensures Step9000(g, c) == g && Step9001(g, c) == g
  {
    var f := c.from - 1;
    MoveEachSameStack(g, f, c.move);
    var k := SpliceCount(|g[f]|, c.move);
    assert g[f][..|g[f]| - k] + g[f][|g[f]| - k..] == g[f];
  }

  /** Moving a single crate, the two cranes agree. */
  lemma SingleMovesAgree(g: Grid, c: Command)
    requires Fits(c, |g|) && c.move == 1
    ensures Step9000(g, c) == Step9001(g, c)
  {
    StepsTransfer(g, c);
    var f := c.from - 1;
    var k := SpliceCount(|g[f]|, 1);
    assert Reverse(g[f][|g[f]| - k..]) == g[f][|g[f]| - k..];
  }

  /** The two machines. */
  datatype Crane = Mover9000 | Mover9001

  /** One command on the given crane. */
  function Step(crane: Crane, g: Grid, c: Command): (r: Grid)
    requires Fits(c, |g|)
    ensures |r| == |g|
  {
    match crane
    case Mover9000 => Step9000(g, c)
    case Mover9001 => Step9001(g, c)
  }

  /** Every command names existing stacks. */
  predicate AllFit(cmds: seq<Command>, n: nat)
  {
    forall i :: 0 <= i < |cmds| ==> Fits(cmds[i], n)
  }

  /** The commands as the simulators read them. */
  function Commands(p: Payload): (cmds: seq<Command>)
    requires ValidCommands(p)
    ensures |cmds| == |p.commands| && AllFit(cmds, |p.stacks|)
    ensures forall i :: 0 <= i < |cmds| ==> ParseCommand(p.commands[i]) == Some(cmds[i])
  {
    seq(|p.commands|, i requires 0 <= i < |p.commands| => ParseCommand(p.commands[i]).value)
  }

  /** The recorded states: the start, then the state after each command in turn. */
  function Trace(crane: Crane, g: Grid, cmds: seq<Command>): (states: seq<Grid>)
    requires AllFit(cmds, |g|)
    ensures |states| == |cmds| + 1 && states[0] == g
    ensures forall i :: 0 <= i < |states| ==> |states[i]| == |g|
    decreases |cmds|
  {
    if |cmds| == 0 then [g]
    else
      var front := Trace(crane, g, cmds[..|cmds| - 1]);
      front + [Step(crane, front[|cmds| - 1], cmds[|cmds| - 1])]
  }

  /** Each recorded state is the one before it after one command. */
  lemma {:induction false} TraceSteps(crane: Crane, g: Grid, cmds: seq<Command>)
    requires AllFit(cmds, |g|)
    ensures forall i :: 0 <= i < |cmds| ==>
      Trace(crane, g, cmds)[i + 1] == Step(crane, Trace(crane, g, cmds)[i], cmds[i])
    decreases |cmds|
  {
    if |cmds| > 0 {
      var front := cmds[..|cmds| - 1];
      TraceSteps(crane, g, front);
      var states := Trace(crane, g, cmds);
      assert states[..|cmds|] == Trace(crane, g, front);
    }
  }

  /** No recorded state has lost or gained a crate. */
  lemma {:induction false} TraceKeepsCrates(crane: Crane, g: Grid, cmds: seq<Command>)
    requires AllFit(cmds, |g|)
    ensures forall i :: 0 <= i <= |cmds| ==> Crates(Trace(crane, g, cmds)[i]) == Crates(g)
    decreases |cmds|
  {
    if |cmds| > 0 {
      var front := cmds[..|cmds| - 1];
      TraceKeepsCrates(crane, g, front);
      var before := Trace(crane, g, front);
      var last := before[|front|];
      StepKeepsCrates(crane, last, cmds[|front|]);
      var states := Trace(crane, g, cmds);
      assert states == before + [Step(crane, last, cmds[|front|])];
      forall i | 0 <= i < |states| ensures Crates(states[i]) == Crates(g) {
        if i < |front| + 1 {
          assert states[i] == before[i];
          assert Crates(before[i]) == Crates(g);
        } else {
          assert states[i] == Step(crane, last, cmds[|front|]);
        }
      }
    }
  }

  /** One command on either crane keeps every crate. */
  lemma StepKeepsCrates(crane: Crane, g: Grid, c: Command)
    requires Fits(c, |g|)
    ensures Crates(Step(crane, g, c)) == Crates(g)
  {
    StepsKeepCrates(g, c);
  }

  /** A trace one command longer is the shorter trace plus one state. */
  lemma TraceExtend(crane: Crane, g: Grid, cmds: seq<Command>, i: nat)
    requires AllFit(cmds, |g|) && i < |cmds|
    ensures AllFit(cmds[..i], |g|) && AllFit(cmds[..i + 1], |g|)
    ensures Trace(crane, g, cmds[..i + 1])
      == Trace(crane, g, cmds[..i]) + [Step(crane, Trace(crane, g, cmds[..i])[i], cmds[i])]
  {
    assert cmds[..i + 1][..i] == cmds[..i];
  }

  /** The body of the 9000's `forEach`: pop and push `move` times on a copy of the state. */
  method Apply9000(state: Grid, c: Command) returns (next: Grid)
    requires Fits(c, |state|)
    ensures next == Step9000(state, c)
  {
    next := state;
    var from, to := c.from - 1, c.to - 1;
    var n := 0;
    while n < c.move
      invariant 0 <= n && (c.move >= 0 ==> n <= c.move) && (c.move <= 0 ==> n == 0)
      invariant next == MoveEach(state, from, to, n)
    {
      if |next[from]| > 0 {
        var popped := next[from][|next[from]| - 1];
        next := next[from := next[from][..|next[from]| - 1]];
        next := next[to := next[to] + [popped]];
      }
      n := n + 1;
    }
    if c.move <= 0 {
      assert MoveEach(state, from, to, c.move) == state;
    }
  }

  /** The body of the 9001's `forEach`: one `splice` and one `push` on a copy of the state. */
  method Apply9001(state: Grid, c: Command) returns (next: Grid)
    requires Fits(c, |state|)
    ensures next == Step9001(state, c)
  {
    next := state;
    var from, to := c.from - 1, c.to - 1;
    var k := SpliceCount(|next[from]|, c.move);
    var popped := next[from][|next[from]| - k..];
    next := next[from := next[from][..|next[from]| - k]];
    next := next[to := next[to] + popped];
  }

  /**
   * `crate9000Simulator`: state 0 is the stacks as read, and each command
   * appends a fresh copy of the last state with crates moved one at a
   * time (popping an empty stack moves nothing).  No recorded state is
   * changed afterwards.
   */
  method Crate9000Simulator(p: Payload) returns (states: seq<Grid>)
    requires ValidCommands(p)
    ensures states == Trace(Mover9000, p.stacks, Commands(p))
  {
    var cmds := Commands(p);
    states := [p.stacks];
    var i := 0;
    while i < |p.commands|
      invariant 0 <= i <= |p.commands|
      invariant states == Trace(Mover9000, p.stacks, cmds[..i])
    {
      var c := ParseCommand(p.commands[i]).value;
      TraceExtend(Mover9000, p.stacks, cmds, i);
      var next := Apply9000(states[i], c);
      states := states + [next];
      i := i + 1;
    }
    assert cmds[..i] == cmds;
  }

  /**
   * `crate9001Simulator`: as the 9000, except that each command splices
   * the top `move` crates off as a block and pushes them in their order.
   */
  method Crate9001Simulator(p: Payload) returns (states: seq<Grid>)
    requires ValidCommands(p)
    ensures states == Trace(Mover9001, p.stacks, Commands(p))
  {
    var cmds := Commands(p);
    states := [p.stacks];
    var i := 0;
    while i < |p.commands|
      invariant 0 <= i <= |p.commands|
      invariant states == Trace(Mover9001, p.stacks, cmds[..i])
    {
      var c := ParseCommand(p.commands[i]).value;
      TraceExtend(Mover9001, p.stacks, cmds, i);
      var next := Apply9001(states[i], c);
      states := states + [next];
      i := i + 1;
    }
    assert cmds[..i] == cmds;
  }

  // ---------------------------------------------------------------------
  // The answer
  // ---------------------------------------------------------------------

  /** `col[col.length - 1]` as `join` writes it: the top crate, or nothing for an empty stack. */
  function Top(s: Stack): (r: string)
    ensures |r| <= 1
    ensures |s| > 0 ==> r == [s[|s| - 1]]
  {
    if |s| == 0 then "" else [s[|s| - 1]]
  }

  /** `getTopOfAllRows`: the top crates, stack by stack. */
  function TopOfAllRows(g: Grid): (r: string)
    ensures |r| <= |g|
    ensures (forall i :: 0 <= i < |g| ==> |g[i]| > 0) ==>
      |r| == |g| && forall i :: 0 <= i < |g| ==> r[i] == g[i][|g[i]| - 1]
  {
    if |g| == 0 then ""
    else
      var front := TopOfAllRows(g[..|g| - 1]);
      assert forall i :: 0 <= i < |g| - 1 ==> g[..|g| - 1][i] == g[i];
      front + Top(g[|g| - 1])
  }
}
