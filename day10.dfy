/**
 * Day 10, cathode-ray tube.  A CPU with one register `x` runs `noop` (one
 * cycle) and `addx v` (two cycles, then `x` grows by `v`).  At the start of
 * every cycle the screen draws one pixel, lit when the sprite around `x`
 * covers it; at chosen key cycles the signal strength `x * cycle` is
 * recorded.  `runCommands` does both in one pass over the lines, changing
 * `cycle`, `x` and two growing lists step by step.
 */
module Day10 {
  import opened Text
  import opened Lists

  /** `prepare`: the lines of the trimmed input. */
  function Prepare(input: string): (lines: seq<string>)
    ensures |lines| >= 1
    ensures Join(lines, "\n") == Trim(input)
    ensures forall i :: 0 <= i < |lines| ==> !Contains(lines[i], "\n")
  {
    Split(Trim(input), "\n")
  }

  /** The first word of a line. */
  function Op(line: string): string
  {
    Split(line, " ")[0]
  }

  /** The `addx` operand, `None` when absent or not a number. */
  function Arg(line: string): Option<int>
  {
    var parts := Split(line, " ");
    if |parts| > 1 then ParseInt(parts[1]) else None
  }

  /** Every `addx` carries a number, so `x` stays a number. */
  predicate Numeric(lines: seq<string>)
  {
    forall i :: 0 <= i < |lines| ==> Op(lines[i]) == "addx" ==> Arg(lines[i]).Some?
  }

  /** The pixel test of `addPixel`, as written: `40 * floor(cycle / 40) + x` lies in `[cycle - 2, cycle]`. */
  function Lit(cycle: int, x: int): bool
  {
    var row := 40 * (cycle / 40);
    var pixel := row + x;
    pixel >= cycle - 2 && pixel <= cycle
  }

  /** What `runCommands` carries from line to line. */
  datatype Cpu = Cpu(cycle: int, x: int, pixels: seq<bool>, results: seq<int>)

  /** Execution starts at cycle 1 with `x` at 1 and nothing drawn or recorded. */
  function Begin(): Cpu
  {
    Cpu(1, 1, [], [])
  }

  /** `results.push(x * cycle)` when the cycle is a key cycle. */
  function Check(keys: seq<int>, st: Cpu): Cpu
  {
    if st.cycle in keys then st.(results := st.results + [st.x * st.cycle]) else st
  }

  /** `addPixel()` */
  function Draw(st: Cpu): Cpu
  {
    st.(pixels := st.pixels + [Lit(st.cycle, st.x)])
  }

  /** A line as the `switch` of `runCommands` sees it: its first word, and the operand of `addx`. */
  datatype Command = Noop | Addx(v: int) | Other

  function Parse(line: string): (c: Command)
    requires Op(line) == "addx" ==> Arg(line).Some?
    ensures c.Noop? <==> Op(line) == "noop"
    ensures c.Addx? <==> Op(line) == "addx"
    ensures c.Addx? ==> Arg(line) == Some(c.v)
  {
    var op := Op(line);
    if op == "noop" then Noop
    else if op == "addx" then Addx(Arg(line).value)
    else Other
  }

  /**
   * One line: draw a pixel; `noop` ends its cycle; `addx` ends one cycle,
   * checks, draws again, adds its operand and ends a second cycle; anything
   * else does neither; then check.
   */
  function Exec(keys: seq<int>, st: Cpu, command: Command): Cpu
  {
    var drawn := Draw(st);
    var done :=
      match command
      case Noop => drawn.(cycle := drawn.cycle + 1)
      case Addx(v) =>
        var mid := Draw(Check(keys, drawn.(cycle := drawn.cycle + 1)));
        mid.(x := mid.x + v, cycle := mid.cycle + 1)
      case Other => drawn;
    Check(keys, done)
  }

  function Run(keys: seq<int>, st: Cpu, commands: seq<Command>): Cpu
  {
    if |commands| == 0 then st
    else Exec(keys, Run(keys, st, commands[..|commands| - 1]), commands[|commands| - 1])
  }

  /** The lines as commands. */
  function Parsed(lines: seq<string>): (commands: seq<Command>)
    requires Numeric(lines)
    ensures |commands| == |lines|
  {
    seq(|lines|, i requires 0 <= i < |lines| => Parse(lines[i]))
  }

  /** The body of the loop of `runCommands`, for one line. */
  method Execute(keyCycles: seq<int>, cycle0: int, x0: int, pixels0: seq<bool>, results0: seq<int>, command: Command)
    returns (cycle: int, x: int, pixels: seq<bool>, results: seq<int>)
    ensures Cpu(cycle, x, pixels, results) == Exec(keyCycles, Cpu(cycle0, x0, pixels0, results0), command)
  {
    cycle, x, pixels, results := cycle0, x0, pixels0, results0;
    pixels := pixels + [Lit(cycle, x)];
    match command {
      case Noop =>
        cycle := cycle + 1;
      case Addx(v) =>
        cycle := cycle + 1;
        if cycle in keyCycles {
          results := results + [x * cycle];
        }
        pixels := pixels + [Lit(cycle, x)];
        x := x + v;
        cycle := cycle + 1;
      case Other =>
    }
    if cycle in keyCycles {
      results := results + [x * cycle];
    }
  }

  /** `runCommands`: one pass over the lines; returns the recorded signals and the pixels. */
  method RunCommands(inputs: seq<string>, keyCycles: seq<int>) returns (keyResults: seq<int>, crtPixels: seq<bool>)
    requires Numeric(inputs)
    ensures keyResults == Run(keyCycles, Begin(), Parsed(inputs)).results
    ensures crtPixels == Run(keyCycles, Begin(), Parsed(inputs)).pixels
  {
    var cycle := 1;
    var x := 1;
    var pixels: seq<bool> := [];
    var results: seq<int> := [];
    ghost var commands := Parsed(inputs);
    for i := 0 to |inputs|
      invariant Cpu(cycle, x, pixels, results) == Run(keyCycles, Begin(), commands[..i])
    {
      assert commands[..i + 1][..i] == commands[..i];
      var command := Parse(inputs[i]);
      cycle, x, pixels, results := Execute(keyCycles, cycle, x, pixels, results, command);
    }
    assert commands[..|inputs|] == commands;
    keyResults, crtPixels := results, pixels;
  }

  // ---------------------------------------------------------------------
  // A reference: the value of `x` during each cycle
  // ---------------------------------------------------------------------

  /** Only `noop` and `addx`. */
  predicate Valid(commands: seq<Command>)
  {
    forall i :: 0 <= i < |commands| ==> !commands[i].Other?
  }

  /**
   * The value of `x` during cycles 1, 2, ...: one entry for a `noop`, two
   * for an `addx` (the sum takes effect after them), and a last entry for the
   * cycle after the program.
   */
  function Trace(commands: seq<Command>): (t: seq<int>)
    ensures |t| >= 1
  {
    if |commands| == 0 then [1]
    else
      var before := Trace(commands[..|commands| - 1]);
      var x := before[|before| - 1];
      match commands[|commands| - 1]
      case Addx(v) => before + [x, x + v]
      case _ => before + [x]
  }

  /** The parsed lines are a valid program exactly when every line starts with `noop` or `addx`. */
  lemma ValidLines(lines: seq<string>)
    requires Numeric(lines)
    ensures Valid(Parsed(lines)) <==> forall i :: 0 <= i < |lines| ==> Op(lines[i]) in {"noop", "addx"}
  {
    var commands := Parsed(lines);
    forall i | 0 <= i < |lines|
      ensures commands[i].Other? <==> Op(lines[i]) !in {"noop", "addx"}
    {
      assert commands[i] == Parse(lines[i]);
    }
  }

  /** The cycles a program takes: one per `noop`, two per `addx`. */
  function Cycles(commands: seq<Command>): nat
  {
    if |commands| == 0 then 0
    else Cycles(commands[..|commands| - 1]) + (if commands[|commands| - 1].Addx? then 2 else 1)
  }

  /** One pixel per cycle, drawn with the `x` of that cycle. */
  function Screen(t: seq<int>): (p: seq<bool>)
    requires |t| >= 1
    ensures |p| == |t| - 1
  {
    seq(|t| - 1, k requires 0 <= k < |t| - 1 => Lit(k + 1, t[k]))
  }

  /** The key cycles among 2 ..= n, in increasing order. */
  function Hits(keys: seq<int>, n: int): (h: seq<int>)
    ensures forall i :: 0 <= i < |h| ==> 2 <= h[i] <= n
    ensures forall i, j :: 0 <= i < j < |h| ==> h[i] < h[j]
    ensures forall c :: c in h <==> 2 <= c <= n && c in keys
    decreases n
  {
    if n < 2 then []
    else Hits(keys, n - 1) + (if n in keys then [n] else [])
  }

  /** The signal strengths at the key cycles a trace reaches. */
  function Signals(keys: seq<int>, t: seq<int>): (s: seq<int>)
    requires |t| >= 1
  {
    var h := Hits(keys, |t|);
    seq(|h|, i requires 0 <= i < |h| => h[i] * t[h[i] - 1])
  }

  lemma {:induction false} TraceLength(commands: seq<Command>)
    ensures |Trace(commands)| == Cycles(commands) + 1
  {
    if |commands| > 0 {
      TraceLength(commands[..|commands| - 1]);
    }
  }

  lemma ValidPrefix(commands: seq<Command>, n: nat)
    requires Valid(commands) && n <= |commands|
    ensures Valid(commands[..n])
  {
    forall i | 0 <= i < n ensures commands[..n][i] == commands[i] {
    }
  }

  /** One more key cycle reached appends one more signal. */
  lemma SignalsStep(keys: seq<int>, t: seq<int>, v: int)
    requires |t| >= 1
    ensures Signals(keys, t + [v]) == Signals(keys, t) + (if |t| + 1 in keys then [(|t| + 1) * v] else [])
  {
    var t' := t + [v];
    var h, h' := Hits(keys, |t|), Hits(keys, |t'|);
    assert h' == h + (if |t'| in keys then [|t'|] else []);
    var s, s' := Signals(keys, t), Signals(keys, t');
    forall i | 0 <= i < |h| ensures s'[i] == s[i] {
      assert h'[i] == h[i] && h[i] <= |t| && t'[h[i] - 1] == t[h[i] - 1];
    }
  }

  /** A state that has run the cycles of trace `t`: one pixel and one check for each. */
  ghost predicate Matches(keys: seq<int>, st: Cpu, t: seq<int>)
    requires |t| >= 1
  {
    st.cycle == |t| && st.x == t[|t| - 1] && st.pixels == Screen(t) && st.results == Signals(keys, t)
  }

  /** One cycle: draw, move to the next cycle with `x` at `x'`, check. */
  function Tick(keys: seq<int>, st: Cpu, x': int): Cpu
  {
    Check(keys, Draw(st).(x := x', cycle := st.cycle + 1))
  }

  /** `noop` is one tick, `addx v` two, the second setting `x` to its sum. */
  lemma ExecTicks(keys: seq<int>, st: Cpu, v: int)
    ensures Exec(keys, st, Noop) == Tick(keys, st, st.x)
    ensures Exec(keys, st, Addx(v)) == Tick(keys, Tick(keys, st, st.x), st.x + v)
  {
  }

  lemma {:induction false} TickMatches(keys: seq<int>, st: Cpu, t: seq<int>, x': int)
    requires |t| >= 1 && Matches(keys, st, t)
    ensures Matches(keys, Tick(keys, st, x'), t + [x'])
  {
    SignalsStep(keys, t, x');
    assert Screen(t + [x']) == Screen(t) + [Lit(|t|, st.x)];
  }

  /** The trace after one more command. */
  function Extend(t: seq<int>, command: Command): seq<int>
    requires |t| >= 1
  {
    var x := t[|t| - 1];
    match command
    case Addx(v) => t + [x, x + v]
    case _ => t + [x]
  }

  lemma StepMatches(keys: seq<int>, st: Cpu, t: seq<int>, command: Command)
    requires |t| >= 1 && Matches(keys, st, t) && !command.Other?
    ensures Matches(keys, Exec(keys, st, command), Extend(t, command))
  {
    var x := t[|t| - 1];
    match command
    case Noop =>
      ExecTicks(keys, st, 0);
      TickMatches(keys, st, t, x);
    case Addx(v) =>
      AddxMatches(keys, st, t, v);
  }

  /** `addx` is two ticks, the first at the old `x`, the second at the new. */
  lemma AddxMatches(keys: seq<int>, st: Cpu, t: seq<int>, v: int)
    requires |t| >= 1 && Matches(keys, st, t)
    ensures Matches(keys, Exec(keys, st, Addx(v)), Extend(t, Addx(v)))
  {
    var x := t[|t| - 1];
    var mid, t1, t2 := Tick(keys, st, x), t + [x], t + [x] + [x + v];
    assert Extend(t, Addx(v)) == t2 by {
      assert t + [x, x + v] == t2;
    }
    TickMatches(keys, st, t, x);
    TickMatches(keys, mid, t1, x + v);
    assert Exec(keys, st, Addx(v)) == Tick(keys, mid, x + v) by {
      ExecTicks(keys, st, v);
    }
  }

  /**
   * `runCommands` on a program of `noop` and `addx` draws each cycle's pixel
   * with that cycle's `x`, and records `x * cycle` at every key cycle from 2
   * to the cycle after the program, in increasing order, each once.
   */
  lemma {:induction false} RunTrace(keys: seq<int>, commands: seq<Command>)
    requires Valid(commands)
    ensures Matches(keys, Run(keys, Begin(), commands), Trace(commands))
  {
    if |commands| > 0 {
      var init := commands[..|commands| - 1];
      var last := commands[|commands| - 1];
      ValidPrefix(commands, |commands| - 1);
      RunTrace(keys, init);
      assert Trace(commands) == Extend(Trace(init), last);
      assert Run(keys, Begin(), commands) == Exec(keys, Run(keys, Begin(), init), last);
      StepMatches(keys, Run(keys, Begin(), init), Trace(init), last);
    }
  }

  /** A program of `noop` and `addx` draws exactly one pixel per cycle, and ends at the cycle after its last. */
  lemma PixelCount(keys: seq<int>, commands: seq<Command>)
    requires Valid(commands)
    ensures |Run(keys, Begin(), commands).pixels| == Cycles(commands)
    ensures Run(keys, Begin(), commands).cycle == Cycles(commands) + 1
  {
    RunTrace(keys, commands);
    TraceLength(commands);
  }

  /**
   * A line that is neither `noop` nor `addx` still draws a pixel but does
   * not advance the cycle, so a key cycle it lands on is recorded again.
   */
  lemma OtherRecordsAgain()
    ensures Run([2], Begin(), [Noop]).results == [2]
    ensures Run([2], Begin(), [Noop, Other]).results == [2, 2]
    ensures |Run([2], Begin(), [Noop, Other]).pixels| == 2
  {
    assert [Noop, Other][..1] == [Noop];
  }

  // ---------------------------------------------------------------------
  // The pixel test
  // ---------------------------------------------------------------------

  /** The screen column the beam is on during `cycle` (cycle 1 draws column 0). */
  function Column(cycle: int): int
  {
    (cycle - 1) % 40
  }

  /** The intended test: the sprite, three pixels wide around `x`, covers the beam's column. */
  predicate Covers(cycle: int, x: int)
  {
    x - 1 <= Column(cycle) <= x + 1
  }

  /** The written test agrees with the intended one everywhere except at the end of a screen row. */
  lemma LitCovers(cycle: int, x: int)
    requires cycle % 40 != 0
    ensures Lit(cycle, x) == Covers(cycle, x)
  {
    assert cycle == 40 * (cycle / 40) + cycle % 40;
    assert (cycle - 1) % 40 == cycle % 40 - 1 by {
      assert cycle - 1 == 40 * (cycle / 40) + (cycle % 40 - 1);
    }
  }

  /** At cycle 40 the beam is on the last column, under a sprite at 39, yet the written test leaves it dark. */
  lemma RowEndDark()
    ensures Covers(40, 39) && !Lit(40, 39)
    ensures !Covers(40, 0) && Lit(40, 0)
  {
  }

  /** The signal sum and the pixels of the key cycles 20, 60, ..., 220. */
  method Answers(input: string) returns (part1: int, pixels: seq<bool>)
    requires Numeric(Prepare(input))
    ensures part1 == Sum(Run([20, 60, 100, 140, 180, 220], Begin(), Parsed(Prepare(input))).results)
    ensures pixels == Run([20, 60, 100, 140, 180, 220], Begin(), Parsed(Prepare(input))).pixels
    ensures Valid(Parsed(Prepare(input))) ==>
      var t := Trace(Parsed(Prepare(input)));
      part1 == Sum(Signals([20, 60, 100, 140, 180, 220], t)) && pixels == Screen(t)
  {
    var cleanData := Prepare(input);
    var results;
    results, pixels := RunCommands(cleanData, [20, 60, 100, 140, 180, 220]);
    part1 := Sum(results);
    if Valid(Parsed(cleanData)) {
      RunTrace([20, 60, 100, 140, 180, 220], Parsed(cleanData));
    }
  }
}
