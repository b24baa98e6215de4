/**
 * Day 11, monkeys in the middle.  Each monkey holds a queue of worry levels;
 * in its turn it takes them front first, applies its operation, lets the
 * relief function calm the level, and throws the item to one of two other
 * monkeys depending on whether the level is divisible by its test divisor.
 * The monkeys live in a map that `processRound` changes in place; a `Troop`
 * holds that map and the order in which its keys were first set.
 */
module Day11 {
  import opened Text
  import opened Lists

  // ---------------------------------------------------------------------
  // Operations
  // ---------------------------------------------------------------------

  /**
   * The closures of `buildOperation`.  With `old` as magnitude, `/` gives the
   * constant 0 and `-` the constant 1.  `Divide` is a division by a number,
   * whose results are fractions.
   */
  datatype Operation =
    | Square | Double | Zero | One
    | Times(m: int) | Divide(m: int) | Minus(m: int) | Plus(m: int)

  /** Every operation but a division by a number stays in the integers. */
  predicate Integral(op: Operation)
  {
    !op.Divide?
  }

  /** The new worry level from the old one. */
  function Apply(op: Operation, w: int): int
    requires Integral(op)
  {
    match op
    case Square => w * w
    case Double => w + w
    case Zero => 0
    case One => 1
    case Times(m) => w * m
    case Minus(m) => w - m
    case Plus(m) => w + m
  }

  /**
   * `buildOperation`: `old` as magnitude squares, doubles or gives a
   * constant; a number multiplies, divides, subtracts or adds; any other
   * modifier throws.
   */
  function BuildOperation(modifier: string, magnitude: string): (r: Result<Operation>)
    requires magnitude == "old" || ParseInt(magnitude).Some?
    ensures r.Ok? <==> modifier in {"*", "/", "-", "+"}
    ensures r.Ok? ==> (Integral(r.value) <==> magnitude == "old" || modifier != "/")
  {
    if magnitude == "old" then
      match modifier
      case "*" => Ok(Square)
      case "/" => Ok(Zero)
      case "-" => Ok(One)
      case "+" => Ok(Double)
      case _ => Error("unknown magnitude (" + magnitude + ") or modifier (" + modifier + ")")
    else
      var m := ParseInt(magnitude).value;
      match modifier
      case "*" => Ok(Times(m))
      case "/" => Ok(Divide(m))
      case "-" => Ok(Minus(m))
      case "+" => Ok(Plus(m))
      case _ => Error("unknown magnitude (" + magnitude + ") or modifier (" + modifier + ")")
  }

  /** What the built operation does to a worry level `w`, modifier by modifier. */
  lemma OperationMeaning(modifier: string, magnitude: string, w: int)
    requires magnitude == "old" || ParseInt(magnitude).Some?
    requires BuildOperation(modifier, magnitude).Ok? && Integral(BuildOperation(modifier, magnitude).value)
    ensures var f := BuildOperation(modifier, magnitude).value;
      (magnitude == "old" ==>
        (modifier == "*" ==> Apply(f, w) == w * w) &&
        (modifier == "/" ==> Apply(f, w) == 0) &&
        (modifier == "-" ==> Apply(f, w) == 1) &&
        (modifier == "+" ==> Apply(f, w) == w + w)) &&
      (magnitude != "old" ==>
        var m := ParseInt(magnitude).value;
        (modifier == "*" ==> Apply(f, w) == w * m) &&
        (modifier == "-" ==> Apply(f, w) == w - m) &&
        (modifier == "+" ==> Apply(f, w) == w + m))
  {
  }

  // ---------------------------------------------------------------------
  // Monkeys and the map that holds them
  // ---------------------------------------------------------------------

  /** A monkey as `prepare` builds it. */
  datatype Monkey = Monkey(
    items: seq<int>,
    operation: Operation,
    testDivisor: int,
    trueMonkey: int,
    falseMonkey: int,
    inspected: nat)

  /** What no round changes of a monkey: its operation, its test and its two targets. */
  datatype Rule = Rule(operation: Operation, testDivisor: int, trueMonkey: int, falseMonkey: int)

  /** What a round changes of a monkey: its queue of worry levels and its count of inspections. */
  datatype Hold = Hold(items: seq<int>, inspected: nat)

  function RuleOf(m: Monkey): Rule
  {
    Rule(m.operation, m.testDivisor, m.trueMonkey, m.falseMonkey)
  }

  function HoldOf(m: Monkey): Hold
  {
    Hold(m.items, m.inspected)
  }

  /** The monkey with the given rule and hold. */
  function Assemble(rule: Rule, hold: Hold): (m: Monkey)
    ensures RuleOf(m) == rule && HoldOf(m) == hold
  {
    Monkey(hold.items, rule.operation, rule.testDivisor, rule.trueMonkey, rule.falseMonkey, hold.inspected)
  }

  /** A monkey is its rule and its hold, and nothing else. */
  lemma AssembleParts(m: Monkey)
    ensures Assemble(RuleOf(m), HoldOf(m)) == m
  {
  }

  /** `worry % testDivisor === 0`; a zero divisor gives `NaN`, which is not 0. */
  predicate Divisible(worry: int, divisor: int)
  {
    divisor != 0 && worry % divisor == 0
  }

  /**
   * A `Map<number, Monkey>`: the keys in the order they were first set and,
   * position by position, the rule and the hold of the monkey under each key.
   */
  datatype Table = Table(roster: Roster, holds: seq<Hold>)
  {
    const order: seq<int> := roster.order
    const rules: seq<Rule> := roster.rules
  }

  /** What the rounds never change of the map: its keys in order and, position by position, their rules. */
  datatype Roster = Roster(order: seq<int>, rules: seq<Rule>)

  /** Where a key stands in a list that holds it: its first position. */
  function Slot(order: seq<int>, id: int): (p: nat)
    requires id in order
    ensures p < |order| && order[p] == id
  {
    if order[0] == id then 0 else 1 + Slot(order[1..], id)
  }

  /** Every key stands at its own position: no key occurs twice. */
  ghost predicate Keyed(order: seq<int>)
  {
    forall p {:trigger Slot(order, order[p])} :: 0 <= p < |order| ==> Slot(order, order[p]) == p
  }

  /** Each key occurs once and has a rule and a hold. */
  ghost predicate Shaped(t: Table)
  {
    Keyed(t.order) && |t.rules| == |t.order| && |t.holds| == |t.order|
  }

  /** Keys that stand at their own positions are exactly keys without repeats. */
  lemma KeyedUnique(order: seq<int>)
    ensures Keyed(order) <==> NoDuplicates(order)
  {
    if Keyed(order) {
      forall k, l | 0 <= k < l < |order| ensures order[k] != order[l] {
        SlotAt(order, k);
        SlotAt(order, l);
      }
    }
    if NoDuplicates(order) {
      forall p | 0 <= p < |order| ensures Slot(order, order[p]) == p {
        var q := Slot(order, order[p]);
        assert order[q] == order[p];
      }
    }
  }

  /** The key at a position of a keyed list stands at that position. */
  lemma SlotAt(order: seq<int>, p: nat)
    requires Keyed(order) && p < |order|
    ensures Slot(order, order[p]) == p
  {
  }

  /** A key appended to a list does not move the keys already there. */
  lemma {:induction false} SlotAppend(order: seq<int>, id: int, x: int)
    requires x in order
    ensures Slot(order + [id], x) == Slot(order, x)
  {
    if order[0] != x {
      assert (order + [id])[1..] == order[1..] + [id];
      SlotAppend(order[1..], id, x);
    }
  }

  /** A key appended to a list that lacks it stands at the end. */
  lemma SlotLast(order: seq<int>, id: int)
    requires id !in order
    ensures Slot(order + [id], id) == |order|
  {
  }

  /** `map.get(id)`: the monkey under `id`, if there is one. */
  function Get(t: Table, id: int): (r: Option<Monkey>)
    requires Shaped(t)
    ensures r.Some? <==> id in t.order
    ensures r.Some? ==> r.value == Assemble(t.rules[Slot(t.order, id)], t.holds[Slot(t.order, id)])
  {
    if id in t.order then
      var p := Slot(t.order, id);
      Some(Assemble(t.rules[p], t.holds[p]))
    else None
  }

  /**
   * `map.set(id, monkey)`: a new key goes to the end of the order, an old
   * one keeps its place and gets the new monkey.
   */
  function Set(t: Table, id: int, monkey: Monkey): (r: Table)
    requires Shaped(t)
    ensures Shaped(r)
    ensures Get(r, id) == Some(monkey)
    ensures forall k :: k != id ==> Get(r, k) == Get(t, k)
    ensures id in t.order ==> r.order == t.order
    ensures id !in t.order ==> r.order == t.order + [id]
    ensures forall i :: 0 <= i < |r.holds| ==> r.holds[i] == HoldOf(monkey) || (i < |t.holds| && r.holds[i] == t.holds[i])
  {
    var r :=
      if id in t.order then
        var p := Slot(t.order, id);
        Table(Roster(t.order, t.rules[p := RuleOf(monkey)]), t.holds[p := HoldOf(monkey)])
      else
        Table(Roster(t.order + [id], t.rules + [RuleOf(monkey)]), t.holds + [HoldOf(monkey)]);
    assert Shaped(r) && Get(r, id) == Some(monkey) && forall k :: k != id ==> Get(r, k) == Get(t, k) by {
      if id !in t.order {
        SlotLast(t.order, id);
        forall k | k in t.order ensures Slot(r.order, k) == Slot(t.order, k) {
          SlotAppend(t.order, id, k);
        }
        forall p | 0 <= p < |r.order| ensures Slot(r.order, r.order[p]) == p {
          if p < |t.order| {
            assert r.order[p] == t.order[p];
            SlotAt(t.order, p);
          }
        }
      }
    }
    r
  }

  /** No monkey throws to itself, and no operation divides by a number. */
  ghost predicate Sound(order: seq<int>, rules: seq<Rule>)
  {
    forall p {:trigger rules[p]} :: 0 <= p < |rules| && p < |order| ==>
      rules[p].trueMonkey != order[p] && rules[p].falseMonkey != order[p] && Integral(rules[p].operation)
  }

  /** What a round needs to finish and stay in the integers. */
  ghost predicate Ready(t: Table)
  {
    Shaped(t) && Sound(t.order, t.rules)
  }

  /** Every monkey's two targets exist. */
  ghost predicate Closed(order: seq<int>, rules: seq<Rule>)
  {
    forall p :: 0 <= p < |rules| ==> rules[p].trueMonkey in order && rules[p].falseMonkey in order
  }

  // ---------------------------------------------------------------------
  // A round, as functions of the map
  // ---------------------------------------------------------------------

  /** The monkey an inspected item goes to. */
  function Target(rule: Rule, worry: int): int
  {
    if Divisible(worry, rule.testDivisor) then rule.trueMonkey else rule.falseMonkey
  }

  /** The worry level of the front item once inspected and calmed. */
  function Calmed(rule: Rule, hold: Hold, relief: int -> int): int
    requires |hold.items| > 0 && Integral(rule.operation)
  {
    relief(Apply(rule.operation, hold.items[0]))
  }

  /** `monkeys.get(target)?.startingItems.push(worry)`: nothing happens when there is no such monkey. */
  function Push(t: Table, target: int, worry: int): (r: Table)
    requires |t.holds| == |t.order|
    ensures r.order == t.order && r.rules == t.rules && |r.holds| == |t.holds|
  {
    if target in t.order then
      var q := Slot(t.order, target);
      t.(holds := t.holds[q := t.holds[q].(items := t.holds[q].items + [worry])])
    else t
  }

  /**
   * One pass of the `while` of `processRound`, for the monkey at position
   * `p`: it takes its front item, the calmed level goes to the back of the
   * target's queue, and the monkey counts one more inspection.
   */
  function Throw(t: Table, p: nat, relief: int -> int): (r: Table)
    requires Ready(t) && p < |t.order| && |t.holds[p].items| > 0
    ensures r.order == t.order && r.rules == t.rules && |r.holds| == |t.holds|
    ensures |r.holds[p].items| == |t.holds[p].items| - 1
  {
    var rule, hold := t.rules[p], t.holds[p];
    var worry := Calmed(rule, hold, relief);
    var shifted := t.(holds := t.holds[p := hold.(items := hold.items[1..])]);
    var pushed := Push(shifted, Target(rule, worry), worry);
    pushed.(holds := pushed.holds[p := pushed.holds[p].(inspected := pushed.holds[p].inspected + 1)])
  }

  /** A monkey's turn: it throws until its queue is empty. */
  function Turn(t: Table, p: nat, relief: int -> int): (r: Table)
    requires Ready(t) && p < |t.order|
    ensures r.order == t.order && r.rules == t.rules && |r.holds| == |t.holds|
    ensures r.holds[p].items == []
    decreases |t.holds[p].items|
  {
    if |t.holds[p].items| == 0 then t
    else Turn(Throw(t, p, relief), p, relief)
  }

  /** The first `n` turns of a round, in the order of the keys. */
  function Turns(t: Table, relief: int -> int, n: nat): (r: Table)
    requires Ready(t) && n <= |t.order|
    ensures r.order == t.order && r.rules == t.rules && |r.holds| == |t.holds|
  {
    if n == 0 then t
    else Turn(Turns(t, relief, n - 1), n - 1, relief)
  }

  /** `processRound`: every monkey takes its turn, in the order of the map. */
  function Round(t: Table, relief: int -> int): (r: Table)
    requires Ready(t)
    ensures r.order == t.order && r.rules == t.rules && |r.holds| == |t.holds|
  {
    Turns(t, relief, |t.order|)
  }

  /** `runRounds`: `n` successive rounds. */
  function Rounds(t: Table, relief: int -> int, n: nat): (r: Table)
    requires Ready(t)
    ensures r.order == t.order && r.rules == t.rules && |r.holds| == |t.holds|
  {
    if n == 0 then t
    else Round(Rounds(t, relief, n - 1), relief)
  }

  // ---------------------------------------------------------------------
  // What a throw, a turn and a round do
  // ---------------------------------------------------------------------

  /**
   * A throw takes the front item of the monkey at `p` and counts one
   * inspection; the calmed level goes to the back of the queue of the
   * monkey the divisibility test picks, if it exists; no other monkey
   * changes.
   */
  lemma ThrowSpec(t: Table, p: nat, relief: int -> int)
    requires Ready(t) && p < |t.order| && |t.holds[p].items| > 0
    ensures var rule, hold := t.rules[p], t.holds[p];
      var worry := Calmed(rule, hold, relief);
      var target := Target(rule, worry);
      var r := Throw(t, p, relief);
      target != t.order[p] &&
      r.holds[p] == Hold(hold.items[1..], hold.inspected + 1) &&
      (target in t.order ==>
        var q := Slot(t.order, target);
        r.holds[q] == Hold(t.holds[q].items + [worry], t.holds[q].inspected)) &&
      forall k :: 0 <= k < |t.holds| && k != p && t.order[k] != target ==> r.holds[k] == t.holds[k]
  {
  }

  /** The queue lengths, in the order of the map. */
  function Counts(t: Table): (c: seq<int>)
    ensures |c| == |t.holds|
    ensures forall k :: 0 <= k < |t.holds| ==> c[k] == |t.holds[k].items|
  {
    seq(|t.holds|, k requires 0 <= k < |t.holds| => |t.holds[k].items|)
  }

  /** How many items the monkeys hold in all. */
  function Total(t: Table): int
  {
    Sum(Counts(t))
  }

  /** A throw keeps every item, unless it goes to a monkey that does not exist. */
  lemma ThrowConserves(t: Table, p: nat, relief: int -> int)
    requires Ready(t) && p < |t.order| && |t.holds[p].items| > 0
    ensures var target := Target(t.rules[p], Calmed(t.rules[p], t.holds[p], relief));
      Total(Throw(t, p, relief)) == Total(t) - (if target in t.order then 0 else 1)
  {
    var target := Target(t.rules[p], Calmed(t.rules[p], t.holds[p], relief));
    var r := Throw(t, p, relief);
    ThrowSpec(t, p, relief);
    var c := Counts(t);
    var shifted := c[p := c[p] - 1];
    SumUpdate(c, p, c[p] - 1);
    if target in t.order {
      var q := Slot(t.order, target);
      assert Counts(r) == shifted[q := c[q] + 1];
      SumUpdate(shifted, q, c[q] + 1);
    } else {
      assert Counts(r) == shifted;
    }
  }

  /** A turn empties the monkey's queue, counting one inspection per item it held. */
  lemma {:induction false} TurnInspects(t: Table, p: nat, relief: int -> int)
    requires Ready(t) && p < |t.order|
    ensures Turn(t, p, relief).holds[p].inspected == t.holds[p].inspected + |t.holds[p].items|
    decreases |t.holds[p].items|
  {
    if |t.holds[p].items| > 0 {
      ThrowSpec(t, p, relief);
      TurnInspects(Throw(t, p, relief), p, relief);
    }
  }

  lemma TurnsUnfold(t: Table, relief: int -> int, n: nat)
    requires Ready(t) && 0 < n <= |t.order|
    ensures Turns(t, relief, n) == Turn(Turns(t, relief, n - 1), n - 1, relief)
  {
  }

  lemma RoundsUnfold(t: Table, relief: int -> int, n: nat)
    requires Ready(t) && 0 < n
    ensures Rounds(t, relief, n) == Turns(Rounds(t, relief, n - 1), relief, |t.order|)
  {
  }

  lemma {:induction false} TurnConserves(t: Table, p: nat, relief: int -> int, u: Table)
    requires Ready(t) && Closed(t.order, t.rules) && p < |t.order| && u == Turn(t, p, relief)
    ensures Total(u) == Total(t)
    decreases |t.holds[p].items|
  {
    if |t.holds[p].items| > 0 {
      ThrowConserves(t, p, relief);
      TurnConserves(Throw(t, p, relief), p, relief, u);
    }
  }

  lemma {:induction false} TurnsConserve(t: Table, relief: int -> int, n: nat, u: Table)
    requires Ready(t) && Closed(t.order, t.rules) && n <= |t.order| && u == Turns(t, relief, n)
    ensures Total(u) == Total(t)
  {
    if n > 0 {
      var s := Turns(t, relief, n - 1);
      TurnsConserve(t, relief, n - 1, s);
      TurnsUnfold(t, relief, n);
      TurnConserves(s, n - 1, relief, u);
    }
  }

  /** When every target exists, rounds neither create nor lose items. */
  lemma {:induction false} RoundsConserve(t: Table, relief: int -> int, n: nat, u: Table)
    requires Ready(t) && Closed(t.order, t.rules) && u == Rounds(t, relief, n)
    ensures Total(u) == Total(t)
  {
    if n > 0 {
      var s := Rounds(t, relief, n - 1);
      RoundsConserve(t, relief, n - 1, s);
      RoundsUnfold(t, relief, n);
      TurnsConserve(s, relief, |s.order|, u);
    }
  }

  // ---------------------------------------------------------------------
  // The map as an object changed in place
  // ---------------------------------------------------------------------

  /**
   * The map `prepare` returns, which `processRound` changes in place: its
   * keys in insertion order, the rule of each monkey, which stays put, and
   * its hold, which the rounds update.
   */
  class Troop {
    var order: seq<int>
    var rules: seq<Rule>
    var holds: seq<Hold>

    function State(): Table
      reads this
    {
      Table(Roster(order, rules), holds)
    }

    constructor (t: Table)
      ensures State() == t
    {
      order := t.order;
      rules := t.rules;
      holds := t.holds;
    }

    /** The body of the `while` of `processRound`, for the monkey at position `p`. */
    method Inspect(p: nat, relief: int -> int)
      requires Ready(State()) && p < |order| && |holds[p].items| > 0
      modifies this
      ensures State() == Throw(old(State()), p, relief)
    {
      var monkey := holds[p];
      var worry := monkey.items[0];
      holds := holds[p := monkey.(items := monkey.items[1..])];
      worry := Apply(rules[p].operation, worry);
      worry := relief(worry);
      var target := if Divisible(worry, rules[p].testDivisor) then rules[p].trueMonkey else rules[p].falseMonkey;
      if target in order {
        var q := Slot(order, target);
        holds := holds[q := holds[q].(items := holds[q].items + [worry])];
      }
      holds := holds[p := holds[p].(inspected := holds[p].inspected + 1)];
    }

    /** The `while` of `processRound`: the monkey at position `p` empties its queue. */
    method TakeTurn(p: nat, relief: int -> int)
      requires Ready(State()) && p < |order|
      modifies this
      ensures State() == Turn(old(State()), p, relief)
    {
      ghost var start := State();
      while |holds[p].items| > 0
        invariant order == start.order && rules == start.rules && |holds| == |start.holds|
        invariant Turn(State(), p, relief) == Turn(start, p, relief)
        decreases |holds[p].items|
      {
        Inspect(p, relief);
      }
    }

    /** `processRound`: each monkey in map order empties its queue. */
    method ProcessRound(relief: int -> int)
      requires Ready(State())
      modifies this
      ensures State() == Round(old(State()), relief)
    {
      ghost var start := State();
      for k := 0 to |order|
        invariant State() == Turns(start, relief, k)
      {
        TakeTurn(k, relief);
      }
    }

    /** `runRounds`: `processRound` the given number of times. */
    method RunRounds(rounds: int, relief: int -> int)
      requires Ready(State())
      modifies this
      ensures State() == Rounds(old(State()), relief, if rounds < 0 then 0 else rounds)
    {
      ghost var start := State();
      for i := 0 to if rounds < 0 then 0 else rounds
        invariant State() == Rounds(start, relief, i)
      {
        ProcessRound(relief);
      }
    }
  }

  // ---------------------------------------------------------------------
  // Parsing the input
  // ---------------------------------------------------------------------

  /** `line.split(' ').slice(-1)[0]`: the last word of a line. */
  function LastWord(line: string): string
  {
    var words := Split(line, " ");
    words[|words| - 1]
  }

  /** `s.slice(0, -1)`: all but the last character. */
  function DropLast(s: string): string
  {
    if |s| == 0 then s else s[..|s| - 1]
  }

  /** The pieces of text `prepare` reads from one block, before `parseInt` sees them. */
  datatype Fields = Fields(
    idText: string,
    itemTexts: seq<string>,
    modifier: string,
    magnitude: string,
    divisorText: string,
    trueText: string,
    falseText: string)

  /**
   * The destructuring of one block: the id is the second word of the first
   * line without its colon, the items are the second line without its label
   * cut at each `", "`, the operation is the two words after `new = old`,
   * and the divisor and targets are the last words of lines four to six.
   * `None` when the block lacks a line or a word that `prepare` reads.
   */
  function Extract(block: string): Option<Fields>
  {
    var lines := Split(block, "\n");
    if |lines| < 6 then None
    else
      var idWords := Split(lines[0], " ");
      var opWords := Split(Trim(Replace(lines[2], "Operation: new = old ", "")), " ");
      if |idWords| < 2 || |opWords| < 2 then None
      else
        Some(Fields(
          DropLast(idWords[1]),
          Split(Replace(lines[1], "Starting items: ", ""), ", "),
          opWords[0], opWords[1],
          LastWord(lines[3]), LastWord(lines[4]), LastWord(lines[5])))
  }

  /** Every number `parseInt` reads is one, and the magnitude is `old` or a number. */
  predicate Numeric(f: Fields)
  {
    ParseInt(f.idText).Some? &&
    (forall x :: x in f.itemTexts ==> ParseInt(x).Some?) &&
    (f.magnitude == "old" || ParseInt(f.magnitude).Some?) &&
    ParseInt(f.divisorText).Some? && ParseInt(f.trueText).Some? && ParseInt(f.falseText).Some?
  }

  /**
   * What `parseInt` makes of one block's numbers.  The magnitude stays
   * text: `buildOperation` reads it.
   */
  datatype Reading = Reading(
    id: int,
    items: seq<int>,
    modifier: string,
    magnitude: string,
    divisor: int,
    trueId: int,
    falseId: int)

  /** The numbers of one block, each the value `parseInt` gives its text. */
  function Read(f: Fields): (r: Reading)
    requires Numeric(f)
    ensures ParseInt(f.idText) == Some(r.id)
    ensures |r.items| == |f.itemTexts| && forall i :: 0 <= i < |r.items| ==> ParseInt(f.itemTexts[i]) == Some(r.items[i])
    ensures r.modifier == f.modifier && r.magnitude == f.magnitude
    ensures ParseInt(f.divisorText) == Some(r.divisor)
    ensures ParseInt(f.trueText) == Some(r.trueId) && ParseInt(f.falseText) == Some(r.falseId)
  {
    var items := seq(|f.itemTexts|, i requires 0 <= i < |f.itemTexts| =>
      assert f.itemTexts[i] in f.itemTexts;
      ParseInt(f.itemTexts[i]).value);
    Reading(ParseInt(f.idText).value, items, f.modifier, f.magnitude,
      ParseInt(f.divisorText).value, ParseInt(f.trueText).value, ParseInt(f.falseText).value)
  }

  /** The magnitude is `old` or a number, as `buildOperation` needs. */
  predicate Operable(r: Reading)
  {
    r.magnitude == "old" || ParseInt(r.magnitude).Some?
  }


  /** The values of a list of results, or the first error among them. */
  function Collect<T>(rs: seq<Result<T>>): (r: Result<seq<T>>)
    ensures r.Ok? <==> forall k :: 0 <= k < |rs| ==> rs[k].Ok?
    ensures r.Ok? ==> |r.value| == |rs| && forall k :: 0 <= k < |rs| ==> rs[k] == Ok(r.value[k])
    ensures r.Error? ==> exists k :: (0 <= k < |rs| && rs[k] == Error(r.message) &&
      forall j :: 0 <= j < k ==> rs[j].Ok?)
  {
    if |rs| == 0 then Ok([])
    else
      match rs[0]
      case Error(e) => Error(e)
      case Ok(x) =>
        match Collect(rs[1..])
        case Error(e) =>
          var k :| 0 <= k < |rs| - 1 && rs[1..][k] == Error(e) && forall j :: 0 <= j < k ==> rs[1..][j].Ok?;
          assert rs[k + 1] == Error(e) && forall j :: 0 <= j < k + 1 ==> rs[j].Ok?;
          Error(e)
        case Ok(xs) => Ok([x] + xs)
  }

  /** The monkey a block describes, with nothing inspected yet. */
  function Fresh(r: Reading, op: Operation): Monkey
  {
    Monkey(r.items, op, r.divisor, r.trueId, r.falseId, 0)
  }

  /**
   * One block of `prepare`: its id and monkey, or the error `buildOperation`
   * throws for an unknown modifier.
   */
  function Entry(r: Reading): (e: Result<(int, Monkey)>)
    requires Operable(r)
    ensures e.Ok? <==> r.modifier in {"*", "/", "-", "+"}
    ensures e.Ok? ==> e.value == (r.id, Fresh(r, BuildOperation(r.modifier, r.magnitude).value))
    ensures e.Error? ==> BuildOperation(r.modifier, r.magnitude) == Error(e.message)
  {
    match BuildOperation(r.modifier, r.magnitude)
    case Error(e) => Error(e)
    case Ok(op) => Ok((r.id, Fresh(r, op)))
  }

  /**
   * The id and the monkey of each block, in order, or the error of the
   * first block whose modifier `buildOperation` does not know.
   */
  function Entries(rs: seq<Reading>): Result<seq<(int, Monkey)>>
    requires forall k :: 0 <= k < |rs| ==> Operable(rs[k])
  {
    Collect(seq(|rs|, k requires 0 <= k < |rs| => Entry(rs[k])))
  }

  /** The entries exist exactly when every block's entry does, and then are those entries. */
  lemma EntriesMeaning(rs: seq<Reading>)
    requires forall k :: 0 <= k < |rs| ==> Operable(rs[k])
    ensures Entries(rs).Ok? <==> forall k :: 0 <= k < |rs| ==> Entry(rs[k]).Ok?
    ensures Entries(rs).Ok? ==> (|Entries(rs).value| == |rs| &&
      forall k :: 0 <= k < |rs| ==> Entries(rs).value[k] == Entry(rs[k]).value)
  {
    var es := seq(|rs|, k requires 0 <= k < |rs| => Entry(rs[k]));
    assert forall k :: 0 <= k < |rs| ==> es[k] == Entry(rs[k]);
  }

  /** The ids of the entries, in order. */
  function Ids(entries: seq<(int, Monkey)>): (ids: seq<int>)
    ensures |ids| == |entries|
    ensures forall k :: 0 <= k < |entries| ==> ids[k] == entries[k].0
  {
    seq(|entries|, k requires 0 <= k < |entries| => entries[k].0)
  }

  /** No later entry names the same monkey as entry `k`. */
  ghost predicate Latest(entries: seq<(int, Monkey)>, k: nat)
    requires k < |entries|
  {
    forall j :: k < j < |entries| ==> entries[j].0 != entries[k].0
  }

  /**
   * The `forEach` of `prepare`: each entry sets its monkey under its id, a
   * later entry with an id already set replacing the monkey in its place.
   */
  function Load(entries: seq<(int, Monkey)>): (t: Table)
    ensures Shaped(t)
    ensures forall id :: id in t.order <==> id in Ids(entries)
    ensures (forall k :: 0 <= k < |entries| ==> entries[k].1.inspected == 0) ==>
      forall i :: 0 <= i < |t.holds| ==> t.holds[i].inspected == 0
  {
    if |entries| == 0 then Table(Roster([], []), [])
    else
      var front := entries[..|entries| - 1];
      var last := entries[|entries| - 1];
      assert Ids(entries) == Ids(front) + [last.0];
      Set(Load(front), last.0, last.1)
  }

  /** Under each id sits the monkey of the last entry that names it. */
  lemma {:induction false} LoadLatest(entries: seq<(int, Monkey)>, k: nat)
    requires k < |entries| && Latest(entries, k)
    ensures Get(Load(entries), entries[k].0) == Some(entries[k].1)
  {
    var n := |entries| - 1;
    var front := entries[..n];
    var t := Load(front);
    assert Load(entries) == Set(t, entries[n].0, entries[n].1);
    if k < n {
      assert front[k] == entries[k];
      assert Latest(front, k);
      LoadLatest(front, k);
      assert entries[k].0 != entries[n].0;
    }
  }

  /** The last entry that names `id`. */
  function LastIndex(entries: seq<(int, Monkey)>, id: int): (k: nat)
    requires id in Ids(entries)
    ensures k < |entries| && entries[k].0 == id && Latest(entries, k)
  {
    var n := |entries| - 1;
    if entries[n].0 == id then n
    else
      var front := entries[..n];
      assert Ids(entries) == Ids(front) + [entries[n].0];
      LastIndex(front, id)
  }

  /** Every block has the lines and words `prepare` reads, and its numbers are numbers. */
  ghost predicate Readable(input: string)
  {
    forall k :: 0 <= k < |Split(input, "\n\n")| ==>
      Extract(Split(input, "\n\n")[k]).Some? && Numeric(Extract(Split(input, "\n\n")[k]).value)
  }

  /** What `parseInt` reads of each block between blank lines. */
  function Blocks(input: string): (rs: seq<Reading>)
    requires Readable(input)
    ensures |rs| == |Split(input, "\n\n")| >= 1
    ensures forall k :: 0 <= k < |rs| ==> Operable(rs[k])
  {
    var blocks := Split(input, "\n\n");
    seq(|blocks|, k requires 0 <= k < |blocks| => ReadBlock(blocks[k]))
  }

  /** One block's numbers, read. */
  function ReadBlock(block: string): (r: Reading)
    requires Extract(block).Some? && Numeric(Extract(block).value)
    ensures Operable(r)
  {
    Read(Extract(block).value)
  }

  /**
   * The body of `prepare` once the blocks are read: the monkeys set in
   * order, each with nothing inspected yet, or the error of the first block
   * with an unknown modifier.
   */
  function Build(rs: seq<Reading>): (r: Result<Table>)
    requires forall k :: 0 <= k < |rs| ==> Operable(rs[k])
    ensures r.Ok? <==> forall k :: 0 <= k < |rs| ==> rs[k].modifier in {"*", "/", "-", "+"}
    ensures r.Ok? ==> Shaped(r.value) && (|r.value.order| == 0 <==> |rs| == 0)
    ensures r.Ok? ==> forall i :: 0 <= i < |r.value.holds| ==> r.value.holds[i].inspected == 0
  {
    EntriesMeaning(rs);
    match Entries(rs)
    case Error(e) => Error(e)
    case Ok(entries) =>
      assert |rs| > 0 ==> entries[0].0 in Ids(entries);
      Ok(Load(entries))
  }

  /**
   * What the blocks build: a key for each block's id and no other, and
   * under each key the monkey of the last block naming it.
   */
  lemma BuildMonkeys(rs: seq<Reading>)
    requires forall k :: 0 <= k < |rs| ==> Operable(rs[k])
    requires Build(rs).Ok?
    ensures forall id :: id in Build(rs).value.order <==> exists k :: 0 <= k < |rs| && rs[k].id == id
    ensures forall id :: id in Build(rs).value.order ==> exists k :: (0 <= k < |rs| && rs[k].id == id &&
      (forall j :: k < j < |rs| ==> rs[j].id != id) &&
      Get(Build(rs).value, id) == Some(Fresh(rs[k], BuildOperation(rs[k].modifier, rs[k].magnitude).value)))
  {
    EntriesMeaning(rs);
    var entries := Entries(rs).value;
    var t := Build(rs).value;
    assert t == Load(entries);
    forall id ensures id in t.order <==> exists k :: 0 <= k < |rs| && rs[k].id == id {
      if id in t.order {
        var k :| 0 <= k < |entries| && Ids(entries)[k] == id;
        assert rs[k].id == id;
      }
      if exists k :: 0 <= k < |rs| && rs[k].id == id {
        var k :| 0 <= k < |rs| && rs[k].id == id;
        assert Ids(entries)[k] == id;
      }
    }
    forall id | id in t.order
      ensures exists k :: (0 <= k < |rs| && rs[k].id == id &&
        (forall j :: k < j < |rs| ==> rs[j].id != id) &&
        Get(t, id) == Some(Fresh(rs[k], BuildOperation(rs[k].modifier, rs[k].magnitude).value)))
    {
      var k := LastIndex(entries, id);
      LoadLatest(entries, k);
      assert entries[k] == Entry(rs[k]).value;
      assert forall j :: k < j < |rs| ==> rs[j].id != id by {
        forall j | k < j < |rs| ensures rs[j].id != id {
          assert entries[j] == Entry(rs[j]).value;
        }
      }
    }
  }

  /** `prepare`: the blocks between blank lines, built into the map. */
  function Prepare(input: string): (r: Result<Table>)
    requires Readable(input)
    ensures r.Ok? <==> forall k :: 0 <= k < |Blocks(input)| ==> Blocks(input)[k].modifier in {"*", "/", "-", "+"}
    ensures r.Ok? ==> Shaped(r.value) && |r.value.order| >= 1
    ensures r.Ok? ==> forall i :: 0 <= i < |r.value.holds| ==> r.value.holds[i].inspected == 0
  {
    Build(Blocks(input))
  }

  /**
   * The blocks of the input are read by `parseInt` field by field: the
   * id is the number before the colon of the first line, the items are the
   * numbers of the second line, and the divisor and targets the last words
   * of lines four to six.
   */
  lemma BlocksRead(input: string, k: nat)
    requires Readable(input) && k < |Split(input, "\n\n")|
    ensures Extract(Split(input, "\n\n")[k]).Some?
    ensures var f := Extract(Split(input, "\n\n")[k]).value; var r := Blocks(input)[k];
      ParseInt(f.idText) == Some(r.id) && |r.items| == |f.itemTexts| &&
      (forall i :: 0 <= i < |r.items| ==> ParseInt(f.itemTexts[i]) == Some(r.items[i])) &&
      r.modifier == f.modifier && r.magnitude == f.magnitude &&
      ParseInt(f.divisorText) == Some(r.divisor) &&
      ParseInt(f.trueText) == Some(r.trueId) && ParseInt(f.falseText) == Some(r.falseId)
  {
  }

  // ---------------------------------------------------------------------
  // Greatest common divisor and least common multiple
  // ---------------------------------------------------------------------

  /** `d` divides `n` evenly. */
  predicate Divides(d: int, n: int)
    requires d > 0
  {
    n % d == 0
  }

  lemma MulAtLeast(d: int, e: int)
    requires d > 0 && e >= 1
    ensures d * e >= d
  {
  }

  function Abs(x: int): nat
  {
    if x < 0 then -x else x
  }

  /** Dividing an exact multiple `g * k` by `g`, of either sign, gives `k` back with nothing left over. */
  lemma DivExact(n: int, g: int, k: int)
    requires g != 0 && n == g * k
    ensures n / g == k && n % g == 0
  {
    var q, r := n / g, n % g;
    assert n == g * q + r && 0 <= r < Abs(g);
    assert g * (k - q) == r;
    if k - q >= 1 {
      if g > 0 { MulAtLeast(g, k - q); } else { MulAtLeast(-g, k - q); }
    } else if k - q <= -1 {
      if g > 0 { MulAtLeast(g, q - k); } else { MulAtLeast(-g, q - k); }
    }
  }

  /** The test `worry % d === 0` asks whether `|d|` divides the level. */
  lemma DivisibleAbs(x: int, d: int)
    requires d != 0
    ensures Divisible(x, d) <==> Divides(Abs(d), x)
  {
    var n := Abs(d);
    if x % n == 0 {
      DivExact(x, n, x / n);
      assert x == n * (x / n);
      if d < 0 {
        assert x == d * (-(x / n));
        DivExact(x, d, -(x / n));
      }
    }
    if x % d == 0 {
      assert x == d * (x / d);
      if d < 0 {
        assert x == n * (-(x / d));
        DivExact(x, n, -(x / d));
      }
    }
  }

  /** A multiple of `d`, divided by `d`, gives its factor back with nothing left over. */
  lemma DivMultiple(d: int, q: int)
    requires d > 0
    ensures (d * q) / d == q && (d * q) % d == 0
  {
    var k, r := (d * q) / d, (d * q) % d;
    assert d * q == d * k + r && 0 <= r < d;
    assert d * (q - k) == r;
    if q - k >= 1 {
      MulAtLeast(d, q - k);
    } else if q - k <= -1 {
      MulAtLeast(d, k - q);
    }
  }

  lemma MultipleDivides(d: int, q: int)
    requires d > 0
    ensures Divides(d, d * q)
  {
    DivMultiple(d, q);
  }

  /** A multiple of `d` plus another times any factor is again a multiple of `d`. */
  lemma DividesCombination(d: int, x: int, y: int, k: int)
    requires d > 0 && Divides(d, x) && Divides(d, y)
    ensures Divides(d, x + k * y)
  {
    var p, q := x / d, y / d;
    assert x == d * p && y == d * q;
    assert x + k * y == d * (p + k * q);
    MultipleDivides(d, p + k * q);
  }

  lemma DividesTransitive(d: int, n: int, m: int)
    requires d > 0 && n > 0 && Divides(d, n) && Divides(n, m)
    ensures Divides(d, m)
  {
    DividesCombination(d, 0, n, m / n);
    assert m == 0 + (m / n) * n;
  }

  /** A common divisor of `b` and `a % b` divides `a`. */
  lemma RemainderCombination(d: int, a: nat, b: nat)
    requires d > 0 && b > 0 && Divides(d, b) && Divides(d, a % b)
    ensures Divides(d, a)
  {
    var q := a / b;
    assert a == a % b + q * b;
    DividesCombination(d, a % b, b, q);
  }

  /** A common divisor of `a` and `b` divides `a % b`. */
  lemma CommonDividesRemainder(d: int, a: nat, b: nat)
    requires d > 0 && b > 0 && Divides(d, a) && Divides(d, b)
    ensures Divides(d, a % b)
  {
    var q := a / b;
    assert a % b == a + (-q) * b;
    DividesCombination(d, a, b, -q);
  }

  /**
   * Euclid's step: whatever `g` is to `b` and `a % b` (a common divisor that
   * every common divisor divides), it is to `a` and `b`.
   */
  lemma GcdStep(a: nat, b: nat, g: nat)
    requires b > 0
    requires g > 0 ==> Divides(g, b) && Divides(g, a % b)
    requires forall d :: d > 0 && Divides(d, b) && Divides(d, a % b) ==> Divides(d, g)
    ensures g > 0 ==> Divides(g, a)
    ensures forall d :: d > 0 && Divides(d, a) && Divides(d, b) ==> Divides(d, g)
  {
    if g > 0 {
      RemainderCombination(g, a, b);
    }
    forall d | d > 0 && Divides(d, a) && Divides(d, b) ensures Divides(d, g) {
      CommonDividesRemainder(d, a, b);
    }
  }

  /**
   * `gcd`: Euclid's algorithm on the naturals.  `gcd(a, 0)` is `a`; the
   * result divides both arguments and is divided by every common divisor.
   */
  function Gcd(a: nat, b: nat): (g: nat)
    ensures b == 0 ==> g == a
    ensures a > 0 || b > 0 ==> g > 0
    ensures g > 0 ==> Divides(g, a) && Divides(g, b)
    ensures forall d :: d > 0 && Divides(d, a) && Divides(d, b) ==> Divides(d, g)
    decreases b
  {
    if b == 0 then a
    else
      var g := Gcd(b, a % b);
      GcdStep(a, b, g);
      g
  }

  /**
   * `gcd` on JavaScript numbers: Euclid's algorithm with the remainder `%`
   * gives, which takes the sign of the dividend.  Up to its sign the result
   * is the greatest common divisor of the sizes of the arguments.
   */
  function JsGcd(a: int, b: int): (g: int)
    ensures Abs(g) == Gcd(Abs(a), Abs(b))
    ensures b == 0 ==> g == a
    decreases Abs(b)
  {
    if b == 0 then a else JsGcd(b, JsRem(a, b))
  }

  /** A quotient that comes out even has the quotient of the sizes as its size. */
  lemma ExactQuotient(n: int, g: int)
    requires g != 0 && Divides(Abs(g), Abs(n))
    ensures Abs(n / g) == Abs(n) / Abs(g) && n % g == 0
  {
    var q := Abs(n) / Abs(g);
    assert Abs(n) == Abs(g) * q;
    var k := if (n < 0) == (g < 0) then q else -q;
    assert n == g * k;
    DivExact(n, g, k);
  }

  /**
   * One step of `findLcm` on numbers of either sign: `x * y / gcd(x, y)`
   * is exact, and its size is a positive common multiple of `|x|` and `|y|`.
   */
  lemma JsLcmStep(x: int, y: int)
    requires x != 0 && y != 0
    ensures JsGcd(x, y) != 0
    ensures (x * y) / JsGcd(x, y) != 0
    ensures Divides(Abs(x), Abs((x * y) / JsGcd(x, y))) && Divides(Abs(y), Abs((x * y) / JsGcd(x, y)))
  {
    var g := JsGcd(x, y);
    LcmStep(Abs(x), Abs(y));
    AbsMul(x, y);
    GcdDividesProduct(Abs(x), Abs(y));
    ExactQuotient(x * y, g);
  }

  lemma AbsMul(x: int, y: int)
    ensures Abs(x * y) == Abs(x) * Abs(y)
  {
    if x < 0 && y < 0 {
      assert x * y == (-x) * (-y);
    } else if x < 0 {
      assert -(x * y) == (-x) * y;
    } else if y < 0 {
      assert -(x * y) == x * (-y);
    }
  }

  lemma GcdDividesProduct(x: nat, y: nat)
    requires x > 0
    ensures Gcd(x, y) > 0 && Divides(Gcd(x, y), x * y)
  {
    var g := Gcd(x, y);
    var p := x / g;
    assert x == g * p;
    assert x * y == g * (p * y);
    MultipleDivides(g, p * y);
  }

  /** One step of `findLcm`: `x * y / gcd(x, y)` is a positive common multiple of `x` and `y`. */
  lemma LcmStep(x: int, y: int)
    requires x > 0 && y > 0
    ensures (x * y) / Gcd(x, y) > 0
    ensures Divides(x, (x * y) / Gcd(x, y)) && Divides(y, (x * y) / Gcd(x, y))
  {
    var g := Gcd(x, y);
    var p, q := x / g, y / g;
    assert x == g * p && y == g * q;
    assert p > 0;
    assert x * y == g * (p * y);
    DivMultiple(g, p * y);
    assert p * y == x * q && p * y == y * p;
    MulAtLeast(y, p);
    MultipleDivides(x, q);
    MultipleDivides(y, p);
  }

  /**
   * `findLcm`: folds `x * ans / gcd(x, ans)` over the divisors, which are
   * not 0; the result is not 0, and its size is a multiple of the size of
   * every one of them.
   */
  method FindLcm(a: seq<int>) returns (ans: int)
    requires |a| >= 1 && forall k :: 0 <= k < |a| ==> a[k] != 0
    ensures ans != 0
    ensures forall k :: 0 <= k < |a| ==> Divides(Abs(a[k]), Abs(ans))
  {
    ans := a[0];
    var num := |a|;
    for i := 1 to num
      invariant ans != 0
      invariant forall k :: 0 <= k < i ==> Divides(Abs(a[k]), Abs(ans))
    {
      JsLcmStep(a[i], ans);
      var next := (a[i] * ans) / JsGcd(a[i], ans);
      forall k | 0 <= k < i ensures Divides(Abs(a[k]), Abs(next)) {
        DividesTransitive(Abs(a[k]), Abs(ans), Abs(next));
      }
      ans := next;
    }
  }

  // ---------------------------------------------------------------------
  // Relief, and why the remainder modulo the divisors' multiple is safe
  // ---------------------------------------------------------------------

  /** The relief of part 1, `Math.floor(worry / 3)`. */
  function Third(w: int): (r: int)
    ensures 3 * r <= w < 3 * r + 3
  {
    w / 3
  }

  /** Euclidean division has one quotient and one remainder. */
  lemma DivModUnique(x: int, m: int, q: int, r: int)
    requires m > 0 && x == m * q + r && 0 <= r < m
    ensures x / m == q && x % m == r
  {
    var k, s := x / m, x % m;
    assert m * (q - k) == s - r;
    if q - k >= 1 {
      MulAtLeast(m, q - k);
    } else if q - k <= -1 {
      MulAtLeast(m, k - q);
    }
  }

  /** Two levels leave the same remainder modulo `m` exactly when their difference is a multiple of `m`. */
  lemma SameRemainder(x: int, y: int, m: int)
    requires m > 0
    ensures x % m == y % m <==> Divides(m, x - y)
  {
    if x % m == y % m {
      assert x - y == m * (x / m - y / m);
      MultipleDivides(m, x / m - y / m);
    }
    if Divides(m, x - y) {
      var k := (x - y) / m;
      assert x - y == m * k;
      assert x == m * (y / m + k) + y % m;
      DivModUnique(x, m, y / m + k, y % m);
    }
  }

  /**
   * `w % m` on JavaScript numbers, for `m` other than 0: the remainder
   * takes the sign of the dividend, and its size is `|w|` modulo `|m|`.
   */
  function JsRem(w: int, m: int): (r: int)
    requires m != 0
    ensures Abs(r) < Abs(m)
    ensures w >= 0 ==> r >= 0
    ensures w <= 0 ==> r <= 0
    ensures Abs(r) == Abs(w) % Abs(m)
    ensures r % Abs(m) == w % Abs(m)
  {
    var n := Abs(m);
    if w >= 0 then
      DivModUnique(w % n, n, 0, w % n);
      w % n
    else
      var q := (-w) / n;
      assert -w == n * q + (-w) % n;
      assert -((-w) % n) - w == n * q;
      MultipleDivides(n, q);
      SameRemainder(-((-w) % n), w, n);
      -((-w) % n)
  }

  /** A relief that never changes a level's remainder modulo `m`. */
  ghost predicate Keeps(relief: int -> int, m: int)
    requires m > 0
  {
    forall w {:trigger relief(w)} :: relief(w) % m == w % m
  }

  /** Squares of levels that differ by a multiple of `m` differ by one too. */
  lemma SquareCongruent(m: int, x: int, y: int)
    requires m > 0 && Divides(m, x - y)
    ensures Divides(m, x * x - y * y)
  {
    DividesCombination(m, 0, x - y, x);
    var a := x * (x - y);
    DividesCombination(m, a, x - y, y);
    assert a + y * (x - y) == x * x - y * y;
  }

  /** So do their products with any factor. */
  lemma TimesCongruent(m: int, x: int, y: int, k: int)
    requires m > 0 && Divides(m, x - y)
    ensures Divides(m, x * k - y * k)
  {
    DividesCombination(m, 0, x - y, k);
    assert k * (x - y) == x * k - y * k;
  }

  /** An operation maps levels that differ by a multiple of `m` to levels that do too. */
  lemma ApplyDifference(op: Operation, x: int, y: int, m: int)
    requires Integral(op) && m > 0 && Divides(m, x - y)
    ensures Divides(m, Apply(op, x) - Apply(op, y))
  {
    match op
    case Square => SquareCongruent(m, x, y);
    case Double => DividesCombination(m, x - y, x - y, 1);
    case Times(k) => TimesCongruent(m, x, y, k);
    case Zero =>
    case One =>
    case Minus(k) =>
    case Plus(k) =>
  }

  /** Every operation that stays in the integers is a polynomial, so it keeps remainders apart no more than before. */
  lemma ApplyCongruent(op: Operation, x: int, y: int, m: int)
    requires Integral(op) && m > 0 && x % m == y % m
    ensures Apply(op, x) % m == Apply(op, y) % m
  {
    SameRemainder(x, y, m);
    ApplyDifference(op, x, y, m);
    SameRemainder(Apply(op, x), Apply(op, y), m);
  }

  /** A divisor of `m` cannot tell two levels with the same remainder modulo `m` apart. */
  lemma DivisibleCongruent(x: int, y: int, d: int, m: int)
    requires m > 0 && d != 0 && Divides(Abs(d), m) && x % m == y % m
    ensures Divisible(x, d) == Divisible(y, d)
  {
    var n := Abs(d);
    SameRemainder(x, y, m);
    DividesTransitive(n, m, x - y);
    DivisibleAbs(x, d);
    DivisibleAbs(y, d);
    if Divides(n, x) {
      DividesCombination(n, x, x - y, -1);
      assert x + (-1) * (x - y) == y;
    }
    if Divides(n, y) {
      DividesCombination(n, y, x - y, 1);
      assert y + 1 * (x - y) == x;
    }
  }

  /** The remainders modulo `m` of a queue. */
  function Residues(items: seq<int>, m: int): (rs: seq<int>)
    requires m > 0
    ensures |rs| == |items|
    ensures forall i :: 0 <= i < |items| ==> rs[i] == items[i] % m
  {
    seq(|items|, i requires 0 <= i < |items| => items[i] % m)
  }

  lemma ResiduesShift(x: seq<int>, y: seq<int>, m: int)
    requires m > 0 && |x| > 0 && Residues(x, m) == Residues(y, m)
    ensures x[0] % m == y[0] % m && Residues(x[1..], m) == Residues(y[1..], m)
  {
    assert Residues(x, m)[0] == Residues(y, m)[0];
    forall i | 0 <= i < |x| - 1 ensures Residues(x[1..], m)[i] == Residues(y[1..], m)[i] {
      assert Residues(x, m)[i + 1] == Residues(y, m)[i + 1];
    }
  }

  lemma ResiduesPush(x: seq<int>, y: seq<int>, v: int, w: int, m: int)
    requires m > 0 && Residues(x, m) == Residues(y, m) && v % m == w % m
    ensures Residues(x + [v], m) == Residues(y + [w], m)
  {
    forall i | 0 <= i <= |x| ensures Residues(x + [v], m)[i] == Residues(y + [w], m)[i] {
      if i < |x| {
        assert Residues(x, m)[i] == Residues(y, m)[i];
      }
    }
  }

  /** Each test divisor is not 0, and its size divides `m`. */
  ghost predicate Tests(rules: seq<Rule>, m: int)
    requires m > 0
  {
    forall p :: 0 <= p < |rules| ==> rules[p].testDivisor != 0 && Divides(Abs(rules[p].testDivisor), m)
  }

  /** What a mirror must match of a hold: the remainders of its items, and its count. */
  function Shadow(h: Hold, m: int): Hold
    requires m > 0
  {
    Hold(Residues(h.items, m), h.inspected)
  }

  function Summary(t: Table, m: int): (s: seq<Hold>)
    requires m > 0
    ensures |s| == |t.holds|
    ensures forall k :: 0 <= k < |t.holds| ==> s[k] == Shadow(t.holds[k], m)
  {
    seq(|t.holds|, k requires 0 <= k < |t.holds| => Shadow(t.holds[k], m))
  }

  /**
   * Two maps with the same keys and rules, the same counts, and queues that
   * agree item by item modulo `m`.
   */
  ghost predicate Mirrors(a: Table, b: Table, m: int)
    requires m > 0
  {
    a.order == b.order && a.rules == b.rules && Summary(a, m) == Summary(b, m)
  }

  /** What `Mirrors` says of the monkey at one position. */
  lemma MirrorsAt(a: Table, b: Table, m: int, k: nat)
    requires m > 0 && Mirrors(a, b, m) && k < |a.holds|
    ensures Residues(a.holds[k].items, m) == Residues(b.holds[k].items, m)
    ensures a.holds[k].inspected == b.holds[k].inspected
  {
    assert Summary(a, m)[k] == Summary(b, m)[k];
  }

  /** Mirrored maps throw mirrored items to the same monkey. */
  lemma ThrowMirrors(a: Table, b: Table, p: nat, f: int -> int, g: int -> int, m: int)
    requires m > 0 && Ready(a) && Ready(b) && Mirrors(a, b, m) && Tests(a.rules, m)
    requires Keeps(f, m) && Keeps(g, m)
    requires p < |a.order| && |a.holds[p].items| > 0
    ensures Mirrors(Throw(a, p, f), Throw(b, p, g), m)
  {
    var rule, x, y := a.rules[p], a.holds[p], b.holds[p];
    MirrorsAt(a, b, m, p);
    ResiduesShift(x.items, y.items, m);
    ApplyCongruent(rule.operation, x.items[0], y.items[0], m);
    var cx, cy := Calmed(rule, x, f), Calmed(rule, y, g);
    DivisibleCongruent(cx, cy, rule.testDivisor, m);
    var target := Target(rule, cx);
    assert target == Target(rule, cy);
    ThrowSpec(a, p, f);
    ThrowSpec(b, p, g);
    var ra, rb := Throw(a, p, f), Throw(b, p, g);
    forall k | 0 <= k < |ra.holds| ensures Summary(ra, m)[k] == Summary(rb, m)[k] {
      MirrorsAt(a, b, m, k);
      if k != p && a.order[k] == target {
        SlotAt(a.order, k);
        ResiduesPush(a.holds[k].items, b.holds[k].items, cx, cy, m);
      }
    }
  }

  lemma {:induction false} TurnMirrors(a: Table, b: Table, p: nat, f: int -> int, g: int -> int, m: int)
    requires m > 0 && Ready(a) && Ready(b) && Mirrors(a, b, m) && Tests(a.rules, m)
    requires Keeps(f, m) && Keeps(g, m) && p < |a.order|
    ensures Mirrors(Turn(a, p, f), Turn(b, p, g), m)
    decreases |a.holds[p].items|
  {
    MirrorsAt(a, b, m, p);
    if |a.holds[p].items| > 0 {
      ThrowMirrors(a, b, p, f, g, m);
      TurnMirrors(Throw(a, p, f), Throw(b, p, g), p, f, g, m);
    }
  }

  lemma {:induction false} TurnsMirror(a: Table, b: Table, f: int -> int, g: int -> int, m: int, n: nat)
    requires m > 0 && Ready(a) && Ready(b) && Mirrors(a, b, m) && Tests(a.rules, m)
    requires Keeps(f, m) && Keeps(g, m) && n <= |a.order|
    ensures Mirrors(Turns(a, f, n), Turns(b, g, n), m)
  {
    if n > 0 {
      TurnsMirror(a, b, f, g, m, n - 1);
      TurnMirrors(Turns(a, f, n - 1), Turns(b, g, n - 1), n - 1, f, g, m);
    }
  }

  /**
   * Rounds under two reliefs that keep every remainder modulo `m`, where
   * every test divisor divides `m`, keep two mirrored maps mirrored.
   */
  lemma {:induction false} RoundsMirror(a: Table, b: Table, f: int -> int, g: int -> int, m: int, n: nat)
    requires m > 0 && Ready(a) && Ready(b) && Mirrors(a, b, m) && Tests(a.rules, m)
    requires Keeps(f, m) && Keeps(g, m)
    ensures Mirrors(Rounds(a, f, n), Rounds(b, g, n), m)
  {
    if n > 0 {
      RoundsMirror(a, b, f, g, m, n - 1);
      var x := Rounds(a, f, n - 1);
      TurnsMirror(x, Rounds(b, g, n - 1), f, g, m, |x.order|);
    }
  }

  // ---------------------------------------------------------------------
  // The most active monkeys
  // ---------------------------------------------------------------------

  /** `Array.from(monkeys.values())`: the monkeys in the order of the map. */
  function Values(t: Table): (ms: seq<Monkey>)
    requires Shaped(t)
    ensures |ms| == |t.order|
    ensures forall k :: 0 <= k < |ms| ==> ms[k] == Assemble(t.rules[k], t.holds[k])
  {
    seq(|t.order|, k requires 0 <= k < |t.order| => Assemble(t.rules[k], t.holds[k]))
  }

  function Inspected(m: Monkey): int
  {
    m.inspected
  }

  /** The inspection counts in the order of the map. */
  function Activity(t: Table): (counts: seq<int>)
    requires Shaped(t)
    ensures |counts| == |t.order|
    ensures forall k :: 0 <= k < |t.order| ==> counts[k] == t.holds[k].inspected
  {
    Keys(Values(t), Inspected)
  }

  /**
   * `getMostActive(n)`: for `n >= 1`, the `n` monkeys with the largest
   * counts (all of them when there are fewer), in ascending order of count;
   * no monkey left out has inspected more than one returned.
   */
  function GetMostActive(n: int, t: Table): (r: seq<Monkey>)
    requires Shaped(t)
    ensures n >= 1 ==> |r| == if n < |t.order| then n else |t.order|
    ensures forall i, j :: 0 <= i < j < |r| ==> r[i].inspected <= r[j].inspected
    ensures multiset(r) <= multiset(Values(t))
    ensures |r| > 0 ==> forall y :: y in multiset(Values(t)) - multiset(r) ==> y.inspected <= r[0].inspected
  {
    var r := TopBy(Values(t), n, Inspected);
    assert SortedBy(r, Inspected);
    r
  }

  /** `mostActive.reduce((a, b) => a * b.inspected, 1)`. */
  function Product(ms: seq<Monkey>): int
  {
    if |ms| == 0 then 1 else Product(ms[..|ms| - 1]) * ms[|ms| - 1].inspected
  }

  /** `m1` and `m2` are two of the map's monkeys, and no other monkey has inspected more than either. */
  ghost predicate TopPair(t: Table, m1: Monkey, m2: Monkey)
    requires Shaped(t)
  {
    && multiset{m1, m2} <= multiset(Values(t))
    && forall y :: y in multiset(Values(t)) - multiset{m1, m2} ==> y.inspected <= m1.inspected && y.inspected <= m2.inspected
  }

  /**
   * The answer of either part: the product of the two largest counts (the
   * one count when there is a single monkey).
   */
  function Business(t: Table): (b: int)
    requires Shaped(t)
    ensures |t.order| == 1 ==> b == t.holds[0].inspected
    ensures |t.order| >= 2 ==> exists m1, m2 :: TopPair(t, m1, m2) && b == m1.inspected * m2.inspected
  {
    var top := GetMostActive(2, t);
    if |top| == 2 then
      PairProduct(t, top);
      Product(top)
    else
      if |top| == 1 then
        SingleProduct(t, top);
        Product(top)
      else Product(top)
  }

  /** Two monkeys drawn from the map that no other outdoes multiply to the product of their counts. */
  lemma PairProduct(t: Table, top: seq<Monkey>)
    requires Shaped(t) && |top| == 2 && multiset(top) <= multiset(Values(t))
    requires top[0].inspected <= top[1].inspected
    requires forall y :: y in multiset(Values(t)) - multiset(top) ==> y.inspected <= top[0].inspected
    ensures TopPair(t, top[0], top[1]) && Product(top) == top[0].inspected * top[1].inspected
  {
    assert multiset(top) == multiset{top[0], top[1]} by {
      assert top == [top[0], top[1]];
    }
    var front := top[..1];
    assert front[..0] == [];
    assert Product(front) == top[0].inspected by {
      assert Product(front) == Product(front[..0]) * front[0].inspected;
    }
    assert Product(top) == Product(front) * top[1].inspected;
  }

  /** A map of one monkey: the product is that monkey's count. */
  lemma SingleProduct(t: Table, top: seq<Monkey>)
    requires Shaped(t) && |t.order| == 1 && |top| == 1 && multiset(top) <= multiset(Values(t))
    ensures Product(top) == t.holds[0].inspected
  {
    assert top[..0] == [];
    assert top[0] in multiset(Values(t));
    assert Values(t) == [Assemble(t.rules[0], t.holds[0])];
  }

  /** The product depends on the counts alone. */
  lemma {:induction false} ProductKeys(a: seq<Monkey>, b: seq<Monkey>)
    requires Keys(a, Inspected) == Keys(b, Inspected)
    ensures Product(a) == Product(b)
  {
    if |a| > 0 {
      var n := |a| - 1;
      assert Keys(a[..n], Inspected) == Keys(b[..n], Inspected) by {
        forall i | 0 <= i < n ensures Keys(a[..n], Inspected)[i] == Keys(b[..n], Inspected)[i] {
          assert Keys(a, Inspected)[i] == Keys(b, Inspected)[i];
        }
      }
      ProductKeys(a[..n], b[..n]);
      assert Keys(a, Inspected)[n] == Keys(b, Inspected)[n];
    }
  }

  /** Maps with the same counts in the same order have the same most active monkeys' product. */
  lemma ActivityBusiness(a: Table, b: Table)
    requires Shaped(a) && Shaped(b) && Activity(a) == Activity(b)
    ensures Business(a) == Business(b)
  {
    TopByKeys(Values(a), Values(b), 2, Inspected);
    ProductKeys(GetMostActive(2, a), GetMostActive(2, b));
  }

  /** Mirrored maps have the same counts. */
  lemma MirrorsActivity(a: Table, b: Table, m: int)
    requires m > 0 && Shaped(a) && Shaped(b) && Mirrors(a, b, m)
    ensures Activity(a) == Activity(b)
  {
    forall k | 0 <= k < |a.order| ensures Activity(a)[k] == Activity(b)[k] {
      MirrorsAt(a, b, m, k);
    }
  }

  function Exact(w: int): int
  {
    w
  }

  /**
   * A relief that keeps every remainder modulo a positive common multiple of
   * the test divisors, such as `w % lcm`, changes no test, so after any
   * number of rounds every count, and the answer, is the one unreduced
   * arithmetic gives.
   */
  lemma RemainderKeepsCounts(t: Table, m: int, reduce: int -> int, n: nat)
    requires Ready(t) && m > 0 && Tests(t.rules, m) && Keeps(reduce, m)
    ensures Activity(Rounds(t, Exact, n)) == Activity(Rounds(t, reduce, n))
    ensures Business(Rounds(t, Exact, n)) == Business(Rounds(t, reduce, n))
  {
    RoundsMirror(t, t, Exact, reduce, m, n);
    var x, y := Rounds(t, Exact, n), Rounds(t, reduce, n);
    MirrorsActivity(x, y, m);
    ActivityBusiness(x, y);
  }


  /** The test divisors, in the order of the map. */
  function Divisors(t: Table): (ds: seq<int>)
    ensures |ds| == |t.rules|
    ensures forall k :: 0 <= k < |t.rules| ==> ds[k] == t.rules[k].testDivisor
  {
    seq(|t.rules|, k requires 0 <= k < |t.rules| => t.rules[k].testDivisor)
  }

  /** A fresh troop for the map runs `rounds` rounds; the product of its two largest counts. */
  method Simulate(t: Table, rounds: nat, relief: int -> int) returns (business: int)
    requires Ready(t)
    ensures business == Business(Rounds(t, relief, rounds))
  {
    var monkeys := new Troop(t);
    monkeys.RunRounds(rounds, relief);
    business := Product(GetMostActive(2, monkeys.State()));
  }

  /** No test divisor is 0. */
  predicate NonZero(ds: seq<int>)
  {
    forall k :: 0 <= k < |ds| ==> ds[k] != 0
  }

  /**
   * 10000 rounds with every level replaced by its remainder modulo `lcm`,
   * whose size is a common multiple of the divisors' sizes: the product is
   * the one 10000 rounds without relief give.
   */
  method SimulateReduced(t: Table, lcm: int) returns (business: int)
    requires Ready(t) && lcm != 0 && Tests(t.rules, Abs(lcm))
    ensures business == Business(Rounds(t, Exact, 10000))
  {
    var m := Abs(lcm);
    var reduce := w => JsRem(w, lcm);
    assert Keeps(reduce, m) by {
      forall w ensures reduce(w) % m == w % m {
        var r := JsRem(w, lcm);
      }
    }
    business := Simulate(t, 10000, reduce);
    RemainderKeepsCounts(t, m, reduce, 10000);
  }

  /**
   * The two answers for a map that has been read: the business after 20
   * rounds with relief, and after 10000 rounds without, computed modulo
   * `findLcm` of the divisors (which starts from the first one, so the map
   * is not empty).  The second is given when no divisor is 0.
   */
  method Solve(t: Table) returns (part1: int, part2: Option<int>)
    requires Ready(t) && |t.order| >= 1
    ensures part1 == Business(Rounds(t, Third, 20))
    ensures part2.Some? <==> NonZero(Divisors(t))
    ensures part2.Some? ==> part2.value == Business(Rounds(t, Exact, 10000))
  {
    part1 := Simulate(t, 20, Third);
    part2 := SimulateLong(t);
  }

  /**
   * The second answer: 10000 rounds with the levels kept modulo `findLcm`
   * of the divisors, given when no divisor is 0.
   */
  method SimulateLong(t: Table) returns (business: Option<int>)
    requires Ready(t) && |t.order| >= 1
    ensures business.Some? <==> NonZero(Divisors(t))
    ensures business.Some? ==> business.value == Business(Rounds(t, Exact, 10000))
  {
    var ds := Divisors(t);
    if !NonZero(ds) {
      return None;
    }
    var lcm := FindLcm(ds);
    var part2 := SimulateReduced(t, lcm);
    return Some(part2);
  }

  /**
   * `answers`: the map `prepare` reads from the input, and the two answers
   * for it; a parse error is passed on.  The second answer reduces the
   * levels modulo `findLcm` of the divisors, and still equals the product
   * that 10000 unreduced rounds would give; it is given when no divisor
   * is 0.
   */
  method Answers(input: string) returns (r: Result<(int, Option<int>)>)
    requires Readable(input)
    requires Prepare(input).Ok? ==> Ready(Prepare(input).value)
    ensures r.Ok? <==> Prepare(input).Ok?
    ensures r.Ok? ==> r.value.0 == Business(Rounds(Prepare(input).value, Third, 20))
    ensures r.Ok? ==> (r.value.1.Some? <==> NonZero(Divisors(Prepare(input).value)))
    ensures r.Ok? && r.value.1.Some? ==> r.value.1.value == Business(Rounds(Prepare(input).value, Exact, 10000))
  {
    var prepared := Prepare(input);
    if prepared.Error? {
      return Error(prepared.message);
    }
    var part1, part2 := Solve(prepared.value);
    return Ok((part1, part2));
  }
}
