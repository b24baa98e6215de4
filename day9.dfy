/**
 * Day 9, rope bridge.  Each input line moves the head of a rope of knots
 * some steps up, down, left or right; after every single step each knot
 * follows the one before it, and the positions of the last knot are
 * collected (in first-visit order, each once).  The rope is a chain of
 * `Knot` objects linked through `nextKnot` whose coordinates are changed in
 * place; the functions `Tick` and `Run` give the positions it must reach.
 */
module Day9 {
  import opened Text
  import opened Lists

  datatype Point = Point(x: int, y: int)

  /** A parsed line: the direction letter as written, and `parseInt` of the distance (`None` for `NaN`). */
  datatype Vector = Vector(direction: string, distance: Option<int>)

  function Abs(n: int): nat
  {
    if n < 0 then -n else n
  }

  /** `b` touches `a`: at most one apart on each axis. */
  predicate Near(a: Point, b: Point)
  {
    Abs(a.x - b.x) <= 1 && Abs(a.y - b.y) <= 1
  }

  // ---------------------------------------------------------------------
  // Parsing
  // ---------------------------------------------------------------------

  /** `const [d, distance] = dir.split(' ')`: a missing distance is `undefined`, which parses to `NaN`. */
  function ParseVector(line: string): Vector
  {
    var parts := Split(line, " ");
    Vector(parts[0], if |parts| > 1 then ParseInt(parts[1]) else None)
  }

  /** `prepare`: one vector per line of the trimmed input. */
  function Prepare(input: string): (vs: seq<Vector>)
    ensures |vs| == |Split(Trim(input), "\n")|
    ensures forall i :: 0 <= i < |vs| ==> vs[i] == ParseVector(Split(Trim(input), "\n")[i])
  {
    var lines := Split(Trim(input), "\n");
    seq(|lines|, i requires 0 <= i < |lines| => ParseVector(lines[i]))
  }

  /** A line `D n` reads as direction `D` and distance `n`. */
  lemma ParseLine(d: string, n: nat)
    requires forall i :: 0 <= i < |d| ==> d[i] != ' '
    ensures ParseVector(d + " " + Decimal(n)) == Vector(d, Some(n))
  {
    var num := Decimal(n);
    SeparableByChar(d, ' ');
    forall i | 0 <= i < |num| ensures num[i] != ' ' {
      assert IsDigit(num[i]);
    }
    SeparableByChar(num, ' ');
    assert Join([d, num], " ") == d + " " + num by {
      assert [d, num][1..] == [num];
    }
    SplitJoin([d, num], " ");
    ParseDecimal(n);
  }

  // ---------------------------------------------------------------------
  // The motion, as values
  // ---------------------------------------------------------------------

  /** The `switch` on the direction: an unknown letter leaves the previous step in place. */
  function Heading(direction: string, change: Point): Point
  {
    if direction == "U" then Point(0, 1)
    else if direction == "D" then Point(0, -1)
    else if direction == "L" then Point(-1, 0)
    else if direction == "R" then Point(1, 0)
    else change
  }

  /** How many times `for (let i = 0; i < distance; i++)` runs; a comparison with `NaN` is false. */
  function Steps(distance: Option<int>): nat
  {
    if distance.Some? && distance.value > 0 then distance.value else 0
  }

  /**
   * Where a knot at `tail` goes once the knot before it is at `lead`: the
   * branches of the `if` chain, in order.  The follower moves at most one on
   * each axis; it moves diagonally only when it is off both axes of its
   * leader and more than two steps away; it stays put while touching; and if
   * it was at most two away on each axis it ends up touching.
   */
  function Follow(lead: Point, tail: Point): (next: Point)
    ensures Near(tail, next)
    ensures next.x != tail.x && next.y != tail.y ==>
      lead.x != tail.x && lead.y != tail.y && Abs(lead.x - tail.x) + Abs(lead.y - tail.y) > 2
    ensures Near(lead, tail) ==> next == tail
    ensures Abs(lead.x - tail.x) <= 2 && Abs(lead.y - tail.y) <= 2 ==> Near(lead, next)
  {
    var dx, dy := lead.x - tail.x, lead.y - tail.y;
    if dx >= 1 && dy >= 1 && dx + dy > 2 then Point(tail.x + 1, tail.y + 1)
    else if dx <= -1 && dy >= 1 && -dx + dy > 2 then Point(tail.x - 1, tail.y + 1)
    else if dx >= 1 && dy <= -1 && dx + -dy > 2 then Point(tail.x + 1, tail.y - 1)
    else if dx <= -1 && dy <= -1 && dx + dy < -2 then Point(tail.x - 1, tail.y - 1)
    else if dx > 1 then Point(tail.x + 1, tail.y)
    else if dx < -1 then Point(tail.x - 1, tail.y)
    else if dy > 1 then Point(tail.x, tail.y + 1)
    else if dy < -1 then Point(tail.x, tail.y - 1)
    else tail
  }

  /** The knots after the head moves by `change`, each following the one before. */
  function Dragged(knots: seq<Point>, change: Point): (r: seq<Point>)
    requires |knots| > 0
    ensures |r| == |knots|
    ensures r[0] == Point(knots[0].x + change.x, knots[0].y + change.y)
    ensures forall m :: 0 < m < |r| ==> r[m] == Follow(r[m - 1], knots[m])
  {
    if |knots| == 1 then [Point(knots[0].x + change.x, knots[0].y + change.y)]
    else
      var init := Dragged(knots[..|knots| - 1], change);
      init + [Follow(init[|init| - 1], knots[|knots| - 1])]
  }

  /** `visited.add(p)` on a set kept in insertion order. */
  function Add(visited: seq<Point>, p: Point): (r: seq<Point>)
    ensures p in r && forall q :: q in visited ==> q in r
    ensures forall q :: q in r ==> q in visited || q == p
    ensures |visited| <= |r| && r[..|visited|] == visited
  {
    if p in visited then visited else visited + [p]
  }

  /** Adding to a list without repeats makes none. */
  lemma AddDistinct(visited: seq<Point>, p: Point)
    requires NoDuplicates(visited)
    ensures NoDuplicates(Add(visited, p))
  {
    if p !in visited {
      var r := visited + [p];
      forall k, l | 0 <= k < l < |r| ensures r[k] != r[l] {
        if l == |visited| {
          assert r[k] == visited[k];
        }
      }
    }
  }

  /** What the simulation carries from step to step: the knots, the current step and the visited positions. */
  datatype Rope = Rope(knots: seq<Point>, change: Point, visited: seq<Point>)

  /** One step of the head; a rope of two or more knots records where its last knot is. */
  function Tick(st: Rope): (r: Rope)
    requires |st.knots| > 0
    ensures |r.knots| == |st.knots| && r.change == st.change
  {
    var knots := Dragged(st.knots, st.change);
    Rope(knots, st.change, if |knots| > 1 then Add(st.visited, knots[|knots| - 1]) else st.visited)
  }

  function Ticks(st: Rope, n: nat): (r: Rope)
    requires |st.knots| > 0
    ensures |r.knots| == |st.knots| && r.change == st.change
  {
    if n == 0 then st else Tick(Ticks(st, n - 1))
  }

  /** One vector: set the step from its direction, then step `distance` times. */
  function Move(st: Rope, v: Vector): (r: Rope)
    requires |st.knots| > 0
    ensures |r.knots| == |st.knots|
  {
    Ticks(st.(change := Heading(v.direction, st.change)), Steps(v.distance))
  }

  function Run(st: Rope, vs: seq<Vector>): (r: Rope)
    requires |st.knots| > 0
    ensures |r.knots| == |st.knots|
  {
    if |vs| == 0 then st else Move(Run(st, vs[..|vs| - 1]), vs[|vs| - 1])
  }

  /** The state `runSimulation` starts from: no step yet, the head's position visited. */
  function Begin(knots: seq<Point>): Rope
    requires |knots| > 0
  {
    Rope(knots, Point(0, 0), [knots[0]])
  }

  // ---------------------------------------------------------------------
  // Properties of the motion
  // ---------------------------------------------------------------------

  /** Every knot touches the one before it. */
  predicate Taut(knots: seq<Point>)
  {
    forall m :: 0 < m < |knots| ==> Near(knots[m - 1], knots[m])
  }

  /** A step of at most one on each axis. */
  predicate Unit(change: Point)
  {
    Abs(change.x) <= 1 && Abs(change.y) <= 1
  }

  /** Dragging a taut rope by a unit step leaves it taut, and no knot moves more than one on an axis. */
  lemma {:induction false} DraggedTaut(knots: seq<Point>, change: Point)
    requires |knots| > 0 && Taut(knots) && Unit(change)
    ensures Taut(Dragged(knots, change))
    ensures forall m :: 0 <= m < |knots| ==> Near(knots[m], Dragged(knots, change)[m])
    decreases |knots|
  {
    if |knots| > 1 {
      var n := |knots|;
      var prefix := knots[..n - 1];
      var init := Dragged(prefix, change);
      DraggedTaut(prefix, change);
      var r := Dragged(knots, change);
      assert r == init + [Follow(init[n - 2], knots[n - 1])];
      assert Near(prefix[n - 2], init[n - 2]);
      assert Near(knots[n - 2], knots[n - 1]);
      forall m | 0 < m < n ensures Near(r[m - 1], r[m]) {
        if m < n - 1 {
          assert r[m - 1] == init[m - 1] && r[m] == init[m];
        }
      }
      forall m | 0 <= m < n ensures Near(knots[m], r[m]) {
        if m < n - 1 {
          assert knots[m] == prefix[m] && r[m] == init[m];
        }
      }
    }
  }

  lemma MoveTicks(st: Rope, v: Vector, i: nat)
    requires |st.knots| > 0
    requires !(v.distance.Some? && i < v.distance.value) && i <= Steps(v.distance)
    ensures Move(st, v) == Ticks(st.(change := Heading(v.direction, st.change)), i)
  {
  }

  /** The step `runSimulation` uses is always a unit step. */
  lemma HeadingUnit(direction: string, change: Point)
    requires Unit(change)
    ensures Unit(Heading(direction, change))
  {
  }

  /** Stepping keeps the rope taut. */
  lemma {:induction false} TicksTaut(st: Rope, n: nat)
    requires |st.knots| > 0 && Taut(st.knots) && Unit(st.change)
    ensures Taut(Ticks(st, n).knots)
    decreases n
  {
    if n > 0 {
      TicksTaut(st, n - 1);
      TickTaut(st, n);
    }
  }

  /** One more step keeps the rope taut. */
  lemma TickTaut(st: Rope, n: nat)
    requires |st.knots| > 0 && 0 < n && Taut(Ticks(st, n - 1).knots) && Unit(st.change)
    ensures Taut(Ticks(st, n).knots)
  {
    DraggedTaut(Ticks(st, n - 1).knots, st.change);
  }

  /** A rope that starts taut stays taut through the whole simulation. */
  lemma {:induction false} RunTaut(st: Rope, vs: seq<Vector>)
    requires |st.knots| > 0 && Taut(st.knots) && Unit(st.change)
    ensures Taut(Run(st, vs).knots) && Unit(Run(st, vs).change)
    decreases |vs|
  {
    if |vs| > 0 {
      var before := Run(st, vs[..|vs| - 1]);
      RunTaut(st, vs[..|vs| - 1]);
      HeadingUnit(vs[|vs| - 1].direction, before.change);
      TicksTaut(before.(change := Heading(vs[|vs| - 1].direction, before.change)), Steps(vs[|vs| - 1].distance));
    }
  }

  /** The head moves `n` times by the step: U is +y, D is -y, L is -x, R is +x. */
  lemma {:induction false} TicksHead(st: Rope, n: nat)
    requires |st.knots| > 0
    ensures Ticks(st, n).knots[0] == Point(st.knots[0].x + n * st.change.x, st.knots[0].y + n * st.change.y)
    decreases n
  {
    if n > 0 {
      TicksHead(st, n - 1);
    }
  }

  /** A vector with distance `n >= 0` moves the head `n` times by its step. */
  lemma MoveHead(st: Rope, v: Vector, n: nat)
    requires |st.knots| > 0 && v.distance == Some(n)
    ensures Move(st, v).knots[0] == Point(st.knots[0].x + n * Heading(v.direction, st.change).x,
                                          st.knots[0].y + n * Heading(v.direction, st.change).y)
  {
    var h := Heading(v.direction, st.change);
    assert Move(st, v) == Ticks(st.(change := h), n);
    TicksHead(st.(change := h), n);
  }

  /** A vector `U n`, `D n`, `L n` or `R n` with `n >= 0` moves the head `n` places that way. */
  lemma MoveDirection(st: Rope, v: Vector, n: nat)
    requires |st.knots| > 0 && v.distance == Some(n)
    ensures v.direction == "U" ==> Move(st, v).knots[0] == Point(st.knots[0].x, st.knots[0].y + n)
    ensures v.direction == "D" ==> Move(st, v).knots[0] == Point(st.knots[0].x, st.knots[0].y - n)
    ensures v.direction == "L" ==> Move(st, v).knots[0] == Point(st.knots[0].x - n, st.knots[0].y)
    ensures v.direction == "R" ==> Move(st, v).knots[0] == Point(st.knots[0].x + n, st.knots[0].y)
  {
    MoveHead(st, v, n);
    var h := Heading(v.direction, st.change);
    assert v.direction == "U" ==> h == Point(0, 1) && n * h.x == 0 && n * h.y == n;
    assert v.direction == "D" ==> h == Point(0, -1) && n * h.x == 0 && n * h.y == -(n as int);
    assert v.direction == "L" ==> h == Point(-1, 0) && n * h.x == -(n as int) && n * h.y == 0;
    assert v.direction == "R" ==> h == Point(1, 0) && n * h.x == n && n * h.y == 0;
  }

  /** The visited list only grows at its end, keeps each position once, and grows not at all for a single knot. */
  predicate Grows(before: seq<Point>, after: seq<Point>)
  {
    |before| <= |after| && after[..|before|] == before && (NoDuplicates(before) ==> NoDuplicates(after))
  }

  lemma {:induction false} TicksVisited(st: Rope, n: nat)
    requires |st.knots| > 0
    ensures Grows(st.visited, Ticks(st, n).visited)
    ensures |st.knots| == 1 ==> Ticks(st, n).visited == st.visited
    ensures n > 0 && |st.knots| > 1 ==> Ticks(st, n).knots[|st.knots| - 1] in Ticks(st, n).visited
    decreases n
  {
    if n > 0 {
      TicksVisited(st, n - 1);
      var mid := Ticks(st, n - 1).visited;
      var last := Ticks(st, n).visited;
      if |st.knots| > 1 && NoDuplicates(mid) {
        AddDistinct(mid, Ticks(st, n).knots[|st.knots| - 1]);
      }
      assert last[..|mid|] == mid;
      assert last[..|st.visited|] == mid[..|st.visited|];
    }
  }

  /**
   * The positions collected by a whole simulation: the first is where the
   * head started, none repeats, and a one-knot rope collects nothing else.
   */
  lemma {:induction false} RunVisited(knots: seq<Point>, vs: seq<Vector>)
    requires |knots| > 0
    ensures Grows(Begin(knots).visited, Run(Begin(knots), vs).visited)
    ensures Run(Begin(knots), vs).visited[0] == knots[0]
    ensures NoDuplicates(Run(Begin(knots), vs).visited)
    ensures |knots| == 1 ==> Run(Begin(knots), vs).visited == [knots[0]]
    decreases |vs|
  {
    if |vs| > 0 {
      var st := Run(Begin(knots), vs[..|vs| - 1]);
      RunVisited(knots, vs[..|vs| - 1]);
      var v := vs[|vs| - 1];
      TicksVisited(st.(change := Heading(v.direction, st.change)), Steps(v.distance));
      var after := Run(Begin(knots), vs).visited;
      assert after[..|st.visited|][..1] == after[..1];
    }
  }

  // ---------------------------------------------------------------------
  // The rope as linked objects
  // ---------------------------------------------------------------------

  class Knot {
    var x: int
    var y: int
    var nextKnot: Knot?

    /** `{ x: 0, y: 0 }` */
    constructor ()
      ensures x == 0 && y == 0 && nextKnot == null
    {
      x, y, nextKnot := 0, 0, null;
    }
  }

  /** `chain` lists the distinct knots reached from `head` through `nextKnot`, the last one's link empty. */
  ghost predicate Chain(head: Knot, chain: seq<Knot>)
    reads chain
  {
    |chain| > 0 && chain[0] == head &&
    (forall m :: 0 <= m < |chain| - 1 ==> chain[m].nextKnot == chain[m + 1] && chain[m].nextKnot != null) &&
    chain[|chain| - 1].nextKnot == null &&
    (forall a, b :: 0 <= a < b < |chain| ==> chain[a] != chain[b])
  }

  /** Only the last knot of a chain has no next knot. */
  lemma ChainEnd(head: Knot, chain: seq<Knot>, k: nat)
    requires Chain(head, chain) && k < |chain| && chain[k].nextKnot == null
    ensures k == |chain| - 1
  {
  }

  /** The knots of `chain` stand at `points`. */
  ghost predicate At(chain: seq<Knot>, points: seq<Point>)
    reads chain
  {
    |points| == |chain| && forall m :: 0 <= m < |chain| ==> points[m] == Point(chain[m].x, chain[m].y)
  }

  /** `buildRope(length)`: a chain of `length` new knots (one at least), all at the origin. */
  method BuildRope(length: int) returns (head: Knot, ghost chain: seq<Knot>)
    ensures Chain(head, chain) && |chain| == (if length > 1 then length else 1)
    ensures At(chain, seq(|chain|, _ => Point(0, 0)))
    ensures forall m :: 0 <= m < |chain| ==> fresh(chain[m])
  {
    head := new Knot();
    var tail := head;
    chain := [head];
    var i := 1;
    while i < length
      invariant |chain| == i && 1 <= i && (i <= length || i == 1)
      invariant Chain(head, chain) && tail == chain[|chain| - 1]
      invariant forall m :: 0 <= m < |chain| ==> fresh(chain[m]) && chain[m].x == 0 && chain[m].y == 0
    {
      var newKnot := new Knot();
      tail.nextKnot := newKnot;
      tail := newKnot;
      chain := chain + [newKnot];
      i := i + 1;
    }
  }

  /** The body of the chain walk: `tail` follows `lead`. */
  method Pull(lead: Knot, tail: Knot)
    requires lead != tail
    modifies tail
    ensures Point(tail.x, tail.y) == Follow(Point(lead.x, lead.y), old(Point(tail.x, tail.y)))
    ensures tail.nextKnot == old(tail.nextKnot)
  {
    var dx := lead.x - tail.x;
    var dy := lead.y - tail.y;
    if dx >= 1 && dy >= 1 && dx + dy > 2 {
      tail.x, tail.y := tail.x + 1, tail.y + 1;
    } else if dx <= -1 && dy >= 1 && -dx + dy > 2 {
      tail.x, tail.y := tail.x - 1, tail.y + 1;
    } else if dx >= 1 && dy <= -1 && dx + -dy > 2 {
      tail.x, tail.y := tail.x + 1, tail.y - 1;
    } else if dx <= -1 && dy <= -1 && dx + dy < -2 {
      tail.x, tail.y := tail.x - 1, tail.y - 1;
    } else if dx > 1 {
      tail.x := tail.x + 1;
    } else if dx < -1 {
      tail.x := tail.x - 1;
    } else if dy > 1 {
      tail.y := tail.y + 1;
    } else if dy < -1 {
      tail.y := tail.y - 1;
    }
  }

  /**
   * One step of the head: move it, then walk the chain making each knot
   * follow the one before it, and record the last knot when there is more
   * than one.
   */
  method StepRope(ropeHead: Knot, ghost chain: seq<Knot>, change: Point, visited: seq<Point>, ghost st: Rope)
    returns (recorded: seq<Point>)
    requires Chain(ropeHead, chain) && At(chain, st.knots)
    requires st.change == change && st.visited == visited
    modifies chain
    ensures Chain(ropeHead, chain) && At(chain, Tick(st).knots)
    ensures recorded == Tick(st).visited
  {
    ghost var target := Tick(st).knots;
    ropeHead.x := ropeHead.x + change.x;
    ropeHead.y := ropeHead.y + change.y;
    var currentKnot := ropeHead;
    var tail: Knot? := null;
    ghost var k := 0;
    while currentKnot.nextKnot != null
      invariant Chain(ropeHead, chain)
      invariant k < |chain| && currentKnot == chain[k]
      invariant tail == if k == 0 then null else chain[k]
      invariant forall m :: 0 <= m <= k ==> target[m] == Point(chain[m].x, chain[m].y)
      invariant forall m :: k < m < |chain| ==> st.knots[m] == Point(chain[m].x, chain[m].y)
      decreases |chain| - k
    {
      tail := currentKnot.nextKnot;
      assert k + 1 < |chain| && tail == chain[k + 1];
      Pull(currentKnot, tail);
      currentKnot := tail;
      k := k + 1;
    }
    ChainEnd(ropeHead, chain, k);
    if tail != null {
      recorded := Add(visited, Point(tail.x, tail.y));
    } else {
      recorded := visited;
    }
  }

  /** One vector: `vector.distance` steps of the head in its direction. */
  method MoveRope(vector: Vector, ropeHead: Knot, ghost chain: seq<Knot>, change: Point, visited: seq<Point>, ghost st: Rope)
    returns (heading: Point, recorded: seq<Point>)
    requires Chain(ropeHead, chain) && At(chain, st.knots)
    requires st.change == change && st.visited == visited
    modifies chain
    ensures Chain(ropeHead, chain) && At(chain, Move(st, vector).knots)
    ensures heading == Move(st, vector).change && recorded == Move(st, vector).visited
  {
    heading := Heading(vector.direction, change);
    ghost var start := st.(change := heading);
    recorded := visited;
    var i := 0;
    while vector.distance.Some? && i < vector.distance.value
      invariant 0 <= i <= Steps(vector.distance)
      invariant Chain(ropeHead, chain)
      invariant At(chain, Ticks(start, i).knots) && recorded == Ticks(start, i).visited
      decreases Steps(vector.distance) - i
    {
      recorded := StepRope(ropeHead, chain, heading, recorded, Ticks(start, i));
      i := i + 1;
    }
    MoveTicks(st, vector, i);
  }

  /**
   * `runSimulation`: the vectors one after the other, starting with no step
   * and with the head's position visited; returns the visited positions.
   */
  method RunSimulation(input: seq<Vector>, ropeHead: Knot, ghost chain: seq<Knot>, ghost knots: seq<Point>)
    returns (visited: seq<Point>)
    requires Chain(ropeHead, chain) && At(chain, knots)
    modifies chain
    ensures Chain(ropeHead, chain) && At(chain, Run(Begin(knots), input).knots)
    ensures visited == Run(Begin(knots), input).visited
  {
    visited := [Point(ropeHead.x, ropeHead.y)];
    var change := Point(0, 0);
    for v := 0 to |input|
      invariant Chain(ropeHead, chain)
      invariant At(chain, Run(Begin(knots), input[..v]).knots)
      invariant change == Run(Begin(knots), input[..v]).change
      invariant visited == Run(Begin(knots), input[..v]).visited
    {
      assert input[..v + 1][..v] == input[..v];
      change, visited := MoveRope(input[v], ropeHead, chain, change, visited, Run(Begin(knots), input[..v]));
    }
    assert input[..|input|] == input;
  }

  /**
   * Both answers: how many positions the tail of a two-knot rope and of a
   * ten-knot rope visits; every rope starts at the origin.
   */
  method Answers(input: string) returns (part1: nat, part2: nat)
    ensures part1 == |Run(Begin(seq(2, _ => Point(0, 0))), Prepare(input)).visited|
    ensures part2 == |Run(Begin(seq(10, _ => Point(0, 0))), Prepare(input)).visited|
  {
    var cleanData := Prepare(input);
    var head, chain := BuildRope(2);
    var visited := RunSimulation(cleanData, head, chain, seq(2, _ => Point(0, 0)));
    part1 := |visited|;
    head, chain := BuildRope(10);
    visited := RunSimulation(cleanData, head, chain, seq(10, _ => Point(0, 0)));
    part2 := |visited|;
  }
}
