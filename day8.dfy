/**
 * Day 8, treetop tree house.  The input is a grid of digits, one tree per
 * character.  `prepare` walks the grid row by row; every new tree is compared
 * with each tree above it (nearest first) and each tree to its left (nearest
 * first), which updates the earlier trees' view south and east and the new
 * tree's view north and west.  A tree is visible unless it is blocked in all
 * four directions; its scenic score is the product of its four viewing
 * distances.
 *
 * Heights are `parseInt` of one character, so `None` stands for `NaN`; JS
 * comparisons with `NaN` are false, so the source's final `else` branch treats
 * such a tree like one of equal height.  Rows are processed as given: a later
 * row longer than an earlier one would index a missing tree, so the model
 * asks for rows that never get longer (`Narrowing`).
 */
module Day8 {
  import opened Text
  import opened Lists

  type Height = Option<int>

  /** JS `a < b` on two heights: false when either is `NaN`. */
  predicate Lower(a: Height, b: Height)
  {
    a.Some? && b.Some? && a.value < b.value
  }

  /** A tree of height `o` in the line of sight of a tree of height `v` ends the view unless it is strictly lower. */
  predicate Blocks(o: Height, v: Height)
  {
    !Lower(o, v)
  }

  datatype Tree = Tree(
    height: Height,
    blockedNorth: bool, sceneNorth: nat,
    blockedSouth: bool, sceneSouth: nat,
    blockedEast: bool, sceneEast: nat,
    blockedWest: bool, sceneWest: nat,
    scenic: nat)

  /** What a tree sees in one direction: whether its view is blocked, and how many trees it sees. */
  datatype Sight = Sight(blocked: bool, scene: nat)

  /** One more tree `o` further out: counted while the view is still open, and it may close the view. */
  function Meet(s: Sight, o: Height, v: Height): Sight
  {
    if s.blocked then s else Sight(Blocks(o, v), s.scene + 1)
  }

  /** The sight of a tree of height `v` along `line`, the nearest tree first. */
  function Look(v: Height, line: seq<Height>): Sight
  {
    if |line| == 0 then Sight(false, 0)
    else Meet(Look(v, line[..|line| - 1]), line[|line| - 1], v)
  }

  /**
   * The view is blocked exactly when some tree on the line is at least as
   * tall; the trees seen are those up to and including the nearest such tree,
   * or the whole line when there is none.
   */
  lemma {:induction false} LookSpec(v: Height, line: seq<Height>)
    ensures Look(v, line).blocked <==> exists k :: 0 <= k < |line| && Blocks(line[k], v)
    ensures Look(v, line).scene <= |line|
    ensures !Look(v, line).blocked ==> Look(v, line).scene == |line|
    ensures Look(v, line).blocked ==> 0 < Look(v, line).scene && Blocks(line[Look(v, line).scene - 1], v)
    ensures forall k :: 0 <= k < Look(v, line).scene - 1 ==> !Blocks(line[k], v)
    decreases |line|
  {
    if |line| > 0 {
      var init := line[..|line| - 1];
      LookSpec(v, init);
      if Look(v, init).blocked {
        var k :| 0 <= k < |init| && Blocks(init[k], v);
        assert line[k] == init[k];
      }
      forall k | 0 <= k < |init| ensures line[k] == init[k] {
      }
    }
  }

  lemma LookGrows(v: Height, line: seq<Height>, o: Height)
    ensures Look(v, line + [o]) == Meet(Look(v, line), o, v)
  {
    assert (line + [o])[..|line|] == line;
  }

  // ---------------------------------------------------------------------
  // The grid
  // ---------------------------------------------------------------------

  /** `input.trim().split('\n')`. */
  function Rows(input: string): seq<string>
  {
    Split(Trim(input), "\n")
  }

  /** `parseInt(line.charAt(j))` for every character of every row. */
  function Heights(input: string): (h: seq<seq<Height>>)
    ensures |h| == |Rows(input)|
    ensures forall i :: 0 <= i < |h| ==> |h[i]| == |Rows(input)[i]|
  {
    var rows := Rows(input);
    seq(|rows|, i requires 0 <= i < |rows| =>
      seq(|rows[i]|, j requires 0 <= j < |rows[i]| => ParseInt([rows[i][j]])))
  }

  /** Row `i` of the heights is `line` read one character at a time. */
  predicate Reads(h: seq<seq<Height>>, i: nat, line: string)
  {
    i < |h| && |line| == |h[i]| && forall j :: 0 <= j < |line| ==> h[i][j] == ParseInt([line[j]])
  }

  lemma HeightsRead(input: string)
    ensures forall i :: 0 <= i < |Rows(input)| ==> Reads(Heights(input), i, Rows(input)[i])
  {
  }

  /** A digit's tree has the digit's value as its height. */
  lemma DigitHeight(d: char)
    requires IsDigit(d)
    ensures ParseInt([d]) == Some(d as int - '0' as int)
  {
    var n: nat := d as int - '0' as int;
    assert Decimal(n) == [d];
    ParseDecimal(n);
  }

  /** No row is longer than a row above it, so every tree has a tree above it in its column. */
  predicate Narrowing(h: seq<seq<Height>>)
  {
    forall a, b :: 0 <= a < b < |h| ==> |h[b]| <= |h[a]|
  }

  /** How many rows reach column `c`: those rows come first. */
  function Depth(h: seq<seq<Height>>, c: nat): (d: nat)
    requires Narrowing(h)
    ensures d <= |h|
    ensures forall r :: 0 <= r < |h| ==> (r < d <==> c < |h[r]|)
  {
    if |h| == 0 || c < |h[|h| - 1]| then |h|
    else Depth(h[..|h| - 1], c)
  }

  /** The trees above `(r, c)`, nearest first. */
  function North(h: seq<seq<Height>>, r: nat, c: nat): (line: seq<Height>)
    requires Narrowing(h) && r < |h| && c < |h[r]|
    ensures |line| == r
    ensures forall k :: 0 <= k < r ==> line[k] == h[r - 1 - k][c]
  {
    seq(r, k requires 0 <= k < r => h[r - 1 - k][c])
  }

  /** The trees below `(r, c)` in the rows before row `upto`, nearest first. */
  function South(h: seq<seq<Height>>, r: nat, c: nat, upto: nat): (line: seq<Height>)
    requires Narrowing(h) && r < upto <= Depth(h, c)
    ensures |line| == upto - r - 1
    ensures forall k :: 0 <= k < upto - r - 1 ==> line[k] == h[r + 1 + k][c]
  {
    seq(upto - r - 1, k requires 0 <= k < upto - r - 1 => h[r + 1 + k][c])
  }

  /** The trees left of `(r, c)`, nearest first. */
  function West(h: seq<seq<Height>>, r: nat, c: nat): (line: seq<Height>)
    requires r < |h| && c < |h[r]|
    ensures |line| == c
    ensures forall k :: 0 <= k < c ==> line[k] == h[r][c - 1 - k]
  {
    seq(c, k requires 0 <= k < c => h[r][c - 1 - k])
  }

  /** The trees right of `(r, c)` before column `upto`, nearest first. */
  function East(h: seq<seq<Height>>, r: nat, c: nat, upto: nat): seq<Height>
    requires r < |h| && c < upto <= |h[r]|
  {
    h[r][c + 1..upto]
  }

  // ---------------------------------------------------------------------
  // What `prepare` has computed after each step
  // ---------------------------------------------------------------------

  /** `prepare` is about to place tree `j` of row `i`, or has finished every row. */
  predicate Stage(h: seq<seq<Height>>, i: nat, j: nat)
  {
    (i < |h| && j <= |h[i]|) || (i == |h| && j == 0)
  }

  /** Tree `(r, c)` has been placed before stage `(i, j)`. */
  predicate Placed(h: seq<seq<Height>>, r: nat, c: nat, i: nat, j: nat)
  {
    r < |h| && c < |h[r]| && (r < i || (r == i && c < j))
  }

  /** How many rows have been compared with column `c` at stage `(i, j)`. */
  function Seen(h: seq<seq<Height>>, c: nat, i: nat, j: nat): (n: nat)
    requires Narrowing(h) && Stage(h, i, j)
    ensures n <= Depth(h, c)
  {
    if c < j then i + 1
    else if i < Depth(h, c) then i
    else Depth(h, c)
  }

  /** Tree `(r, c)` as `prepare` holds it at stage `(i, j)`. */
  function TreeAt(h: seq<seq<Height>>, r: nat, c: nat, i: nat, j: nat): Tree
    requires Narrowing(h) && Stage(h, i, j) && Placed(h, r, c, i, j)
  {
    var v := h[r][c];
    var n := Look(v, North(h, r, c));
    var s := Look(v, South(h, r, c, Seen(h, c, i, j)));
    var e := Look(v, East(h, r, c, if r == i then j else |h[r]|));
    var w := Look(v, West(h, r, c));
    Tree(v, n.blocked, n.scene, s.blocked, s.scene, e.blocked, e.scene, w.blocked, w.scene, 0)
  }

  /** Tree `(r, c)` once the whole grid is built. */
  function Final(h: seq<seq<Height>>, r: nat, c: nat): Tree
    requires Narrowing(h) && r < |h| && c < |h[r]|
  {
    TreeAt(h, r, c, |h|, 0)
  }

  /** The grid `prepare` returns. */
  function Forest(h: seq<seq<Height>>): (f: seq<seq<Tree>>)
    requires Narrowing(h)
    ensures |f| == |h| && forall r :: 0 <= r < |h| ==> |f[r]| == |h[r]|
  {
    seq(|h|, r requires 0 <= r < |h| =>
      seq(|h[r]|, c requires 0 <= c < |h[r]| => Final(h, r, c)))
  }

  /** The rows already pushed, at stage `(i, j)`. */
  ghost predicate Built(h: seq<seq<Height>>, grid: seq<seq<Tree>>, i: nat, j: nat)
    requires Narrowing(h) && Stage(h, i, j)
  {
    |grid| == i &&
    forall r :: 0 <= r < i ==>
      (|grid[r]| == |h[r]| && forall c :: 0 <= c < |h[r]| ==> grid[r][c] == TreeAt(h, r, c, i, j))
  }

  /** The row being built, at stage `(i, j)`. */
  ghost predicate Building(h: seq<seq<Height>>, row: seq<Tree>, i: nat, j: nat)
    requires Narrowing(h) && Stage(h, i, j) && i < |h|
  {
    |row| == j && forall c :: 0 <= c < j ==> row[c] == TreeAt(h, i, c, i, j)
  }

  /** Tree `(i, j)` has been compared with the rows from `v` on: those trees of column `j` have seen it. */
  ghost predicate Compared(h: seq<seq<Height>>, grid: seq<seq<Tree>>, i: nat, j: nat, v: nat)
    requires Narrowing(h) && i < |h| && j < |h[i]| && v <= i
  {
    |grid| == i &&
    forall r :: 0 <= r < i ==>
      (|grid[r]| == |h[r]| &&
       forall c :: 0 <= c < |h[r]| ==>
         grid[r][c] == if c == j && v <= r then TreeAt(h, r, c, i, j + 1) else TreeAt(h, r, c, i, j))
  }

  /** Tree `(i, j)` has been compared with the trees of its row from column `k` on. */
  ghost predicate Passed(h: seq<seq<Height>>, row: seq<Tree>, i: nat, j: nat, k: nat)
    requires Narrowing(h) && i < |h| && j < |h[i]| && k <= j
  {
    |row| == j && forall c :: 0 <= c < j ==>
      row[c] == if k <= c then TreeAt(h, i, c, i, j + 1) else TreeAt(h, i, c, i, j)
  }

  /** The new tree `(i, j)` after looking past `n` trees north and `w` trees west. */
  function Fresh(h: seq<seq<Height>>, i: nat, j: nat, n: nat, w: nat): Tree
    requires Narrowing(h) && i < |h| && j < |h[i]| && n <= i && w <= j
  {
    var v := h[i][j];
    var north := Look(v, North(h, i, j)[..n]);
    var west := Look(v, West(h, i, j)[..w]);
    Tree(v, north.blocked, north.scene, false, 0, false, 0, west.blocked, west.scene, 0)
  }

  /** Comparing tree `(r, j)` with the new tree `(i, j)` below it extends its view south by one tree. */
  lemma SouthStep(h: seq<seq<Height>>, r: nat, i: nat, j: nat)
    requires Narrowing(h) && i < |h| && j < |h[i]| && r < i
    ensures j < |h[r]|
    ensures var t := TreeAt(h, r, j, i, j);
      var s := Meet(Sight(t.blockedSouth, t.sceneSouth), h[i][j], t.height);
      TreeAt(h, r, j, i, j + 1) == t.(blockedSouth := s.blocked, sceneSouth := s.scene)
  {
    assert Seen(h, j, i, j) == i && Seen(h, j, i, j + 1) == i + 1;
    assert South(h, r, j, i + 1) == South(h, r, j, i) + [h[i][j]];
    LookGrows(h[r][j], South(h, r, j, i), h[i][j]);
  }

  /** Comparing tree `(i, c)` with the new tree `(i, j)` right of it extends its view east by one tree. */
  lemma EastStep(h: seq<seq<Height>>, c: nat, i: nat, j: nat)
    requires Narrowing(h) && i < |h| && j < |h[i]| && c < j
    ensures var t := TreeAt(h, i, c, i, j);
      var s := Meet(Sight(t.blockedEast, t.sceneEast), h[i][j], t.height);
      TreeAt(h, i, c, i, j + 1) == t.(blockedEast := s.blocked, sceneEast := s.scene)
  {
    assert East(h, i, c, j + 1) == East(h, i, c, j) + [h[i][j]];
    LookGrows(h[i][c], East(h, i, c, j), h[i][j]);
  }

  /** Looking past one more tree north, the row `i - 1 - n`. */
  lemma NorthStep(h: seq<seq<Height>>, i: nat, j: nat, n: nat)
    requires Narrowing(h) && i < |h| && j < |h[i]| && n < i
    ensures var t := Fresh(h, i, j, n, 0);
      var s := Meet(Sight(t.blockedNorth, t.sceneNorth), h[i - 1 - n][j], t.height);
      Fresh(h, i, j, n + 1, 0) == t.(blockedNorth := s.blocked, sceneNorth := s.scene)
  {
    var line := North(h, i, j);
    assert line[..n + 1] == line[..n] + [h[i - 1 - n][j]];
    LookGrows(h[i][j], line[..n], h[i - 1 - n][j]);
  }

  /** Looking past one more tree west, the column `j - 1 - w`. */
  lemma WestStep(h: seq<seq<Height>>, i: nat, j: nat, w: nat)
    requires Narrowing(h) && i < |h| && j < |h[i]| && w < j
    ensures var t := Fresh(h, i, j, i, w);
      var s := Meet(Sight(t.blockedWest, t.sceneWest), h[i][j - 1 - w], t.height);
      Fresh(h, i, j, i, w + 1) == t.(blockedWest := s.blocked, sceneWest := s.scene)
  {
    var line := West(h, i, j);
    assert line[..w + 1] == line[..w] + [h[i][j - 1 - w]];
    LookGrows(h[i][j], line[..w], h[i][j - 1 - w]);
  }

  /** Before the comparisons of tree `(i, j)` nothing has changed. */
  lemma CompareStart(h: seq<seq<Height>>, grid: seq<seq<Tree>>, i: nat, j: nat)
    requires Narrowing(h) && i < |h| && j < |h[i]|
    requires Built(h, grid, i, j)
    ensures Compared(h, grid, i, j, i)
  {
  }

  /** Storing the compared tree `(v, j)` moves the comparisons one row up. */
  lemma CompareStore(h: seq<seq<Height>>, grid: seq<seq<Tree>>, i: nat, j: nat, v: nat, t: Tree)
    requires Narrowing(h) && i < |h| && j < |h[i]| && v < i
    requires Compared(h, grid, i, j, v + 1)
    requires t == TreeAt(h, v, j, i, j + 1)
    ensures j < |grid[v]|
    ensures Compared(h, grid[v := grid[v][j := t]], i, j, v)
  {
  }

  /** Once every row above is compared, column `j` is at stage `(i, j + 1)` and no other column changed. */
  lemma CompareEnd(h: seq<seq<Height>>, grid: seq<seq<Tree>>, i: nat, j: nat)
    requires Narrowing(h) && i < |h| && j < |h[i]|
    requires Compared(h, grid, i, j, 0)
    ensures Built(h, grid, i, j + 1)
  {
    forall r, c | 0 <= r < i && 0 <= c < |h[r]| && c != j
      ensures TreeAt(h, r, c, i, j) == TreeAt(h, r, c, i, j + 1)
    {
      assert Seen(h, c, i, j) == Seen(h, c, i, j + 1);
    }
  }

  /** Storing the compared tree `(i, k)` moves the comparisons one column left. */
  lemma PassStore(h: seq<seq<Height>>, row: seq<Tree>, i: nat, j: nat, k: nat, t: Tree)
    requires Narrowing(h) && i < |h| && j < |h[i]| && k < j
    requires Passed(h, row, i, j, k + 1)
    requires t == TreeAt(h, i, k, i, j + 1)
    ensures Passed(h, row[k := t], i, j, k)
  {
  }

  /** With the whole row compared, pushing the new tree completes stage `(i, j + 1)`. */
  lemma PassEnd(h: seq<seq<Height>>, row: seq<Tree>, i: nat, j: nat)
    requires Narrowing(h) && i < |h| && j < |h[i]|
    requires Passed(h, row, i, j, 0)
    ensures Fresh(h, i, j, i, j) == TreeAt(h, i, j, i, j + 1)
    ensures Building(h, row + [Fresh(h, i, j, i, j)], i, j + 1)
  {
    assert North(h, i, j)[..i] == North(h, i, j);
    assert West(h, i, j)[..j] == West(h, i, j);
    assert South(h, i, j, Seen(h, j, i, j + 1)) == [];
  }

  /** Pushing a finished row: every tree keeps its state at the next row's start. */
  lemma RowEnd(h: seq<seq<Height>>, grid: seq<seq<Tree>>, row: seq<Tree>, i: nat)
    requires Narrowing(h) && i < |h|
    requires Built(h, grid, i, |h[i]|) && Building(h, row, i, |h[i]|)
    ensures Built(h, grid + [row], i + 1, 0)
  {
    forall r, c | 0 <= r <= i && 0 <= c < |h[r]|
      ensures TreeAt(h, r, c, i, |h[i]|) == TreeAt(h, r, c, i + 1, 0)
    {
      assert Seen(h, c, i, |h[i]|) == Seen(h, c, i + 1, 0);
    }
  }

  /** After the last row the state is the finished grid. */
  lemma GridEnd(h: seq<seq<Height>>, grid: seq<seq<Tree>>)
    requires Narrowing(h) && Built(h, grid, |h|, 0)
    ensures grid == Forest(h)
  {
    var f := Forest(h);
    forall r | 0 <= r < |h| ensures grid[r] == f[r] {
      assert |grid[r]| == |f[r]|;
      forall c | 0 <= c < |h[r]| ensures grid[r][c] == f[r][c] {
        assert f[r][c] == Final(h, r, c);
      }
    }
  }

  /**
   * Comparing a tree with a new tree below it in its column: each side's
   * view grows by one tree, the upper one's south and the lower one's north.
   */
  method CompareVertical(above: Tree, below: Tree) returns (upper: Tree, lower: Tree)
    ensures var s := Meet(Sight(above.blockedSouth, above.sceneSouth), below.height, above.height);
      upper == above.(blockedSouth := s.blocked, sceneSouth := s.scene)
    ensures var s := Meet(Sight(below.blockedNorth, below.sceneNorth), above.height, below.height);
      lower == below.(blockedNorth := s.blocked, sceneNorth := s.scene)
  {
    upper, lower := above, below;
    if !upper.blockedSouth {
      upper := upper.(sceneSouth := upper.sceneSouth + 1);
    }
    if !lower.blockedNorth {
      lower := lower.(sceneNorth := lower.sceneNorth + 1);
    }
    if Lower(upper.height, lower.height) {
      upper := upper.(blockedSouth := true);
    } else if Lower(lower.height, upper.height) {
      lower := lower.(blockedNorth := true);
    } else {
      upper := upper.(blockedSouth := true);
      lower := lower.(blockedNorth := true);
    }
  }

  /**
   * Comparing a tree with a new tree right of it in its row: the left one's
   * view east and the right one's view west grow by one tree.
   */
  method CompareHorizontal(left: Tree, right: Tree) returns (west: Tree, east: Tree)
    ensures var s := Meet(Sight(left.blockedEast, left.sceneEast), right.height, left.height);
      west == left.(blockedEast := s.blocked, sceneEast := s.scene)
    ensures var s := Meet(Sight(right.blockedWest, right.sceneWest), left.height, right.height);
      east == right.(blockedWest := s.blocked, sceneWest := s.scene)
  {
    west, east := left, right;
    if !west.blockedEast {
      west := west.(sceneEast := west.sceneEast + 1);
    }
    if !east.blockedWest {
      east := east.(sceneWest := east.sceneWest + 1);
    }
    if Lower(west.height, east.height) {
      west := west.(blockedEast := true);
    } else if Lower(east.height, west.height) {
      east := east.(blockedWest := true);
    } else {
      east := east.(blockedWest := true);
      west := west.(blockedEast := true);
    }
  }

  /** The scan of column `j` upwards from row `i - 1` to row 0 for the new tree `(i, j)`. */
  method CompareAbove(ghost h: seq<seq<Height>>, grid: seq<seq<Tree>>, i: nat, j: nat, height: Height)
    returns (next: seq<seq<Tree>>, newTree: Tree)
    requires Narrowing(h) && i < |h| && j < |h[i]| && height == h[i][j]
    requires Built(h, grid, i, j)
    ensures Built(h, next, i, j + 1)
    ensures newTree == Fresh(h, i, j, i, 0)
  {
    next := grid;
    newTree := Tree(height, false, 0, false, 0, false, 0, false, 0, 0);
    assert newTree == Fresh(h, i, j, 0, 0);
    CompareStart(h, next, i, j);
    var vertCheck := i;
    while vertCheck > 0
      invariant 0 <= vertCheck <= i
      invariant Compared(h, next, i, j, vertCheck)
      invariant newTree == Fresh(h, i, j, i - vertCheck, 0)
    {
      vertCheck := vertCheck - 1;
      SouthStep(h, vertCheck, i, j);
      NorthStep(h, i, j, i - 1 - vertCheck);
      var other;
      other, newTree := CompareVertical(next[vertCheck][j], newTree);
      CompareStore(h, next, i, j, vertCheck, other);
      next := next[vertCheck := next[vertCheck][j := other]];
    }
    CompareEnd(h, next, i, j);
  }

  /** The scan of row `i` leftwards from column `j - 1` to column 0 for the new tree `(i, j)`. */
  method CompareLeft(ghost h: seq<seq<Height>>, row: seq<Tree>, i: nat, j: nat, tree: Tree)
    returns (next: seq<Tree>, newTree: Tree)
    requires Narrowing(h) && i < |h| && j < |h[i]|
    requires Building(h, row, i, j) && tree == Fresh(h, i, j, i, 0)
    ensures Building(h, next, i, j + 1)
    ensures newTree == TreeAt(h, i, j, i, j + 1)
  {
    next, newTree := row, tree;
    var hozCheck := j;
    while hozCheck > 0
      invariant 0 <= hozCheck <= j
      invariant Passed(h, next, i, j, hozCheck)
      invariant newTree == Fresh(h, i, j, i, j - hozCheck)
    {
      hozCheck := hozCheck - 1;
      EastStep(h, hozCheck, i, j);
      WestStep(h, i, j, j - 1 - hozCheck);
      var other;
      other, newTree := CompareHorizontal(next[hozCheck], newTree);
      PassStore(h, next, i, j, hozCheck, other);
      next := next[hozCheck := other];
    }
    PassEnd(h, next, i, j);
    next := next + [newTree];
  }

  /** Placing the trees of row `i`, read from `line`, one after the other. */
  method BuildRow(ghost h: seq<seq<Height>>, grid: seq<seq<Tree>>, i: nat, line: string)
    returns (next: seq<seq<Tree>>, row: seq<Tree>)
    requires Narrowing(h) && i < |h| && Reads(h, i, line)
    requires Built(h, grid, i, 0)
    ensures Built(h, next, i, |h[i]|) && Building(h, row, i, |h[i]|)
  {
    next, row := grid, [];
    for j := 0 to |line|
      invariant Built(h, next, i, j) && Building(h, row, i, j)
    {
      var height := ParseInt([line[j]]);
      var newTree;
      next, newTree := CompareAbove(h, next, i, j, height);
      row, newTree := CompareLeft(h, row, i, j, newTree);
    }
  }

  /**
   * `prepare`: one tree per character, each new tree compared with the trees
   * above it and then the trees left of it, nearest first; the earlier trees'
   * south and east views and the new tree's north and west views grow with
   * each comparison.
   */
  method Prepare(input: string) returns (grid: seq<seq<Tree>>)
    requires Narrowing(Heights(input))
    ensures grid == Forest(Heights(input))
  {
    var rows := Split(Trim(input), "\n");
    HeightsRead(input);
    grid := BuildGrid(Heights(input), rows);
  }

  /** The rows placed one after the other. */
  method BuildGrid(ghost h: seq<seq<Height>>, rows: seq<string>) returns (grid: seq<seq<Tree>>)
    requires Narrowing(h) && |rows| == |h|
    requires forall i :: 0 <= i < |rows| ==> Reads(h, i, rows[i])
    ensures grid == Forest(h)
  {
    grid := [];
    for i := 0 to |rows|
      invariant Built(h, grid, i, 0)
    {
      var row;
      grid, row := BuildRow(h, grid, i, rows[i]);
      RowEnd(h, grid, row, i);
      grid := grid + [row];
    }
    GridEnd(h, grid);
  }

  // ---------------------------------------------------------------------
  // What the finished grid says
  // ---------------------------------------------------------------------

  /** One row per line and one tree per character, each tree's height the value of its character. */
  lemma ForestShape(input: string, r: nat, c: nat)
    requires Narrowing(Heights(input))
    requires r < |Rows(input)| && c < |Rows(input)[r]|
    ensures |Forest(Heights(input))| == |Rows(input)|
    ensures |Forest(Heights(input))[r]| == |Rows(input)[r]|
    ensures Forest(Heights(input))[r][c].height == ParseInt([Rows(input)[r][c]])
    ensures IsDigit(Rows(input)[r][c]) ==>
      Forest(Heights(input))[r][c].height == Some(Rows(input)[r][c] as int - '0' as int)
    ensures Forest(Heights(input))[r][c].scenic == 0
  {
    var d := Rows(input)[r][c];
    if IsDigit(d) {
      DigitHeight(d);
    }
  }

  /**
   * Looking north: blocked exactly when a tree above is at least as tall;
   * the trees seen run up to the nearest such tree, or to the top edge.
   */
  lemma {:induction false} NorthView(h: seq<seq<Height>>, r: nat, c: nat)
    requires Narrowing(h) && r < |h| && c < |h[r]|
    ensures Final(h, r, c).blockedNorth <==> exists k :: 0 <= k < r && Blocks(h[k][c], h[r][c])
    ensures Final(h, r, c).sceneNorth <= r
    ensures !Final(h, r, c).blockedNorth ==> Final(h, r, c).sceneNorth == r
    ensures Final(h, r, c).blockedNorth ==>
      0 < Final(h, r, c).sceneNorth && Blocks(h[r - Final(h, r, c).sceneNorth][c], h[r][c])
    ensures forall k :: r - Final(h, r, c).sceneNorth < k < r ==> !Blocks(h[k][c], h[r][c])
  {
    var v, line := h[r][c], North(h, r, c);
    LookSpec(v, line);
    assert Final(h, r, c).blockedNorth == Look(v, line).blocked;
    if exists k :: 0 <= k < r && Blocks(h[k][c], v) {
      var k :| 0 <= k < r && Blocks(h[k][c], v);
      assert line[r - 1 - k] == h[k][c];
    }
    forall k | r - Final(h, r, c).sceneNorth < k < r ensures !Blocks(h[k][c], v) {
      assert line[r - 1 - k] == h[k][c];
    }
  }

  /**
   * Looking south: blocked exactly when a tree below is at least as tall;
   * the trees seen run down to the nearest such tree, or to the last row
   * reaching this column.
   */
  lemma {:induction false} SouthView(h: seq<seq<Height>>, r: nat, c: nat)
    requires Narrowing(h) && r < |h| && c < |h[r]|
    ensures Final(h, r, c).blockedSouth <==>
      exists k :: r < k < |h| && c < |h[k]| && Blocks(h[k][c], h[r][c])
    ensures r + Final(h, r, c).sceneSouth < Depth(h, c)
    ensures !Final(h, r, c).blockedSouth ==> r + Final(h, r, c).sceneSouth + 1 == Depth(h, c)
    ensures Final(h, r, c).blockedSouth ==>
      0 < Final(h, r, c).sceneSouth && Blocks(h[r + Final(h, r, c).sceneSouth][c], h[r][c])
    ensures forall k :: r < k < r + Final(h, r, c).sceneSouth ==> !Blocks(h[k][c], h[r][c])
  {
    var v, line := h[r][c], South(h, r, c, Depth(h, c));
    LookSpec(v, line);
    assert Seen(h, c, |h|, 0) == Depth(h, c);
    assert Final(h, r, c).blockedSouth == Look(v, line).blocked;
    if exists k :: r < k < |h| && c < |h[k]| && Blocks(h[k][c], v) {
      var k :| r < k < |h| && c < |h[k]| && Blocks(h[k][c], v);
      assert line[k - r - 1] == h[k][c];
    }
    forall k | r < k < r + Final(h, r, c).sceneSouth ensures !Blocks(h[k][c], v) {
      assert line[k - r - 1] == h[k][c];
    }
  }

  /**
   * Looking east: blocked exactly when a tree to the right is at least as
   * tall; the trees seen run to the nearest such tree, or to the row's end.
   */
  lemma {:induction false} EastView(h: seq<seq<Height>>, r: nat, c: nat)
    requires Narrowing(h) && r < |h| && c < |h[r]|
    ensures Final(h, r, c).blockedEast <==> exists k :: c < k < |h[r]| && Blocks(h[r][k], h[r][c])
    ensures c + Final(h, r, c).sceneEast < |h[r]|
    ensures !Final(h, r, c).blockedEast ==> c + Final(h, r, c).sceneEast + 1 == |h[r]|
    ensures Final(h, r, c).blockedEast ==>
      0 < Final(h, r, c).sceneEast && Blocks(h[r][c + Final(h, r, c).sceneEast], h[r][c])
    ensures forall k :: c < k < c + Final(h, r, c).sceneEast ==> !Blocks(h[r][k], h[r][c])
  {
    var v, line := h[r][c], East(h, r, c, |h[r]|);
    LookSpec(v, line);
    assert Final(h, r, c).blockedEast == Look(v, line).blocked;
    if exists k :: c < k < |h[r]| && Blocks(h[r][k], v) {
      var k :| c < k < |h[r]| && Blocks(h[r][k], v);
      assert line[k - c - 1] == h[r][k];
    }
    forall k | c < k < c + Final(h, r, c).sceneEast ensures !Blocks(h[r][k], v) {
      assert line[k - c - 1] == h[r][k];
    }
  }

  /**
   * Looking west: blocked exactly when a tree to the left is at least as
   * tall; the trees seen run to the nearest such tree, or to the row's start.
   */
  lemma {:induction false} WestView(h: seq<seq<Height>>, r: nat, c: nat)
    requires Narrowing(h) && r < |h| && c < |h[r]|
    ensures Final(h, r, c).blockedWest <==> exists k :: 0 <= k < c && Blocks(h[r][k], h[r][c])
    ensures Final(h, r, c).sceneWest <= c
    ensures !Final(h, r, c).blockedWest ==> Final(h, r, c).sceneWest == c
    ensures Final(h, r, c).blockedWest ==>
      0 < Final(h, r, c).sceneWest && Blocks(h[r][c - Final(h, r, c).sceneWest], h[r][c])
    ensures forall k :: c - Final(h, r, c).sceneWest < k < c ==> !Blocks(h[r][k], h[r][c])
  {
    var v, line := h[r][c], West(h, r, c);
    LookSpec(v, line);
    assert Final(h, r, c).blockedWest == Look(v, line).blocked;
    if exists k :: 0 <= k < c && Blocks(h[r][k], v) {
      var k :| 0 <= k < c && Blocks(h[r][k], v);
      assert line[c - 1 - k] == h[r][k];
    }
    forall k | c - Final(h, r, c).sceneWest < k < c ensures !Blocks(h[r][k], v) {
      assert line[c - 1 - k] == h[r][k];
    }
  }

  /** The filter of `getVisibleTrees`: not blocked in all four directions. */
  predicate Visible(t: Tree)
  {
    !(t.blockedNorth && t.blockedSouth && t.blockedEast && t.blockedWest)
  }

  /** A tree is visible exactly when, in some direction, every tree up to the edge is strictly lower. */
  lemma Visibility(h: seq<seq<Height>>, r: nat, c: nat)
    requires Narrowing(h) && r < |h| && c < |h[r]|
    ensures Visible(Final(h, r, c)) <==>
      (forall k :: 0 <= k < r ==> Lower(h[k][c], h[r][c])) ||
      (forall k :: r < k < |h| && c < |h[k]| ==> Lower(h[k][c], h[r][c])) ||
      (forall k :: c < k < |h[r]| ==> Lower(h[r][k], h[r][c])) ||
      (forall k :: 0 <= k < c ==> Lower(h[r][k], h[r][c]))
  {
    NorthView(h, r, c);
    SouthView(h, r, c);
    EastView(h, r, c);
    WestView(h, r, c);
  }

  /** Trees on the edge of the grid are always visible. */
  lemma EdgeVisible(h: seq<seq<Height>>, r: nat, c: nat)
    requires Narrowing(h) && r < |h| && c < |h[r]|
    requires r == 0 || c == 0 || c + 1 == |h[r]| || r + 1 == |h| || |h[r + 1]| <= c
    ensures Visible(Final(h, r, c))
  {
    Visibility(h, r, c);
  }

  /** `tree.sceneNorth * tree.sceneSouth * tree.sceneEast * tree.sceneWest`. */
  function Scenic(t: Tree): nat
  {
    t.sceneNorth * t.sceneSouth * t.sceneEast * t.sceneWest
  }

  /** A tree on the edge sees nothing in one direction, so its score is 0; every other tree scores at least 1. */
  lemma EdgeScenic(h: seq<seq<Height>>, r: nat, c: nat)
    requires Narrowing(h) && r < |h| && c < |h[r]|
    ensures Scenic(Final(h, r, c)) == 0 <==>
      r == 0 || c == 0 || c + 1 == |h[r]| || r + 1 == |h| || |h[r + 1]| <= c
  {
    var t := Final(h, r, c);
    NorthView(h, r, c);
    SouthView(h, r, c);
    EastView(h, r, c);
    WestView(h, r, c);
    assert r + 1 == Depth(h, c) <==> r + 1 == |h| || |h[r + 1]| <= c;
    if t.sceneNorth > 0 && t.sceneSouth > 0 && t.sceneEast > 0 && t.sceneWest > 0 {
      assert t.sceneNorth * t.sceneSouth > 0;
      assert t.sceneNorth * t.sceneSouth * t.sceneEast > 0;
    }
  }

  /** `trees.flatMap(row => row.filter(visible))`: the visible trees, row by row. */
  function VisibleTrees(trees: seq<seq<Tree>>): seq<Tree>
  {
    Flatten(seq(|trees|, r requires 0 <= r < |trees| => Filter(trees[r], Visible)))
  }

  /** The list holds exactly the visible trees of the grid. */
  lemma {:induction false} VisibleTreesSpec(trees: seq<seq<Tree>>, t: Tree)
    ensures t in VisibleTrees(trees) <==>
      Visible(t) && exists r, c :: 0 <= r < |trees| && 0 <= c < |trees[r]| && trees[r][c] == t
    decreases |trees|
  {
    if |trees| > 0 {
      var init := trees[..|trees| - 1];
      var last := trees[|trees| - 1];
      VisibleTreesSpec(init, t);
      var pieces := seq(|trees|, r requires 0 <= r < |trees| => Filter(trees[r], Visible));
      assert pieces[..|pieces| - 1] == seq(|init|, r requires 0 <= r < |init| => Filter(init[r], Visible));
      assert VisibleTrees(trees) == VisibleTrees(init) + Filter(last, Visible);
      if exists r, c :: 0 <= r < |trees| && 0 <= c < |trees[r]| && trees[r][c] == t {
        var r, c :| 0 <= r < |trees| && 0 <= c < |trees[r]| && trees[r][c] == t;
        if r < |init| {
          assert init[r][c] == t;
        } else {
          assert t in last;
        }
      }
      if t in last {
        var c :| 0 <= c < |last| && last[c] == t;
        assert trees[|trees| - 1][c] == t;
      }
      if exists r, c :: 0 <= r < |init| && 0 <= c < |init[r]| && init[r][c] == t {
        var r, c :| 0 <= r < |init| && 0 <= c < |init[r]| && init[r][c] == t;
        assert trees[r][c] == t;
      }
    }
  }

  /** The grid positions holding a visible tree. */
  ghost function VisiblePositions(trees: seq<seq<Tree>>): set<(int, int)>
  {
    set r, c | 0 <= r < |trees| && 0 <= c < |trees[r]| && Visible(trees[r][c]) :: (r, c)
  }

  /** The visible positions of one row, numbered `r`. */
  ghost function RowPositions(r: int, row: seq<Tree>): set<(int, int)>
  {
    set c | 0 <= c < |row| && Visible(row[c]) :: (r, c)
  }

  /** A row's visible positions are those of all but its last tree, and the last one if visible. */
  lemma RowSplit(r: int, row: seq<Tree>)
    requires |row| > 0
    ensures RowPositions(r, row) ==
      RowPositions(r, row[..|row| - 1]) + (if Visible(row[|row| - 1]) then {(r, |row| - 1)} else {})
    ensures (r, |row| - 1) !in RowPositions(r, row[..|row| - 1])
  {
    var n := |row| - 1;
    var front := row[..n];
    var last: set<(int, int)> := if Visible(row[n]) then {(r, n)} else {};
    forall q ensures q in RowPositions(r, row) <==> q in RowPositions(r, front) + last {
      if q in RowPositions(r, row) {
        var c :| 0 <= c < |row| && Visible(row[c]) && q == (r, c);
        if c < n {
          assert front[c] == row[c];
        }
      }
      if q in RowPositions(r, front) {
        var c :| 0 <= c < |front| && Visible(front[c]) && q == (r, c);
        assert row[c] == front[c];
      }
    }
  }

  /** A row's filter has one tree per visible position of that row. */
  lemma {:induction false} RowCount(r: int, row: seq<Tree>)
    ensures |Filter(row, Visible)| == |RowPositions(r, row)|
    decreases |row|
  {
    if |row| == 0 {
      assert RowPositions(r, row) == {};
    } else {
      var n := |row| - 1;
      var front := row[..n];
      RowCount(r, front);
      assert row == front + [row[n]];
      FilterAppend(front, [row[n]], Visible);
      FilterSingle(row[n], Visible);
      RowSplit(r, row);
    }
  }

  /** The grid's visible positions are those of all but its last row, and those of the last row. */
  lemma GridSplit(trees: seq<seq<Tree>>)
    requires |trees| > 0
    ensures VisiblePositions(trees) ==
      VisiblePositions(trees[..|trees| - 1]) + RowPositions(|trees| - 1, trees[|trees| - 1])
    ensures VisiblePositions(trees[..|trees| - 1]) * RowPositions(|trees| - 1, trees[|trees| - 1]) == {}
  {
    var n := |trees| - 1;
    var init := trees[..n];
    forall q ensures q in VisiblePositions(trees) <==> q in VisiblePositions(init) + RowPositions(n, trees[n]) {
      if q in VisiblePositions(trees) {
        var r, c :| 0 <= r < |trees| && 0 <= c < |trees[r]| && Visible(trees[r][c]) && q == (r, c);
        if r < n {
          assert init[r][c] == trees[r][c];
        }
      }
      if q in VisiblePositions(init) {
        var r, c :| 0 <= r < |init| && 0 <= c < |init[r]| && Visible(init[r][c]) && q == (r, c);
        assert trees[r][c] == init[r][c];
      }
    }
  }

  /** The list of visible trees has one entry per grid position holding a visible tree. */
  lemma {:induction false} VisibleTreesCount(trees: seq<seq<Tree>>)
    ensures |VisibleTrees(trees)| == |VisiblePositions(trees)|
    decreases |trees|
  {
    if |trees| == 0 {
      assert VisiblePositions(trees) == {};
    } else {
      var n := |trees| - 1;
      var init := trees[..n];
      VisibleTreesCount(init);
      RowCount(n, trees[n]);
      var pieces := seq(|trees|, r requires 0 <= r < |trees| => Filter(trees[r], Visible));
      assert pieces[..n] == seq(|init|, r requires 0 <= r < |init| => Filter(init[r], Visible));
      assert VisibleTrees(trees) == VisibleTrees(init) + Filter(trees[n], Visible);
      GridSplit(trees);
    }
  }

  /** Every tree of the grid with its `scenic` field set. */
  function Scored(trees: seq<seq<Tree>>): (s: seq<seq<Tree>>)
    ensures |s| == |trees| && forall r :: 0 <= r < |trees| ==> |s[r]| == |trees[r]|
  {
    seq(|trees|, r requires 0 <= r < |trees| =>
      seq(|trees[r]|, c requires 0 <= c < |trees[r]| => trees[r][c].(scenic := Scenic(trees[r][c]))))
  }

  /** `m` is the highest score in the grid, or 0 when none is higher. */
  ghost predicate BestScore(trees: seq<seq<Tree>>, m: nat)
  {
    (forall r, c :: 0 <= r < |trees| && 0 <= c < |trees[r]| ==> Scenic(trees[r][c]) <= m) &&
    (m == 0 || exists r, c :: 0 <= r < |trees| && 0 <= c < |trees[r]| && Scenic(trees[r][c]) == m)
  }

  /**
   * `calculateScenics`: sets every tree's score and returns the highest,
   * starting from 0.
   */
  method CalculateScenics(trees: seq<seq<Tree>>) returns (scored: seq<seq<Tree>>, max: nat)
    ensures scored == Scored(trees)
    ensures BestScore(trees, max)
  {
    scored, max := [], 0;
    ghost var br: nat, bc: nat := 0, 0;
    for r := 0 to |trees|
      invariant scored == Scored(trees)[..r]
      invariant forall a, c :: 0 <= a < r && 0 <= c < |trees[a]| ==> Scenic(trees[a][c]) <= max
      invariant max == 0 || (br < r && bc < |trees[br]| && Scenic(trees[br][bc]) == max)
    {
      var row := trees[r];
      var out: seq<Tree> := [];
      for c := 0 to |row|
        invariant out == Scored(trees)[r][..c]
        invariant forall a, b :: 0 <= a < r && 0 <= b < |trees[a]| ==> Scenic(trees[a][b]) <= max
        invariant forall b :: 0 <= b < c ==> Scenic(row[b]) <= max
        invariant max == 0 || (br <= r && bc < |trees[br]| && Scenic(trees[br][bc]) == max)
      {
        var t := row[c];
        t := t.(scenic := t.sceneNorth * t.sceneSouth * t.sceneEast * t.sceneWest);
        if t.scenic > max {
          max := t.scenic;
          br, bc := r, c;
        }
        out := out + [t];
      }
      assert out == Scored(trees)[r];
      scored := scored + [out];
    }
    assert Scored(trees)[..|trees|] == Scored(trees);
  }

  /** Both answers: how many trees are visible, and the best scenic score. */
  method Answers(input: string) returns (part1: nat, part2: nat)
    requires Narrowing(Heights(input))
    ensures part1 == |VisibleTrees(Scored(Forest(Heights(input))))|
    ensures part1 == |VisiblePositions(Forest(Heights(input)))|
    ensures BestScore(Forest(Heights(input)), part2)
  {
    var trees := Prepare(input);
    var scored;
    scored, part2 := CalculateScenics(trees);
    part1 := |VisibleTrees(scored)|;
    VisibleTreesCount(scored);
    ScoringKeepsVisible(trees);
  }

  /** Setting the scenic scores moves no tree in or out of view. */
  lemma ScoringKeepsVisible(trees: seq<seq<Tree>>)
    ensures VisiblePositions(Scored(trees)) == VisiblePositions(trees)
  {
    var s := Scored(trees);
    forall q ensures q in VisiblePositions(s) <==> q in VisiblePositions(trees) {
      if q in VisiblePositions(s) {
        var r, c :| 0 <= r < |s| && 0 <= c < |s[r]| && Visible(s[r][c]) && q == (r, c);
        assert Visible(trees[r][c]);
      }
      if q in VisiblePositions(trees) {
        var r, c :| 0 <= r < |trees| && 0 <= c < |trees[r]| && Visible(trees[r][c]) && q == (r, c);
        assert Visible(s[r][c]);
      }
    }
  }
}
