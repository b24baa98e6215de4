/**
 * Day 3, rucksack reorganisation.  Each line is a rucksack whose two
 * halves (the first half rounded up) should share one item type; every
 * consecutive chunk of three rucksacks shares a badge.  The answers are
 * the summed priorities of the shared items and of the badges.
 */
module Day3 {
  import opened Text
  import opened Lists

  /** The character code of 'a'. */
  const A_CODE := 97

  /** `prepare`: one rucksack per line of the trimmed input. */
  function Prepare(input: string): (rucksacks: seq<string>)
    ensures |rucksacks| >= 1
    ensures Join(rucksacks, "\n") == Trim(input)
    ensures forall i :: 0 <= i < |rucksacks| ==> !Contains(rucksacks[i], "\n")
  {
    Split(Trim(input), "\n")
  }

  // ---------------------------------------------------------------------
  // Duplicates within a rucksack
  // ---------------------------------------------------------------------

  /** The two compartments: `slice(0, ceil(len / 2))` and the rest. */
  function Halves(rucksack: string): (h: (string, string))
    ensures h.0 + h.1 == rucksack
    ensures |h.0| == (|rucksack| + 1) / 2
    ensures |h.1| <= |h.0| <= |h.1| + 1
  {
    var half := (|rucksack| + 1) / 2;
    (rucksack[..half], rucksack[half..])
  }

  /** Position `i` of `c1` holds an item that `c2` also holds. */
  predicate SharedAt(c1: string, c2: string, i: nat)
    requires i < |c1|
  {
    c1[i] in c2
  }

  /** The first position at or after `i` of `c1` whose item `c2` also holds. */
  function SharedFrom(c1: string, c2: string, i: nat): (r: Option<nat>)
    requires i <= |c1|
    ensures r.Some? ==> i <= r.value < |c1| && SharedAt(c1, c2, r.value)
    ensures r.Some? ==> forall j :: i <= j < r.value ==> !SharedAt(c1, c2, j)
    ensures r.None? ==> forall j :: i <= j < |c1| ==> !SharedAt(c1, c2, j)
    decreases |c1| - i
  {
    if i == |c1| then None
    else if c1[i] in c2 then Some(i)
    else SharedFrom(c1, c2, i + 1)
  }

  /**
   * What `findDuplicates` yields for one rucksack: the earliest item of the
   * first half that the second half also holds, or the error it throws.
   */
  function Duplicate(rucksack: string): (r: Result<char>)
    ensures r.Ok? <==> exists i :: 0 <= i < |Halves(rucksack).0| && SharedAt(Halves(rucksack).0, Halves(rucksack).1, i)
    ensures r.Ok? ==> r.value in Halves(rucksack).0 && r.value in Halves(rucksack).1
    ensures r.Ok? ==> exists i :: (0 <= i < |Halves(rucksack).0| && Halves(rucksack).0[i] == r.value
      && forall j :: 0 <= j < i ==> !SharedAt(Halves(rucksack).0, Halves(rucksack).1, j))
    ensures r.Error? ==> r.message == "No duplicate found"
  {
    var (c1, c2) := Halves(rucksack);
    match SharedFrom(c1, c2, 0)
    case Some(i) => Ok(c1[i])
    case None => Error("No duplicate found")
  }

  /** The search loop of `findDuplicates` for one rucksack, with its early return and its throw. */
  method FindDuplicate(rucksack: string) returns (r: Result<char>)
    ensures r == Duplicate(rucksack)
  {
    var half := (|rucksack| + 1) / 2;
    var c1 := rucksack[..half];
    var c2 := rucksack[half..];
    var i := 0;
    while i < |c1|
      invariant 0 <= i <= |c1|
      invariant SharedFrom(c1, c2, 0) == SharedFrom(c1, c2, i)
    {
      if c1[i] in c2 {
        return Ok(c1[i]);
      }
      i := i + 1;
    }
    return Error("No duplicate found");
  }

  /**
   * `findDuplicates`: the duplicate of every rucksack, in order, or the
   * error of the first rucksack whose halves share nothing.
   */
  method FindDuplicates(rucksacks: seq<string>) returns (r: Result<seq<char>>)
    ensures r.Ok? <==> forall k :: 0 <= k < |rucksacks| ==> Duplicate(rucksacks[k]).Ok?
    ensures r.Ok? ==> (|r.value| == |rucksacks|
      && forall k :: 0 <= k < |rucksacks| ==> r.value[k] == Duplicate(rucksacks[k]).value)
    ensures r.Error? ==> r.message == "No duplicate found"
  {
    var dups: seq<char> := [];
    var k := 0;
    while k < |rucksacks|
      invariant 0 <= k <= |rucksacks| && |dups| == k
      invariant forall m :: 0 <= m < k ==> Duplicate(rucksacks[m]).Ok? && dups[m] == Duplicate(rucksacks[m]).value
    {
      var d := FindDuplicate(rucksacks[k]);
      if d.Error? {
        return Error(d.message);
      }
      dups := dups + [d.value];
      k := k + 1;
    }
    return Ok(dups);
  }

  // ---------------------------------------------------------------------
  // Group badges
  // ---------------------------------------------------------------------

  /** Position `j` of the chunk's first rucksack holds an item the second and third also hold. */
  predicate CommonAt(chunk: seq<string>, j: nat)
    requires |chunk| >= 3 && j < |chunk[0]|
  {
    chunk[0][j] in chunk[1] && chunk[0][j] in chunk[2]
  }

  /**
   * The inner loop of `findGroupKeys` from position `j` of the chunk's first
   * rucksack: the first common item, nothing, or the `TypeError` raised by
   * reading `includes` of a missing second or third rucksack.
   */
  function ChunkKeyFrom(chunk: seq<string>, j: nat): (r: Result<Option<char>>)
    requires |chunk| >= 1 && j <= |chunk[0]|
    decreases |chunk[0]| - j
  {
    if j == |chunk[0]| then Ok(None)
    else if |chunk| < 2 then Error("TypeError")
    else if chunk[0][j] in chunk[1] then
      if |chunk| < 3 then Error("TypeError")
      else if chunk[0][j] in chunk[2] then Ok(Some(chunk[0][j]))
      else ChunkKeyFrom(chunk, j + 1)
    else ChunkKeyFrom(chunk, j + 1)
  }

  /** The key a chunk contributes: the first item of its first rucksack that all three hold. */
  function ChunkKey(chunk: seq<string>): (r: Result<Option<char>>)
    requires |chunk| >= 1
    ensures |chunk| >= 3 ==> r.Ok?
    ensures |chunk| >= 3 && r.Ok? && r.value.None? ==> forall j :: 0 <= j < |chunk[0]| ==> !CommonAt(chunk, j)
    ensures r.Ok? && r.value.Some? ==> |chunk| >= 3 && exists j :: (0 <= j < |chunk[0]| && chunk[0][j] == r.value.value
      && CommonAt(chunk, j) && forall k :: 0 <= k < j ==> !CommonAt(chunk, k))
    ensures r.Error? <==> (|chunk| == 1 && |chunk[0]| > 0) || (|chunk| == 2 && exists j :: 0 <= j < |chunk[0]| && chunk[0][j] in chunk[1])
  {
    ChunkKeyFromSpec(chunk, 0);
    ChunkKeyFrom(chunk, 0)
  }

  lemma {:induction false} ChunkKeyFromSpec(chunk: seq<string>, j: nat)
    requires |chunk| >= 1 && j <= |chunk[0]|
    ensures var r := ChunkKeyFrom(chunk, j);
      && (|chunk| >= 3 ==> r.Ok?)
      && (|chunk| >= 3 && r.Ok? && r.value.None? ==> forall k :: j <= k < |chunk[0]| ==> !CommonAt(chunk, k))
      && (r.Ok? && r.value.Some? ==> |chunk| >= 3 && exists m :: (j <= m < |chunk[0]| && chunk[0][m] == r.value.value
            && CommonAt(chunk, m) && forall k :: j <= k < m ==> !CommonAt(chunk, k)))
      && (r.Error? <==> (|chunk| == 1 && |chunk[0]| > j) || (|chunk| == 2 && exists k :: j <= k < |chunk[0]| && chunk[0][k] in chunk[1]))
    decreases |chunk[0]| - j
  {
    if j < |chunk[0]| {
      ChunkKeyFromSpec(chunk, j + 1);
    }
  }

  /** The rucksacks `slice(i, i + size)`. */
  function Chunk(rucksacks: seq<string>, size: nat, i: nat): (chunk: seq<string>)
    requires i < |rucksacks|
    ensures 1 <= |chunk| <= size || size == 0
    ensures |chunk| == if i + size < |rucksacks| then size else |rucksacks| - i
    ensures forall k :: 0 <= k < |chunk| ==> chunk[k] == rucksacks[i + k]
  {
    rucksacks[i..if i + size < |rucksacks| then i + size else |rucksacks|]
  }

  /** Keys found so far, followed by whatever the rest of the loop yields. */
  function Prepend(keys: seq<char>, r: Result<seq<char>>): Result<seq<char>>
  {
    match r
    case Ok(rest) => Ok(keys + rest)
    case Error(e) => Error(e)
  }

  function OptionSeq(o: Option<char>): (s: seq<char>)
    ensures |s| <= 1
  {
    match o
    case None => []
    case Some(c) => [c]
  }

  /** The keys the chunks starting at `i`, `i + size`, ... contribute, or the first error. */
  function GroupKeysFrom(rucksacks: seq<string>, size: nat, i: nat): Result<seq<char>>
    requires size >= 1
    decreases |rucksacks| - i
  {
    if i >= |rucksacks| then Ok([])
    else
      match ChunkKey(Chunk(rucksacks, size, i))
      case Error(e) => Error(e)
      case Ok(key) => Prepend(OptionSeq(key), GroupKeysFrom(rucksacks, size, i + size))
  }

  /** The inner loop of `findGroupKeys` over one chunk, ending at the first common item with `break`. */
  method SearchChunk(chunk: seq<string>) returns (r: Result<Option<char>>)
    requires |chunk| >= 1
    ensures r == ChunkKey(chunk)
  {
    var first := chunk[0];
    var j := 0;
    while j < |first|
      invariant 0 <= j <= |first|
      invariant ChunkKey(chunk) == ChunkKeyFrom(chunk, j)
    {
      var ch := first[j];
      if |chunk| < 2 {
        return Error("TypeError");
      }
      if ch in chunk[1] {
        if |chunk| < 3 {
          return Error("TypeError");
        }
        if ch in chunk[2] {
          return Ok(Some(ch));
        }
      }
      j := j + 1;
    }
    return Ok(None);
  }

  /** One pass of the outer loop: the chunk at `i` adds its key, if any, to those found so far. */
  lemma GroupKeysStep(rucksacks: seq<string>, size: nat, i: nat, keys: seq<char>, key: Option<char>)
    requires size >= 1 && i < |rucksacks|
    requires ChunkKey(Chunk(rucksacks, size, i)) == Ok(key)
    ensures Prepend(keys, GroupKeysFrom(rucksacks, size, i))
      == Prepend(keys + OptionSeq(key), GroupKeysFrom(rucksacks, size, i + size))
  {
    match GroupKeysFrom(rucksacks, size, i + size)
    case Error(e) =>
    case Ok(rest) =>
      assert keys + (OptionSeq(key) + rest) == keys + OptionSeq(key) + rest;
  }

  /** `findGroupKeys(rucksacks, chunkSize)`: one loop over the chunks, collecting one key at most from each. */
  method FindGroupKeys(rucksacks: seq<string>, chunkSize: int) returns (r: Result<seq<char>>)
    requires chunkSize >= 1
    ensures r == GroupKeysFrom(rucksacks, chunkSize, 0)
  {
    var keys: seq<char> := [];
    var i := 0;
    match GroupKeysFrom(rucksacks, chunkSize, 0) {
      case Error(_) =>
      case Ok(all) => assert [] + all == all;
    }
    while i < |rucksacks|
      invariant GroupKeysFrom(rucksacks, chunkSize, 0) == Prepend(keys, GroupKeysFrom(rucksacks, chunkSize, i))
      decreases |rucksacks| - i
    {
      var chunk := Chunk(rucksacks, chunkSize, i);
      var found := SearchChunk(chunk);
      if found.Error? {
        return Error(found.message);
      }
      GroupKeysStep(rucksacks, chunkSize, i, keys, found.value);
      keys := keys + OptionSeq(found.value);
      i := i + chunkSize;
    }
    assert keys + [] == keys;
    return Ok(keys);
  }

  /** The number of chunks of `size` rucksacks from position `i` on, the last possibly short. */
  function ChunkCount(n: nat, size: nat, i: nat): nat
    requires size >= 1
    decreases n - i
  {
    if i >= n then 0 else 1 + ChunkCount(n, size, i + size)
  }

  /**
   * `c` is the key of the chunk `q` chunks after position `i`: that chunk
   * starts at `i + q * size`, and `c` is in all three of its rucksacks.
   */
  predicate KeyOfChunk(rucksacks: seq<string>, size: nat, i: nat, q: nat, c: char)
    requires size >= 1
  {
    var k := i + q * size;
    k + 2 < |rucksacks| && ChunkKey(Chunk(rucksacks, size, k)) == Ok(Some(c))
    && c in rucksacks[k] && c in rucksacks[k + 1] && c in rucksacks[k + 2]
  }

  /** At most one key per chunk, and every key is the key of one of the chunks, held by all three of its rucksacks. */
  lemma {:induction false} GroupKeysSpec(rucksacks: seq<string>, size: nat, i: nat)
    requires size >= 1
    ensures var r := GroupKeysFrom(rucksacks, size, i);
      r.Ok? ==> (|r.value| <= ChunkCount(|rucksacks|, size, i)
        && forall c :: c in r.value ==> exists q: nat :: KeyOfChunk(rucksacks, size, i, q, c))
    decreases |rucksacks| - i
  {
    if i < |rucksacks| {
      GroupKeysSpec(rucksacks, size, i + size);
      var chunk := Chunk(rucksacks, size, i);
      var key := ChunkKey(chunk);
      if key.Ok? {
        var rest := GroupKeysFrom(rucksacks, size, i + size);
        if rest.Ok? {
          forall c | c in rest.value ensures exists q: nat :: KeyOfChunk(rucksacks, size, i, q, c) {
            var q: nat :| KeyOfChunk(rucksacks, size, i + size, q, c);
            assert i + (q + 1) * size == (i + size) + q * size;
            assert KeyOfChunk(rucksacks, size, i, q + 1, c);
          }
        }
        if key.value.Some? {
          var j :| 0 <= j < |chunk[0]| && chunk[0][j] == key.value.value && CommonAt(chunk, j);
          assert chunk[1] == rucksacks[i + 1] && chunk[2] == rucksacks[i + 2];
          assert KeyOfChunk(rucksacks, size, i, 0, key.value.value);
        }
      }
    }
  }

  /** With chunks of at least three that divide the list evenly, `findGroupKeys` never throws. */
  lemma GroupKeysNoError(rucksacks: seq<string>, size: nat)
    requires size >= 3 && |rucksacks| % size == 0
    ensures GroupKeysFrom(rucksacks, size, 0).Ok?
  {
    var q := |rucksacks| / size;
    assert 0 + q * size == |rucksacks|;
    WholeChunksNoError(rucksacks, size, 0, q);
  }

  lemma {:induction false} WholeChunksNoError(rucksacks: seq<string>, size: nat, i: nat, q: nat)
    requires size >= 3 && i + q * size == |rucksacks|
    ensures GroupKeysFrom(rucksacks, size, i).Ok?
    decreases q
  {
    if q > 0 {
      assert (i + size) + (q - 1) * size == |rucksacks|;
      WholeChunksNoError(rucksacks, size, i + size, q - 1);
    }
  }

  // ---------------------------------------------------------------------
  // Priorities
  // ---------------------------------------------------------------------

  predicate IsLetter(c: char)
  {
    'a' <= c <= 'z' || 'A' <= c <= 'Z'
  }

  /** The priority of one item: a code at or above 'a' counts from 1, anything else from 27 at 'A'. */
  function Priority(c: char): (p: int)
    ensures 'a' <= c <= 'z' ==> p == c as int - 'a' as int + 1
    ensures 'A' <= c <= 'Z' ==> p == c as int - 'A' as int + 27
    ensures IsLetter(c) ==> 1 <= p <= 52
  {
    var code := c as int;
    if code >= A_CODE then code - 96 else code - 38
  }

  /** The item of a given priority: the inverse of `Priority` on letters. */
  function ItemOf(p: int): (c: char)
    requires 1 <= p <= 52
    ensures IsLetter(c)
  {
    if p <= 26 then ('a' as int + p - 1) as char else ('A' as int + p - 27) as char
  }

  /** Priorities name letters one to one: 52 letters, 52 priorities. */
  lemma PriorityRoundTrip(c: char, p: int)
    ensures IsLetter(c) ==> ItemOf(Priority(c)) == c
    ensures 1 <= p <= 52 ==> Priority(ItemOf(p)) == p
  {
  }

  /** `sumPriorities`: the priorities of all items, added left to right; 1 to 52 per letter. */
  function SumPriorities(items: seq<char>): (total: int)
    ensures (forall k :: 0 <= k < |items| ==> IsLetter(items[k])) ==> |items| <= total <= 52 * |items|
  {
    var ps := seq(|items|, k requires 0 <= k < |items| => Priority(items[k]));
    assert (forall k :: 0 <= k < |items| ==> IsLetter(items[k])) ==> |items| <= Sum(ps) <= 52 * |items| by {
      if forall k :: 0 <= k < |items| ==> IsLetter(items[k]) {
        SumBounds(ps, 1, 52);
      }
    }
    Sum(ps)
  }

  /** Adding one more item adds exactly its priority. */
  lemma SumPrioritiesAppend(items: seq<char>, c: char)
    ensures SumPriorities(items + [c]) == SumPriorities(items) + Priority(c)
  {
    var all := items + [c];
    var ps := seq(|all|, k requires 0 <= k < |all| => Priority(all[k]));
    assert ps[..|items|] == seq(|items|, k requires 0 <= k < |items| => Priority(items[k]));
  }
}
