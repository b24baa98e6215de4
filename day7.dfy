/**
 * Day 7, no space left on device.  A terminal trace of `$ cd` and `$ ls`
 * commands and their listings is replayed into a directory tree; every
 * directory's size is the total of the files below it.  Part 1 sums the
 * sizes of the directories of at most 100000; part 2 picks the smallest
 * directory whose deletion frees enough space.
 *
 * The directories live in one sequence and refer to each other by index:
 * index 0 is the root, and a directory's parent always has a smaller
 * index than the directory itself, since a directory is only created
 * inside one that already exists.
 */
module Day7 {
  import opened Text
  import opened Lists

  datatype File = File(name: string, size: int)

  /**
   * A directory: its name, its parent (none for the root), its
   * subdirectories by name and in the order they were created (the order
   * of `Object.values`), its files, and its size.
   */
  datatype Dir = Dir(
    name: string,
    parent: Option<nat>,
    children: map<string, nat>,
    order: seq<nat>,
    files: seq<File>,
    size: int)

  /** A directory as `dir name` creates it: empty, of size 0. */
  function NewDir(name: string, parent: Option<nat>): Dir
  {
    Dir(name, parent, map[], [], [], 0)
  }

  // ---------------------------------------------------------------------
  // The shape of the tree
  // ---------------------------------------------------------------------

  /** Only the root lacks a parent, and every parent comes before its child. */
  predicate Rooted(dirs: seq<Dir>)
  {
    |dirs| >= 1 && dirs[0].parent.None?
    && forall i :: 0 < i < |dirs| ==> dirs[i].parent.Some? && dirs[i].parent.value < i
  }

  /** Directory `j` is `i` or lies somewhere below it. */
  predicate Under(dirs: seq<Dir>, j: nat, i: nat)
    requires Rooted(dirs) && j < |dirs|
    decreases j
  {
    j == i || (j > 0 && Under(dirs, dirs[j].parent.value, i))
  }

  /** Two versions of the tree whose first `n` directories have the same parents. */
  predicate LinksAgree(a: seq<Dir>, b: seq<Dir>, n: nat)
  {
    n <= |a| && n <= |b| && forall k :: 0 <= k < n ==> a[k].parent == b[k].parent
  }

  /** Only the links decide what lies below what. */
  lemma {:induction false} UnderSameLinks(a: seq<Dir>, b: seq<Dir>, j: nat, i: nat)
    requires Rooted(a) && Rooted(b) && j < |a| && LinksAgree(a, b, j + 1)
    ensures Under(a, j, i) <==> Under(b, j, i)
    decreases j
  {
    if j > 0 {
      UnderSameLinks(a, b, a[j].parent.value, i);
    }
  }

  /** Every listed subdirectory exists and names the directory as its parent. */
  predicate ChildrenLinked(dirs: seq<Dir>)
  {
    forall i, k :: 0 <= i < |dirs| && 0 <= k < |dirs[i].order| ==>
      0 < dirs[i].order[k] < |dirs| && dirs[dirs[i].order[k]].parent == Some(i)
  }

  /** Every directory but the root is listed by its parent. */
  predicate ParentsList(dirs: seq<Dir>)
    requires Rooted(dirs)
  {
    forall c :: 0 < c < |dirs| ==> c in dirs[dirs[c].parent.value].order
  }

  /** No subdirectory is listed twice, and the ones found by name are listed. */
  predicate Listed(dirs: seq<Dir>)
  {
    (forall i, k, m :: 0 <= i < |dirs| && 0 <= k < m < |dirs[i].order| ==>
      dirs[i].order[k] != dirs[i].order[m])
    && (forall i, name :: 0 <= i < |dirs| && name in dirs[i].children ==>
      dirs[i].children[name] in dirs[i].order)
  }

  /** A directory's subdirectories are exactly the directories naming it as parent. */
  predicate Shaped(dirs: seq<Dir>)
  {
    Rooted(dirs) && ChildrenLinked(dirs) && ParentsList(dirs) && Listed(dirs)
  }

  /** What lies below `i` has an index no smaller than `i`. */
  lemma {:induction false} UnderAbove(dirs: seq<Dir>, j: nat, i: nat)
    requires Rooted(dirs) && j < |dirs|
    ensures Under(dirs, j, i) ==> i <= j
    decreases j
  {
    if j != i && j > 0 {
      UnderAbove(dirs, dirs[j].parent.value, i);
    }
  }

  /** Every directory lies below the root. */
  lemma {:induction false} UnderRoot(dirs: seq<Dir>, j: nat)
    requires Rooted(dirs) && j < |dirs|
    ensures Under(dirs, j, 0)
    decreases j
  {
    if j > 0 {
      UnderRoot(dirs, dirs[j].parent.value);
    }
  }

  /** What lies below something below `i` lies below `i`. */
  lemma {:induction false} UnderTransitive(dirs: seq<Dir>, j: nat, k: nat, i: nat)
    requires Rooted(dirs) && j < |dirs| && k < |dirs|
    ensures Under(dirs, j, k) && Under(dirs, k, i) ==> Under(dirs, j, i)
    decreases j
  {
    if j != k && j > 0 {
      UnderTransitive(dirs, dirs[j].parent.value, k, i);
    }
  }

  /** Below a directory other than itself means below one of its subdirectories. */
  lemma {:induction false} UnderSomeChild(dirs: seq<Dir>, j: nat, s: nat)
    requires Shaped(dirs) && j < |dirs| && s < |dirs|
    requires Under(dirs, j, s) && j != s
    ensures exists c :: c in dirs[s].order && Under(dirs, j, c)
    decreases j
  {
    var p := dirs[j].parent.value;
    if p == s {
      assert j in dirs[s].order;
    } else {
      UnderSomeChild(dirs, p, s);
      var c :| c in dirs[s].order && Under(dirs, p, c);
      var k :| 0 <= k < |dirs[s].order| && dirs[s].order[k] == c;
      UnderAbove(dirs, p, c);
    }
  }

  /**
   * The ancestors of `a` form a chain: those below `cur`'s index, where
   * `cur` is itself an ancestor of `a`, are the ancestors of `cur`'s parent.
   */
  lemma {:induction false} AncestorsBelow(dirs: seq<Dir>, a: nat, cur: nat, i: nat)
    requires Rooted(dirs) && a < |dirs| && cur < |dirs|
    ensures Under(dirs, a, cur) && Under(dirs, a, i) && i < cur ==> cur > 0 && Under(dirs, dirs[cur].parent.value, i)
    decreases a
  {
    UnderAbove(dirs, a, cur);
    if a != cur && a > 0 {
      AncestorsBelow(dirs, dirs[a].parent.value, cur, i);
    }
  }

  // ---------------------------------------------------------------------
  // Sizes
  // ---------------------------------------------------------------------

  /** The total size of a list of files. */
  function FilesSize(files: seq<File>): int
  {
    if |files| == 0 then 0 else FilesSize(files[..|files| - 1]) + files[|files| - 1].size
  }

  lemma FilesSizeAppend(files: seq<File>, f: File)
    ensures FilesSize(files + [f]) == FilesSize(files) + f.size
  {
    assert (files + [f])[..|files|] == files;
  }

  /** The files held directly by the directories `j < n` that lie below `i`. */
  function Below(dirs: seq<Dir>, i: nat, n: nat): int
    requires Rooted(dirs) && n <= |dirs|
  {
    if n == 0 then 0
    else Below(dirs, i, n - 1) + (if Under(dirs, n - 1, i) then FilesSize(dirs[n - 1].files) else 0)
  }

  /** The files held directly by the directories `j < n`. */
  function Total(dirs: seq<Dir>, n: nat): int
    requires n <= |dirs|
  {
    if n == 0 then 0 else Total(dirs, n - 1) + FilesSize(dirs[n - 1].files)
  }

  /** Every directory's size is the total of the files anywhere below it. */
  predicate Sized(dirs: seq<Dir>)
    requires Rooted(dirs)
  {
    forall i :: 0 <= i < |dirs| ==> dirs[i].size == Below(dirs, i, |dirs|)
  }

  /** Below the root lie all the files of the tree. */
  lemma {:induction false} BelowRoot(dirs: seq<Dir>, n: nat)
    requires Rooted(dirs) && n <= |dirs|
    ensures Below(dirs, 0, n) == Total(dirs, n)
  {
    if n > 0 {
      BelowRoot(dirs, n - 1);
      UnderRoot(dirs, n - 1);
    }
  }

  /** In a sized tree the root's size is the total of all files. */
  lemma RootSize(dirs: seq<Dir>)
    requires Rooted(dirs) && Sized(dirs)
    ensures dirs[0].size == Total(dirs, |dirs|)
  {
    BelowRoot(dirs, |dirs|);
  }

  // ---------------------------------------------------------------------
  // Adding a file
  // ---------------------------------------------------------------------

  /**
   * File `f` appended to directory `a`, and its size added to every
   * directory from `a` up the parent chain whose index is at least `lo`.
   */
  function Raised(dirs: seq<Dir>, a: nat, f: File, lo: nat): (r: seq<Dir>)
    requires Rooted(dirs) && a < |dirs|
    ensures |r| == |dirs| && LinksAgree(dirs, r, |dirs|)
  {
    seq(|dirs|, i requires 0 <= i < |dirs| =>
      var d := if i == a then dirs[i].(files := dirs[i].files + [f]) else dirs[i];
      if Under(dirs, a, i) && lo <= i then d.(size := d.size + f.size) else d)
  }

  /** A file listed in directory `a`: it joins `a` and counts towards `a` and every directory above. */
  function AddedFile(dirs: seq<Dir>, a: nat, f: File): (r: seq<Dir>)
    requires Rooted(dirs) && a < |dirs|
    ensures |r| == |dirs| && LinksAgree(dirs, r, |dirs|) && Rooted(r)
    ensures forall i :: 0 <= i < |dirs| ==>
      r[i].parent == dirs[i].parent && r[i].order == dirs[i].order && r[i].children == dirs[i].children
  {
    Raised(dirs, a, f, 0)
  }

  lemma {:induction false} BelowAdded(dirs: seq<Dir>, a: nat, f: File, i: nat, n: nat)
    requires Rooted(dirs) && a < |dirs| && n <= |dirs|
    ensures Below(AddedFile(dirs, a, f), i, n)
      == Below(dirs, i, n) + (if a < n && Under(dirs, a, i) then f.size else 0)
  {
    if n > 0 {
      BelowAdded(dirs, a, f, i, n - 1);
      UnderSameLinks(dirs, AddedFile(dirs, a, f), n - 1, i);
      if n - 1 == a {
        FilesSizeAppend(dirs[a].files, f);
      }
    }
  }

  lemma {:induction false} TotalAdded(dirs: seq<Dir>, a: nat, f: File, n: nat)
    requires Rooted(dirs) && a < |dirs| && n <= |dirs|
    ensures Total(AddedFile(dirs, a, f), n) == Total(dirs, n) + (if a < n then f.size else 0)
  {
    if n > 0 {
      TotalAdded(dirs, a, f, n - 1);
      if n - 1 == a {
        FilesSizeAppend(dirs[a].files, f);
      }
    }
  }

  /** Changing only files and sizes keeps the shape of the tree. */
  lemma ShapeUnchanged(a: seq<Dir>, b: seq<Dir>)
    requires Shaped(a) && |a| == |b|
    requires forall i :: 0 <= i < |a| ==>
      b[i].parent == a[i].parent && b[i].order == a[i].order && b[i].children == a[i].children
    ensures Shaped(b)
  {
  }

  /** Adding a file keeps every size correct. */
  lemma AddedFileSized(dirs: seq<Dir>, a: nat, f: File)
    requires Rooted(dirs) && Sized(dirs) && a < |dirs|
    ensures Rooted(AddedFile(dirs, a, f)) && Sized(AddedFile(dirs, a, f))
  {
    var r := AddedFile(dirs, a, f);
    forall i | 0 <= i < |r| ensures r[i].size == Below(r, i, |r|) {
      BelowAdded(dirs, a, f, i, |dirs|);
    }
  }

  /** Adding a file keeps the tree's shape and every size correct, and adds its size to the total. */
  lemma AddedFileKeeps(dirs: seq<Dir>, a: nat, f: File)
    requires Shaped(dirs) && Sized(dirs) && a < |dirs|
    ensures Shaped(AddedFile(dirs, a, f)) && Sized(AddedFile(dirs, a, f))
    ensures Total(AddedFile(dirs, a, f), |dirs|) == Total(dirs, |dirs|) + f.size
  {
    ShapeUnchanged(dirs, AddedFile(dirs, a, f));
    AddedFileSized(dirs, a, f);
    TotalAdded(dirs, a, f, |dirs|);
  }

  // ---------------------------------------------------------------------
  // Adding a directory
  // ---------------------------------------------------------------------

  /**
   * The properties every plain object inherits from `Object.prototype`:
   * looking one of these names up in a directory's `directories` object
   * finds a function or an object rather than `undefined`.
   */
  const INHERITED: set<string> := {
    "constructor", "__defineGetter__", "__defineSetter__", "hasOwnProperty",
    "__lookupGetter__", "__lookupSetter__", "isPrototypeOf", "propertyIsEnumerable",
    "toString", "valueOf", "__proto__", "toLocaleString"}

  /** Looking `name` up in the subdirectories of `d` finds something other than `undefined`. */
  predicate Present(d: Dir, name: string)
  {
    name in d.children || name in INHERITED
  }

  /**
   * `dir name` listed in directory `a`: a new empty directory joins the
   * end of the tree with `a` as parent, unless the lookup of that name
   * already finds something: a subdirectory of that name, or an inherited
   * property, which is never replaced.
   */
  function WithDir(dirs: seq<Dir>, a: nat, name: string): (r: seq<Dir>)
    requires a < |dirs|
    ensures Present(dirs[a], name) ==> r == dirs
    ensures !Present(dirs[a], name) ==>
      (|r| == |dirs| + 1 && LinksAgree(dirs, r, |dirs|) && r[|dirs|] == NewDir(name, Some(a))
      && r[a].children == dirs[a].children[name := |dirs|] && r[a].order == dirs[a].order + [|dirs|]
      && forall i :: 0 <= i < |dirs| && i != a ==> r[i] == dirs[i])
  {
    if Present(dirs[a], name) then dirs
    else
      var c := |dirs|;
      dirs[a := dirs[a].(children := dirs[a].children[name := c], order := dirs[a].order + [c])] + [NewDir(name, Some(a))]
  }

  /** The files held below `i` by the first `n` directories depend only on their links and files. */
  lemma {:induction false} BelowAgree(a: seq<Dir>, b: seq<Dir>, i: nat, n: nat)
    requires Rooted(a) && Rooted(b) && LinksAgree(a, b, n)
    requires forall k :: 0 <= k < n ==> a[k].files == b[k].files
    ensures Below(a, i, n) == Below(b, i, n)
  {
    if n > 0 {
      BelowAgree(a, b, i, n - 1);
      UnderSameLinks(a, b, n - 1, i);
    }
  }

  lemma {:induction false} TotalAgree(a: seq<Dir>, b: seq<Dir>, n: nat)
    requires n <= |a| && n <= |b|
    requires forall k :: 0 <= k < n ==> a[k].files == b[k].files
    ensures Total(a, n) == Total(b, n)
  {
    if n > 0 {
      TotalAgree(a, b, n - 1);
    }
  }

  /** Nothing before a directory lies below it. */
  lemma {:induction false} BelowBefore(dirs: seq<Dir>, i: nat, n: nat)
    requires Rooted(dirs) && n <= |dirs| && n <= i
    ensures Below(dirs, i, n) == 0
  {
    if n > 0 {
      BelowBefore(dirs, i, n - 1);
      if Under(dirs, n - 1, i) {
        UnderAbove(dirs, n - 1, i);
      }
    }
  }

  lemma WithDirRooted(dirs: seq<Dir>, a: nat, name: string)
    requires Rooted(dirs) && a < |dirs|
    ensures Rooted(WithDir(dirs, a, name))
  {
  }

  /** A new directory is empty, so every size stays correct and the total is unchanged. */
  lemma WithDirSized(dirs: seq<Dir>, a: nat, name: string)
    requires Rooted(dirs) && Sized(dirs) && a < |dirs|
    ensures Rooted(WithDir(dirs, a, name)) && Sized(WithDir(dirs, a, name))
    ensures Total(WithDir(dirs, a, name), |WithDir(dirs, a, name)|) == Total(dirs, |dirs|)
  {
    var r := WithDir(dirs, a, name);
    WithDirRooted(dirs, a, name);
    if !Present(dirs[a], name) {
      var c := |dirs|;
      assert forall k :: 0 <= k < c ==> r[k].files == dirs[k].files;
      forall i | 0 <= i < |r| ensures r[i].size == Below(r, i, |r|) {
        if i < c {
          BelowAgree(dirs, r, i, c);
        } else {
          BelowBefore(r, c, c);
        }
      }
      TotalAgree(dirs, r, c);
    }
  }

  /** A new directory is linked both ways with its parent, so the shape is kept. */
  lemma WithDirShaped(dirs: seq<Dir>, a: nat, name: string)
    requires Shaped(dirs) && a < |dirs|
    ensures Shaped(WithDir(dirs, a, name))
  {
    WithDirRooted(dirs, a, name);
    WithDirLinked(dirs, a, name);
    WithDirParents(dirs, a, name);
    WithDirListed(dirs, a, name);
  }

  lemma WithDirLinked(dirs: seq<Dir>, a: nat, name: string)
    requires ChildrenLinked(dirs) && a < |dirs|
    ensures ChildrenLinked(WithDir(dirs, a, name))
  {
    var r := WithDir(dirs, a, name);
    if !Present(dirs[a], name) {
      forall i, k | 0 <= i < |r| && 0 <= k < |r[i].order|
        ensures 0 < r[i].order[k] < |r| && r[r[i].order[k]].parent == Some(i)
      {
        if i < |dirs| && !(i == a && k == |dirs[a].order|) {
          assert r[i].order[k] == dirs[i].order[k];
        }
      }
    }
  }

  lemma WithDirParents(dirs: seq<Dir>, a: nat, name: string)
    requires Rooted(dirs) && ParentsList(dirs) && a < |dirs|
    ensures Rooted(WithDir(dirs, a, name)) && ParentsList(WithDir(dirs, a, name))
  {
    var r := WithDir(dirs, a, name);
    WithDirRooted(dirs, a, name);
    if !Present(dirs[a], name) {
      forall j | 0 < j < |r| ensures j in r[r[j].parent.value].order {
        if j < |dirs| {
          var p := dirs[j].parent.value;
          assert j in dirs[p].order;
        }
      }
    }
  }

  lemma WithDirListed(dirs: seq<Dir>, a: nat, name: string)
    requires ChildrenLinked(dirs) && Listed(dirs) && a < |dirs|
    ensures Listed(WithDir(dirs, a, name))
  {
    var r := WithDir(dirs, a, name);
    if !Present(dirs[a], name) {
      var c := |dirs|;
      assert c !in dirs[a].order;
      forall i, name' | 0 <= i < |r| && name' in r[i].children ensures r[i].children[name'] in r[i].order {
        if i == a && name' != name {
          assert dirs[a].children[name'] in dirs[a].order;
        }
      }
    }
  }

  // ---------------------------------------------------------------------
  // Replaying the trace
  // ---------------------------------------------------------------------

  /**
   * What `activeDir` holds: a directory of the tree; `undefined`, once `cd`
   * has gone to a name that is not there; or, after `cd` to an inherited
   * name, a function or object that is no directory: it has no `parent`,
   * no `directories` and no `files`.
   */
  datatype Cursor = At(index: nat) | Undefined | Inherited

  /** The tree, and the current directory. */
  datatype State = State(dirs: seq<Dir>, active: Cursor)

  /** A well-formed tree with correct sizes, and a current directory inside it. */
  predicate Consistent(st: State)
  {
    Shaped(st.dirs) && Sized(st.dirs) && (st.active.At? ==> st.active.index < |st.dirs|)
  }

  /** The state before the first line: the root alone, and current. */
  function Start(): (st: State)
    ensures Consistent(st) && Total(st.dirs, |st.dirs|) == 0
  {
    var st := State([NewDir("/", None)], At(0));
    assert Below(st.dirs, 0, 1) == 0 by {
      assert Below(st.dirs, 0, 0) == 0;
    }
    st
  }

  /** What reading a property of `undefined` throws. */
  const TYPE_ERROR := "TypeError: Cannot read properties of undefined"

  /** `parts[k]` used as a property name: a missing part is the key "undefined". */
  function Word(parts: seq<string>, k: nat): string
  {
    if k < |parts| then parts[k] else "undefined"
  }

  /** A listing line giving a file, rather than a command or a `dir`. */
  predicate IsFileLine(parts: seq<string>)
  {
    |parts| >= 1 && parts[0] != "$" && parts[0] != "dir"
  }

  /** A line whose file size, if it gives one, `parseInt` reads as a number. */
  predicate Readable(parts: seq<string>)
  {
    |parts| >= 1 && (IsFileLine(parts) ==> ParseInt(parts[0]).Some?)
  }

  /** `cd ..`: the parent, or the root when at the root. */
  function Up(dirs: seq<Dir>, a: nat): (p: nat)
    requires Rooted(dirs) && a < |dirs|
    ensures p < |dirs| && (a == 0 ==> p == 0) && (a > 0 ==> Some(p) == dirs[a].parent)
  {
    match dirs[a].parent
    case None => 0
    case Some(p) => p
  }

  /**
   * The new current directory after `cd target`.  Reading `parent` or
   * `directories` of `undefined` throws; an inherited value has neither,
   * so `cd ..` takes it to the root and `cd name` throws.
   */
  function Cd(st: State, target: string): (r: Result<Cursor>)
    requires Consistent(st)
    ensures r.Ok? && r.value.At? ==> r.value.index < |st.dirs|
  {
    if target == ".." then
      match st.active
      case Undefined => Error(TYPE_ERROR)
      case Inherited => Ok(At(0))
      case At(a) => Ok(At(Up(st.dirs, a)))
    else if target == "/" then Ok(At(0))
    else if !st.active.At? then Error(TYPE_ERROR)
    else
      var children := st.dirs[st.active.index].children;
      if target in children then
        assert children[target] in st.dirs[st.active.index].order;
        Ok(At(children[target]))
      else if target in INHERITED then Ok(Inherited)
      else Ok(Undefined)
  }

  /** The size a listing line adds: its file's size, or nothing. */
  function FileSize(parts: seq<string>): int
    requires Readable(parts)
  {
    if IsFileLine(parts) then ParseInt(parts[0]).value else 0
  }

  /** One line of the trace, split at its spaces, applied to the state. */
  function Apply(st: State, parts: seq<string>): (r: Result<State>)
    requires Consistent(st) && Readable(parts)
    ensures r.Error? ==> r.message == TYPE_ERROR
    ensures r.Ok? ==> Consistent(r.value)
    ensures r.Ok? ==> Total(r.value.dirs, |r.value.dirs|) == Total(st.dirs, |st.dirs|) + FileSize(parts)
  {
    if parts[0] == "$" then
      if |parts| >= 2 && parts[1] == "cd" then
        match Cd(st, Word(parts, 2))
        case Error(e) => Error(e)
        case Ok(active) => Ok(st.(active := active))
      else Ok(st)
    else if !st.active.At? then Error(TYPE_ERROR)
    else
      var a := st.active.index;
      if parts[0] == "dir" then
        WithDirShaped(st.dirs, a, Word(parts, 1));
        WithDirSized(st.dirs, a, Word(parts, 1));
        Ok(st.(dirs := WithDir(st.dirs, a, Word(parts, 1))))
      else
        var f := File(Word(parts, 1), ParseInt(parts[0]).value);
        AddedFileKeeps(st.dirs, a, f);
        Ok(st.(dirs := AddedFile(st.dirs, a, f)))
  }

  /** The lines applied in turn; the first error stops the replay. */
  function Run(st: State, lines: seq<seq<string>>): (r: Result<State>)
    requires Consistent(st) && forall i :: 0 <= i < |lines| ==> Readable(lines[i])
    ensures r.Ok? ==> Consistent(r.value)
    ensures r.Error? ==> r.message == TYPE_ERROR
    decreases |lines|
  {
    if |lines| == 0 then Ok(st)
    else
      match Apply(st, lines[0])
      case Error(e) => Error(e)
      case Ok(next) => Run(next, lines[1..])
  }

  /** The replay applies the first line, and goes on from its result unless it threw. */
  lemma RunFirst(st: State, lines: seq<seq<string>>)
    requires Consistent(st) && |lines| > 0 && forall i :: 0 <= i < |lines| ==> Readable(lines[i])
    ensures Apply(st, lines[0]).Error? ==> Run(st, lines) == Error(TYPE_ERROR)
    ensures Apply(st, lines[0]).Ok? ==> Run(st, lines) == Run(Apply(st, lines[0]).value, lines[1..])
  {
  }

  /** The file sizes the trace lists, line by line. */
  function ListedSizes(lines: seq<seq<string>>): (sizes: seq<int>)
    requires forall i :: 0 <= i < |lines| ==> Readable(lines[i])
    ensures |sizes| == |lines|
    ensures forall i :: 0 <= i < |lines| ==> sizes[i] == FileSize(lines[i])
  {
    seq(|lines|, i requires 0 <= i < |lines| => FileSize(lines[i]))
  }

  /** The replay adds exactly the listed file sizes to the total. */
  lemma {:induction false} RunTotal(st: State, lines: seq<seq<string>>)
    requires Consistent(st) && forall i :: 0 <= i < |lines| ==> Readable(lines[i])
    ensures Run(st, lines).Ok? ==>
      Total(Run(st, lines).value.dirs, |Run(st, lines).value.dirs|) == Total(st.dirs, |st.dirs|) + Sum(ListedSizes(lines))
    decreases |lines|
  {
    if |lines| > 0 && Apply(st, lines[0]).Ok? {
      var next := Apply(st, lines[0]).value;
      RunTotal(next, lines[1..]);
      assert ListedSizes(lines) == [FileSize(lines[0])] + ListedSizes(lines[1..]);
      SumAppend([FileSize(lines[0])], ListedSizes(lines[1..]));
      SumSingle(FileSize(lines[0]));
    }
  }

  /** After a successful replay the root's size is the total of every file the trace lists. */
  lemma RootHoldsListedFiles(lines: seq<seq<string>>)
    requires forall i :: 0 <= i < |lines| ==> Readable(lines[i])
    ensures Run(Start(), lines).Ok? ==> Run(Start(), lines).value.dirs[0].size == Sum(ListedSizes(lines))
  {
    var st := Start();
    var r := Run(st, lines);
    RunTotal(st, lines);
    if r.Ok? {
      RootSize(r.value.dirs);
    }
  }

  /**
   * `cd ..` at the root stays at the root, and takes an inherited value,
   * which has no parent, to the root; `cd /` always returns to the root.
   */
  lemma CdUpAndHome(st: State)
    requires Consistent(st)
    ensures st.active == At(0) ==> Apply(st, ["$", "cd", ".."]) == Ok(st)
    ensures st.active == Inherited ==> Apply(st, ["$", "cd", ".."]) == Ok(st.(active := At(0)))
    ensures Apply(st, ["$", "cd", "/"]) == Ok(st.(active := At(0)))
  {
  }

  /** `cd ..` below the root moves to the parent. */
  lemma CdUpToParent(st: State, a: nat)
    requires Consistent(st) && st.active == At(a) && a > 0
    ensures Apply(st, ["$", "cd", ".."]) == Ok(st.(active := At(st.dirs[a].parent.value)))
  {
  }

  /**
   * `cd name` moves to the subdirectory of that name, which lists the
   * current directory as its parent; an inherited name gives the inherited
   * value; any other name leaves `undefined`, and every later listing then
   * fails until `cd /`.
   */
  lemma CdByName(st: State, a: nat, name: string)
    requires Consistent(st) && st.active == At(a) && name != ".." && name != "/"
    ensures name in st.dirs[a].children ==>
      Apply(st, ["$", "cd", name]) == Ok(st.(active := At(st.dirs[a].children[name])))
      && st.dirs[st.dirs[a].children[name]].parent == Some(a)
    ensures name !in st.dirs[a].children && name in INHERITED ==>
      Apply(st, ["$", "cd", name]) == Ok(st.(active := Inherited))
    ensures !Present(st.dirs[a], name) ==> Apply(st, ["$", "cd", name]) == Ok(st.(active := Undefined))
  {
    if name in st.dirs[a].children {
      var c := st.dirs[a].children[name];
      assert c in st.dirs[a].order;
      var k :| 0 <= k < |st.dirs[a].order| && st.dirs[a].order[k] == c;
    }
  }

  /**
   * Without a directory as the current one, `cd ..` from `undefined`,
   * `cd name`, and listing a directory or a file all throw.
   */
  lemma ListingNeedsDirectory(st: State, parts: seq<string>)
    requires Consistent(st) && Readable(parts) && !st.active.At?
    ensures parts[0] != "$" ==> Apply(st, parts) == Error(TYPE_ERROR)
    ensures parts[0] == "$" && |parts| >= 3 && parts[1] == "cd" && parts[2] != ".." && parts[2] != "/" ==>
      Apply(st, parts) == Error(TYPE_ERROR)
    ensures st.active == Undefined ==> Apply(st, ["$", "cd", ".."]) == Error(TYPE_ERROR)
  {
  }

  /** `$ ls` and every command but `cd` change nothing. */
  lemma OtherCommands(st: State, parts: seq<string>)
    requires Consistent(st) && Readable(parts) && parts[0] == "$" && (|parts| < 2 || parts[1] != "cd")
    ensures Apply(st, parts) == Ok(st)
  {
  }

  /**
   * `dir name` never replaces what the lookup already finds, an existing
   * subdirectory or an inherited property, so listing it twice is listing
   * it once.
   */
  lemma DirIdempotent(st: State, name: string)
    requires Consistent(st) && st.active.At?
    ensures Present(st.dirs[st.active.index], name) ==> Apply(st, ["dir", name]) == Ok(st)
    ensures Apply(st, ["dir", name]).Ok?
      && Apply(Apply(st, ["dir", name]).value, ["dir", name]) == Apply(st, ["dir", name])
  {
  }

  /**
   * A trace that lists `dir constructor`, moves into it and lists a file
   * throws: no directory of that name was created, and the inherited value
   * it moved to has no `files`.
   */
  lemma InheritedNameThrows()
    ensures Run(Start(), [["$", "cd", "/"], ["$", "ls"], ["dir", "constructor"],
      ["$", "cd", "constructor"], ["$", "ls"], ["100", "f"]]) == Error(TYPE_ERROR)
  {
    var st := Start();
    var rest := [["$", "cd", "constructor"], ["$", "ls"], ["100", "f"]];
    HundredReadable();
    InheritedPrefix();
    CdByName(st, 0, "constructor");
    RunFirst(st, rest);
    assert rest[1..] == [["$", "ls"], ["100", "f"]];
    InheritedFileThrows(st.(active := Inherited));
  }

  /** `cd /`, `ls` and `dir constructor` leave the starting state as it was. */
  lemma InheritedPrefix()
    ensures ParseInt("100").Some?
    ensures Run(Start(), [["$", "cd", "/"], ["$", "ls"], ["dir", "constructor"],
      ["$", "cd", "constructor"], ["$", "ls"], ["100", "f"]]) ==
      Run(Start(), [["$", "cd", "constructor"], ["$", "ls"], ["100", "f"]])
  {
    var st := Start();
    var lines := [["$", "cd", "/"], ["$", "ls"], ["dir", "constructor"],
      ["$", "cd", "constructor"], ["$", "ls"], ["100", "f"]];
    HundredReadable();
    assert Readable(lines[5]);
    CdUpAndHome(st);
    RunFirst(st, lines);
    assert lines[1..] == [["$", "ls"], ["dir", "constructor"], ["$", "cd", "constructor"], ["$", "ls"], ["100", "f"]];
    OtherCommands(st, lines[1]);
    RunFirst(st, lines[1..]);
    assert lines[2..] == [["dir", "constructor"], ["$", "cd", "constructor"], ["$", "ls"], ["100", "f"]];
    DirIdempotent(st, "constructor");
    RunFirst(st, lines[2..]);
    assert lines[3..] == [["$", "cd", "constructor"], ["$", "ls"], ["100", "f"]];
  }

  lemma HundredReadable()
    ensures ParseInt("100") == Some(100)
  {
    ParseDecimal(100);
    assert Decimal(100) == "100";
  }

  /** From an inherited value, `$ ls` and then a file line throw. */
  lemma InheritedFileThrows(inside: State)
    requires Consistent(inside) && inside.active == Inherited
    ensures ParseInt("100").Some?
    ensures Run(inside, [["$", "ls"], ["100", "f"]]) == Error(TYPE_ERROR)
  {
    HundredReadable();
    var lines := [["$", "ls"], ["100", "f"]];
    OtherCommands(inside, lines[0]);
    RunFirst(inside, lines);
    assert lines[1..] == [["100", "f"]];
    ListingNeedsDirectory(inside, lines[1]);
    RunFirst(inside, lines[1..]);
  }

  // ---------------------------------------------------------------------
  // `prepare`
  // ---------------------------------------------------------------------

  /** Directory `p` with `n` added to its size. */
  function Bumped(dirs: seq<Dir>, p: nat, n: int): (r: seq<Dir>)
    requires p < |dirs|
    ensures |r| == |dirs| && r[p].size == dirs[p].size + n
    ensures forall i :: 0 <= i < |dirs| && i != p ==> r[i] == dirs[i]
  {
    dirs[p := dirs[p].(size := dirs[p].size + n)]
  }

  /** Only directory `a` itself, with the file added, is raised from index `a` on. */
  lemma RaisedFirst(dirs: seq<Dir>, a: nat, f: File)
    requires Rooted(dirs) && a < |dirs|
    ensures Raised(dirs, a, f, a) == dirs[a := dirs[a].(files := dirs[a].files + [f], size := dirs[a].size + f.size)]
  {
    var r := Raised(dirs, a, f, a);
    forall i | 0 <= i < |dirs| && i != a ensures r[i] == dirs[i] {
      if Under(dirs, a, i) {
        UnderAbove(dirs, a, i);
      }
    }
  }

  /** Walking one step up the chain from `cur` raises exactly its parent `p` in addition. */
  lemma RaisedStep(dirs: seq<Dir>, a: nat, f: File, cur: nat, p: nat)
    requires Rooted(dirs) && a < |dirs| && cur < |dirs| && Under(dirs, a, cur)
    requires dirs[cur].parent == Some(p)
    ensures p < cur && Under(dirs, a, p)
    ensures Raised(dirs, a, f, p) == Bumped(Raised(dirs, a, f, cur), p, f.size)
  {
    var before, after := Raised(dirs, a, f, cur), Raised(dirs, a, f, p);
    var bumped := Bumped(before, p, f.size);
    assert Under(dirs, cur, p);
    UnderTransitive(dirs, a, cur, p);
    forall i | 0 <= i < |dirs| ensures after[i] == bumped[i] {
      if i == p {
        assert after[p] == before[p].(size := before[p].size + f.size);
      } else {
        RaisedElsewhere(dirs, a, f, cur, p, i);
      }
    }
    assert after == bumped;
  }

  /** One step up the chain changes no directory but the parent reached. */
  lemma RaisedElsewhere(dirs: seq<Dir>, a: nat, f: File, cur: nat, p: nat, i: nat)
    requires Rooted(dirs) && a < |dirs| && cur < |dirs| && Under(dirs, a, cur)
    requires dirs[cur].parent == Some(p) && i < |dirs| && i != p
    ensures Raised(dirs, a, f, p)[i] == Raised(dirs, a, f, cur)[i]
  {
    AncestorsBelow(dirs, a, cur, i);
    UnderAbove(dirs, p, i);
  }

  /** The tree as `prepare` builds it, one line at a time. */
  class FileSystem {
    var dirs: seq<Dir>
    var active: Cursor

    predicate Valid()
      reads this
    {
      Consistent(State(dirs, active))
    }

    /** The root alone, and current. */
    constructor ()
      ensures State(dirs, active) == Start()
    {
      dirs := [NewDir("/", None)];
      active := At(0);
    }

    /** `files.push`, then the size added to the current directory and to each parent up the chain. */
    method AddFile(f: File)
      requires Rooted(dirs) && active.At? && active.index < |dirs|
      modifies this
      ensures dirs == AddedFile(old(dirs), old(active).index, f) && active == old(active)
    {
      var a := active.index;
      ghost var start := dirs;
      assert Rooted(start) && a < |start|;
      RaisedFirst(start, a, f);
      dirs := dirs[a := dirs[a].(files := dirs[a].files + [f], size := dirs[a].size + f.size)];
      var parent := dirs[a].parent;
      ghost var cur := a;
      while parent.Some?
        invariant cur < |start| && Under(start, a, cur) && parent == start[cur].parent
        invariant dirs == Raised(start, a, f, cur) && active == old(active)
        decreases cur
      {
        var p := parent.value;
        RaisedStep(start, a, f, cur, p);
        dirs := dirs[p := dirs[p].(size := dirs[p].size + f.size)];
        parent := dirs[p].parent;
        cur := p;
      }
      assert cur == 0;
      assert dirs == AddedFile(start, a, f);
    }

    /**
     * One line of the trace, split at its spaces: `cd` moves the cursor,
     * other commands do nothing, `dir` adds a subdirectory unless the
     * lookup of its name finds something, and a file line adds the file.
     * `false` where the source throws, reading a property of an undefined
     * current directory or of an inherited value.
     */
    method ProcessLine(parts: seq<string>) returns (ok: bool)
      requires Valid() && Readable(parts)
      modifies this
      ensures ok == Apply(old(State(dirs, active)), parts).Ok?
      ensures ok ==> State(dirs, active) == Apply(old(State(dirs, active)), parts).value
    {
      if parts[0] == "$" {
        if |parts| >= 2 && parts[1] == "cd" {
          var target := Word(parts, 2);
          if target == ".." {
            match active
            case Undefined =>
              return false;
            case Inherited =>
              active := At(0);
            case At(a) =>
              var parent := dirs[a].parent;
              if parent.None? {
                active := At(0);
              } else {
                active := At(parent.value);
              }
          } else if target == "/" {
            active := At(0);
          } else {
            if !active.At? {
              return false;
            }
            var children := dirs[active.index].children;
            if target in children {
              active := At(children[target]);
            } else if target in INHERITED {
              active := Inherited;
            } else {
              active := Undefined;
            }
          }
        }
        return true;
      }
      if !active.At? {
        return false;
      }
      var a := active.index;
      if parts[0] == "dir" {
        var name := Word(parts, 1);
        if name !in dirs[a].children && name !in INHERITED {
          var c := |dirs|;
          dirs := dirs[a := dirs[a].(children := dirs[a].children[name := c], order := dirs[a].order + [c])]
            + [NewDir(name, Some(a))];
        }
      } else {
        var size := ParseInt(parts[0]).value;
        AddFile(File(Word(parts, 1), size));
      }
      return true;
    }
  }

  /** The trimmed input, line by line, each line split at its spaces. */
  function Lines(input: string): (lines: seq<seq<string>>)
    ensures |lines| == |Split(Trim(input), "\n")|
    ensures forall i :: 0 <= i < |lines| ==> lines[i] == Split(Split(Trim(input), "\n")[i], " ")
  {
    var text := Split(Trim(input), "\n");
    seq(|text|, i requires 0 <= i < |text| => Split(text[i], " "))
  }

  /**
   * `prepare`: the trace replayed from the root, giving the finished tree,
   * or the error the first failing line throws.
   */
  method Prepare(input: string) returns (r: Result<seq<Dir>>)
    requires forall i :: 0 <= i < |Lines(input)| ==> Readable(Lines(input)[i])
    ensures r.Ok? <==> Run(Start(), Lines(input)).Ok?
    ensures r.Ok? ==> r.value == Run(Start(), Lines(input)).value.dirs
    ensures r.Error? ==> r.message == Run(Start(), Lines(input)).message
  {
    var lines := Lines(input);
    var fs := new FileSystem();
    var i := 0;
    while i < |lines|
      invariant 0 <= i <= |lines| && fs.Valid()
      invariant Run(Start(), lines) == Run(State(fs.dirs, fs.active), lines[i..])
    {
      assert lines[i..][1..] == lines[i + 1..];
      RunFirst(State(fs.dirs, fs.active), lines[i..]);
      var ok := fs.ProcessLine(lines[i]);
      if !ok {
        return Error(TYPE_ERROR);
      }
      i := i + 1;
    }
    return Ok(fs.dirs);
  }

  // ---------------------------------------------------------------------
  // Searching the tree
  // ---------------------------------------------------------------------

  /** The directories at or below `initial`. */
  ghost function Subtree(dirs: seq<Dir>, initial: nat): set<nat>
    requires Rooted(dirs)
  {
    set j | 0 <= j < |dirs| && Under(dirs, j, initial)
  }

  /**
   * The state of a depth-first search from `initial`: `stack` holds
   * directories of the subtree none of which lies below another, and a
   * directory of the subtree has been visited (is in `done`) exactly when
   * it lies below nothing still on the stack.
   */
  ghost predicate Frontier(dirs: seq<Dir>, initial: nat, stack: seq<nat>, done: set<nat>)
    requires Rooted(dirs)
  {
    (forall k :: 0 <= k < |stack| ==> stack[k] < |dirs| && Under(dirs, stack[k], initial))
    && (forall k, m :: 0 <= k < |stack| && 0 <= m < |stack| && k != m ==> !Under(dirs, stack[k], stack[m]))
    && (forall j :: j in done ==> j < |dirs| && Under(dirs, j, initial))
    && (forall j :: 0 <= j < |dirs| && Under(dirs, j, initial) ==>
          (j in done <==> forall k :: 0 <= k < |stack| ==> !Under(dirs, j, stack[k])))
  }

  /** A search that starts with `initial` alone on the stack. */
  lemma FrontierStart(dirs: seq<Dir>, initial: nat)
    requires Rooted(dirs) && initial < |dirs|
    ensures Frontier(dirs, initial, [initial], {})
  {
    var stack := [initial];
    forall j | 0 <= j < |dirs| && Under(dirs, j, initial) ensures exists k :: 0 <= k < |stack| && Under(dirs, j, stack[k]) {
      assert Under(dirs, j, stack[0]);
    }
  }

  /** A search whose stack is empty has visited the whole subtree. */
  lemma FrontierEnd(dirs: seq<Dir>, initial: nat, done: set<nat>)
    requires Rooted(dirs) && Frontier(dirs, initial, [], done)
    ensures forall j :: j in done <==> 0 <= j < |dirs| && Under(dirs, j, initial)
  {
  }

  /** Visiting a directory of the subtree leaves fewer to visit. */
  lemma VisitShrinks(dirs: seq<Dir>, initial: nat, done: set<nat>, c: nat)
    requires Rooted(dirs) && c in Subtree(dirs, initial) && c !in done
    ensures |Subtree(dirs, initial) - (done + {c})| < |Subtree(dirs, initial) - done|
  {
    var left := Subtree(dirs, initial) - done;
    assert Subtree(dirs, initial) - (done + {c}) == left - {c};
  }

  /** The stack once its top is popped and the top's subdirectories pushed in their order. */
  function Popped(dirs: seq<Dir>, stack: seq<nat>): seq<nat>
    requires |stack| > 0 && stack[|stack| - 1] < |dirs|
  {
    stack[..|stack| - 1] + dirs[stack[|stack| - 1]].order
  }

  /** A directory's subdirectories come after it, so none of them is above it. */
  lemma ChildAfter(dirs: seq<Dir>, s: nat, k: nat)
    requires Shaped(dirs) && s < |dirs| && k < |dirs[s].order|
    ensures s < dirs[s].order[k] < |dirs| && Under(dirs, dirs[s].order[k], s)
    ensures !Under(dirs, s, dirs[s].order[k])
  {
    UnderAbove(dirs, s, dirs[s].order[k]);
  }

  /** Two different subdirectories of the same directory are not below one another. */
  lemma SiblingsApart(dirs: seq<Dir>, s: nat, k: nat, m: nat)
    requires Shaped(dirs) && s < |dirs| && k < |dirs[s].order| && m < |dirs[s].order| && k != m
    ensures !Under(dirs, dirs[s].order[k], dirs[s].order[m])
  {
    var c, d := dirs[s].order[k], dirs[s].order[m];
    ChildAfter(dirs, s, m);
    assert c != d && dirs[c].parent == Some(s);
    UnderAbove(dirs, s, d);
  }

  /**
   * Popping the top of the stack visits it and pushes its subdirectories
   * in their order: the result is again a search state, with one more
   * directory of the subtree visited.
   */
  lemma PopStep(dirs: seq<Dir>, initial: nat, stack: seq<nat>, done: set<nat>)
    requires Shaped(dirs) && |stack| > 0 && Frontier(dirs, initial, stack, done)
    ensures stack[|stack| - 1] !in done && stack[|stack| - 1] in Subtree(dirs, initial)
    ensures Frontier(dirs, initial, Popped(dirs, stack), done + {stack[|stack| - 1]})
  {
    var top := stack[|stack| - 1];
    var next := Popped(dirs, stack);
    assert Under(dirs, top, top);
    PopInside(dirs, initial, stack);
    forall k, m | 0 <= k < |next| && 0 <= m < |next| && k != m ensures !Under(dirs, next[k], next[m]) {
      PopApart(dirs, stack, k, m);
    }
    PopCovers(dirs, initial, stack, done);
  }

  /** After a pop, the stack still holds directories of the subtree. */
  lemma PopInside(dirs: seq<Dir>, initial: nat, stack: seq<nat>)
    requires Shaped(dirs) && |stack| > 0
    requires forall k :: 0 <= k < |stack| ==> stack[k] < |dirs| && Under(dirs, stack[k], initial)
    ensures forall k :: 0 <= k < |Popped(dirs, stack)| ==> Popped(dirs, stack)[k] < |dirs| && Under(dirs, Popped(dirs, stack)[k], initial)
  {
    var top := stack[|stack| - 1];
    var rest := stack[..|stack| - 1];
    var next := Popped(dirs, stack);
    forall k | 0 <= k < |next| ensures next[k] < |dirs| && Under(dirs, next[k], initial) {
      if k >= |rest| {
        ChildAfter(dirs, top, k - |rest|);
        UnderTransitive(dirs, next[k], top, initial);
      } else {
        assert next[k] == stack[k];
      }
    }
  }

  /** After a pop, the visited directories, with the top, are still those below nothing on the stack. */
  lemma PopCovers(dirs: seq<Dir>, initial: nat, stack: seq<nat>, done: set<nat>)
    requires Shaped(dirs) && |stack| > 0 && Frontier(dirs, initial, stack, done)
    ensures forall j :: 0 <= j < |dirs| && Under(dirs, j, initial) ==>
      (j in done + {stack[|stack| - 1]} <==> forall k :: 0 <= k < |Popped(dirs, stack)| ==> !Under(dirs, j, Popped(dirs, stack)[k]))
  {
    var top := stack[|stack| - 1];
    var next := Popped(dirs, stack);
    var done' := done + {top};
    forall j | 0 <= j < |dirs| && Under(dirs, j, initial)
      ensures j in done' <==> forall k :: 0 <= k < |next| ==> !Under(dirs, j, next[k])
    {
      if j in done {
        PopKeeps(dirs, stack, j);
      } else if j == top {
        assert forall k :: 0 <= k < |stack| - 1 ==> !Under(dirs, stack[|stack| - 1], stack[k]);
        PopKeeps(dirs, stack, j);
      } else {
        var i :| 0 <= i < |stack| && Under(dirs, j, stack[i]);
        PopFinds(dirs, stack, j, i);
      }
    }
  }

  /** After a pop, no two directories on the stack lie below one another. */
  lemma PopApart(dirs: seq<Dir>, stack: seq<nat>, k: nat, m: nat)
    requires Shaped(dirs) && |stack| > 0
    requires forall i :: 0 <= i < |stack| ==> stack[i] < |dirs|
    requires forall i, l :: 0 <= i < |stack| && 0 <= l < |stack| && i != l ==> !Under(dirs, stack[i], stack[l])
    requires k < |stack| - 1 + |dirs[stack[|stack| - 1]].order| && m < |stack| - 1 + |dirs[stack[|stack| - 1]].order| && k != m
    ensures !Under(dirs, Popped(dirs, stack)[k], Popped(dirs, stack)[m])
  {
    var last := |stack| - 1;
    var top := stack[last];
    var rest := stack[..last];
    var kids := dirs[top].order;
    var next := rest + kids;
    if k < |rest| && m < |rest| {
      assert next[k] == stack[k] && next[m] == stack[m];
    } else if k >= |rest| && m >= |rest| {
      SiblingsApart(dirs, top, k - |rest|, m - |rest|);
    } else if k < |rest| {
      // a directory left on the stack is not below a subdirectory of the top
      ChildAfter(dirs, top, m - |rest|);
      assert next[k] == stack[k] && !Under(dirs, stack[k], stack[last]);
      UnderTransitive(dirs, stack[k], next[m], top);
    } else {
      // nor is a subdirectory of the top below one left on the stack
      var c := kids[k - |rest|];
      ChildAfter(dirs, top, k - |rest|);
      assert next[m] == stack[m] && next[k] == c;
      assert !Under(dirs, stack[last], stack[m]) && !Under(dirs, stack[m], stack[last]);
      assert dirs[c].parent == Some(top);
    }
  }

  /** A directory below nothing left under the top, and not below the top unless it is the top, lies below nothing after the pop. */
  lemma PopKeeps(dirs: seq<Dir>, stack: seq<nat>, j: nat)
    requires Shaped(dirs) && |stack| > 0 && stack[|stack| - 1] < |dirs| && j < |dirs|
    requires forall k :: 0 <= k < |stack| - 1 ==> !Under(dirs, j, stack[k])
    requires j == stack[|stack| - 1] || !Under(dirs, j, stack[|stack| - 1])
    ensures forall k :: 0 <= k < |Popped(dirs, stack)| ==> !Under(dirs, j, Popped(dirs, stack)[k])
  {
    var top := stack[|stack| - 1];
    var rest := stack[..|stack| - 1];
    var next := Popped(dirs, stack);
    forall k | 0 <= k < |next| ensures !Under(dirs, j, next[k]) {
      if k < |rest| {
        assert next[k] == stack[k];
      } else {
        ChildAfter(dirs, top, k - |rest|);
        UnderTransitive(dirs, j, next[k], top);
      }
    }
  }

  /** A directory below something on the stack, other than the top itself, is below something after the pop. */
  lemma PopFinds(dirs: seq<Dir>, stack: seq<nat>, j: nat, i: nat)
    requires Shaped(dirs) && |stack| > 0 && stack[|stack| - 1] < |dirs| && j < |dirs|
    requires i < |stack| && stack[i] < |dirs| && Under(dirs, j, stack[i]) && j != stack[|stack| - 1]
    ensures exists k :: 0 <= k < |Popped(dirs, stack)| && Under(dirs, j, Popped(dirs, stack)[k])
  {
    var top := stack[|stack| - 1];
    var rest := stack[..|stack| - 1];
    var next := Popped(dirs, stack);
    assert next == rest + dirs[top].order;
    if i < |rest| {
      assert next[i] == stack[i];
      assert Under(dirs, j, next[i]);
    } else {
      UnderSomeChild(dirs, j, top);
      var c :| c in dirs[top].order && Under(dirs, j, c);
      var k :| 0 <= k < |dirs[top].order| && dirs[top].order[k] == c;
      assert next[|rest| + k] == c;
      assert Under(dirs, j, next[|rest| + k]);
    }
  }

  /** `smaller` holds each visited directory of size at most `n`, once. */
  ghost predicate Gathered(dirs: seq<Dir>, n: int, done: set<nat>, smaller: seq<nat>)
  {
    (forall j :: j in smaller <==> j in done && j < |dirs| && dirs[j].size <= n)
    && (forall k, m :: 0 <= k < m < |smaller| ==> smaller[k] != smaller[m])
  }

  /** `smaller` with `top` pushed if its size is at most `n`. */
  function Kept(dirs: seq<Dir>, n: int, smaller: seq<nat>, top: nat): seq<nat>
    requires top < |dirs|
  {
    if dirs[top].size <= n then smaller + [top] else smaller
  }

  /** Visiting a directory not visited before keeps `smaller` listing each visited directory of size at most `n` once. */
  lemma KeptStep(dirs: seq<Dir>, n: int, smaller: seq<nat>, done: set<nat>, top: nat)
    requires top < |dirs| && top !in done && Gathered(dirs, n, done, smaller)
    ensures Gathered(dirs, n, done + {top}, Kept(dirs, n, smaller, top))
  {
    var kept := Kept(dirs, n, smaller, top);
    if dirs[top].size <= n {
      forall k, m | 0 <= k < m < |kept| ensures kept[k] != kept[m] {
        if m == |smaller| {
          assert kept[k] == smaller[k] && smaller[k] in smaller;
        } else {
          assert kept[k] == smaller[k] && kept[m] == smaller[m];
        }
      }
    }
  }

  /**
   * `findDirectoriesSmallerThanN`: a depth-first search from `initial`
   * collecting every directory of size at most `n`.  The result lists
   * exactly the directories at or below `initial` of size at most `n`,
   * each of them once.
   */
  method FindDirectoriesSmallerThanN(dirs: seq<Dir>, initial: nat, n: int) returns (smaller: seq<nat>)
    requires Shaped(dirs) && initial < |dirs|
    ensures forall j :: j in smaller <==> 0 <= j < |dirs| && Under(dirs, j, initial) && dirs[j].size <= n
    ensures forall k, m :: 0 <= k < m < |smaller| ==> smaller[k] != smaller[m]
  {
    var toSearch: seq<nat> := [initial];
    smaller := [];
    ghost var done: set<nat> := {};
    FrontierStart(dirs, initial);
    while |toSearch| > 0
      invariant Frontier(dirs, initial, toSearch, done) && Gathered(dirs, n, done, smaller)
      decreases |Subtree(dirs, initial) - done|
    {
      PopStep(dirs, initial, toSearch, done);
      VisitShrinks(dirs, initial, done, toSearch[|toSearch| - 1]);
      KeptStep(dirs, n, smaller, done, toSearch[|toSearch| - 1]);
      ghost var next := Popped(dirs, toSearch);
      var current := toSearch[|toSearch| - 1];
      toSearch := toSearch[..|toSearch| - 1];
      done := done + {current};
      ghost var kept := Kept(dirs, n, smaller, current);
      if dirs[current].size <= n {
        smaller := smaller + [current];
      }
      toSearch := toSearch + dirs[current].order;
      assert toSearch == next && smaller == kept;
    }
    FrontierEnd(dirs, initial, done);
  }

  /**
   * `smallest`, a visited directory, is `initial` or one of size at least
   * `n`, is no larger than `initial`, and is no larger than any visited
   * directory other than `initial` of size at least `n`.
   */
  ghost predicate Best(dirs: seq<Dir>, initial: nat, n: int, done: set<nat>, smallest: nat)
    requires initial < |dirs|
  {
    smallest in done && smallest < |dirs|
    && (smallest == initial || dirs[smallest].size >= n)
    && dirs[smallest].size <= dirs[initial].size
    && forall j :: j in done && j < |dirs| && j != initial && dirs[j].size >= n ==> dirs[smallest].size <= dirs[j].size
  }

  /** The candidate after looking at `top`: `top` if it is big enough and strictly smaller. */
  function Better(dirs: seq<Dir>, n: int, smallest: nat, top: nat): nat
    requires smallest < |dirs| && top < |dirs|
  {
    if dirs[top].size >= n && dirs[smallest].size > dirs[top].size then top else smallest
  }

  /** Looking at one more directory keeps the candidate the best seen. */
  lemma BetterStep(dirs: seq<Dir>, initial: nat, n: int, done: set<nat>, smallest: nat, top: nat)
    requires initial < |dirs| && top < |dirs| && Best(dirs, initial, n, done, smallest)
    ensures Best(dirs, initial, n, done + {top}, Better(dirs, n, smallest, top))
  {
  }

  /** The search of `findSmallestGreaterThanN` starts with the subdirectories of `initial` on the stack. */
  lemma FrontierChildren(dirs: seq<Dir>, initial: nat)
    requires Shaped(dirs) && initial < |dirs|
    ensures Frontier(dirs, initial, dirs[initial].order, {initial})
  {
    FrontierStart(dirs, initial);
    PopStep(dirs, initial, [initial], {});
    assert Popped(dirs, [initial]) == dirs[initial].order;
  }

  /**
   * `findSmallestGreaterThanN`: a depth-first search below `initial` for
   * the smallest directory of size at least `n`, starting from `initial`
   * itself and replacing it only by a strictly smaller one.  The result is
   * `initial` or a directory below it of size at least `n`; it is no larger
   * than `initial`, nor than any directory below `initial` of size at least `n`.
   */
  method FindSmallestGreaterThanN(dirs: seq<Dir>, initial: nat, n: int) returns (smallest: nat)
    requires Shaped(dirs) && initial < |dirs|
    ensures smallest < |dirs| && Under(dirs, smallest, initial)
    ensures smallest == initial || dirs[smallest].size >= n
    ensures dirs[smallest].size <= dirs[initial].size
    ensures forall j :: 0 <= j < |dirs| && Under(dirs, j, initial) && j != initial && dirs[j].size >= n ==>
      dirs[smallest].size <= dirs[j].size
  {
    var toSearch: seq<nat> := dirs[initial].order;
    smallest := initial;
    ghost var done: set<nat> := {initial};
    FrontierChildren(dirs, initial);
    while |toSearch| > 0
      invariant Frontier(dirs, initial, toSearch, done) && Best(dirs, initial, n, done, smallest)
      decreases |Subtree(dirs, initial) - done|
    {
      PopStep(dirs, initial, toSearch, done);
      VisitShrinks(dirs, initial, done, toSearch[|toSearch| - 1]);
      BetterStep(dirs, initial, n, done, smallest, toSearch[|toSearch| - 1]);
      ghost var next := Popped(dirs, toSearch);
      var current := toSearch[|toSearch| - 1];
      toSearch := toSearch[..|toSearch| - 1];
      done := done + {current};
      if dirs[current].size >= n && dirs[smallest].size > dirs[current].size {
        smallest := current;
      }
      toSearch := toSearch + dirs[current].order;
      assert toSearch == next;
    }
    FrontierEnd(dirs, initial, done);
  }

  /** The tree's capacity and the free space the update needs, as the solver passes them. */
  const DISK := 70000000
  const NEEDED := 30000000
  /** The size limit of part 1. */
  const SMALL := 100000

  /** The free space once directory `j` is deleted from a disk of `fsSize` whose used space is the size of `initial`. */
  function FreedBy(dirs: seq<Dir>, initial: nat, fsSize: int, j: nat): int
    requires initial < |dirs| && j < |dirs|
  {
    fsSize - dirs[initial].size + dirs[j].size
  }

  /**
   * `getDeletionCandidate`: the space to free is what is needed beyond the
   * space already free, and the candidate is the smallest directory
   * freeing at least that much.  The candidate is `initial` itself unless
   * deleting it leaves enough free space; whenever deleting `initial`
   * would leave enough, so does deleting the candidate, and no directory
   * below `initial` that would leave enough is smaller.
   */
  method GetDeletionCandidate(dirs: seq<Dir>, initial: nat, fsSize: int, required: int) returns (candidate: nat)
    requires Shaped(dirs) && initial < |dirs|
    ensures candidate < |dirs| && Under(dirs, candidate, initial)
    ensures candidate == initial || FreedBy(dirs, initial, fsSize, candidate) >= required
    ensures FreedBy(dirs, initial, fsSize, initial) >= required ==> FreedBy(dirs, initial, fsSize, candidate) >= required
    ensures forall j :: 0 <= j < |dirs| && Under(dirs, j, initial) && FreedBy(dirs, initial, fsSize, j) >= required ==>
      dirs[candidate].size <= dirs[j].size
  {
    var freeSpace := fsSize - dirs[initial].size;
    var requiredToRemove := required - freeSpace;
    candidate := FindSmallestGreaterThanN(dirs, initial, requiredToRemove);
  }

  // ---------------------------------------------------------------------
  // The answers
  // ---------------------------------------------------------------------

  /** `dirs.map(d => d.size)` for a list of directories. */
  function SizesOf(dirs: seq<Dir>, xs: seq<nat>): (sizes: seq<int>)
    requires forall k :: 0 <= k < |xs| ==> xs[k] < |dirs|
    ensures |sizes| == |xs| && forall k :: 0 <= k < |xs| ==> sizes[k] == dirs[xs[k]].size
  {
    seq(|xs|, k requires 0 <= k < |xs| => dirs[xs[k]].size)
  }

  /** The total size of the directories `j < m` that are in `chosen`. */
  function SizeTotal(dirs: seq<Dir>, chosen: set<nat>, m: nat): int
    requires m <= |dirs|
  {
    if m == 0 then 0
    else SizeTotal(dirs, chosen, m - 1) + (if m - 1 in chosen then dirs[m - 1].size else 0)
  }

  /** Directory `j` lies below `initial` and has size at most `n`. */
  predicate Small(dirs: seq<Dir>, initial: nat, n: int, j: nat)
    requires Rooted(dirs) && j < |dirs|
  {
    Under(dirs, j, initial) && dirs[j].size <= n
  }

  /** The directories below `initial` of size at most `n`. */
  function SmallSet(dirs: seq<Dir>, initial: nat, n: int): set<nat>
    requires Rooted(dirs)
  {
    set j: nat | j < |dirs| && Small(dirs, initial, n, j)
  }

  /**
   * However the search orders them, summing the sizes of a list holding
   * each chosen directory `j < m` exactly once gives their total.
   */
  lemma {:induction false} SumOfSizes(dirs: seq<Dir>, chosen: set<nat>, xs: seq<nat>, m: nat)
    requires m <= |dirs| && NoDuplicates(xs)
    requires forall k :: 0 <= k < |xs| ==> xs[k] < |dirs|
    requires forall j: nat :: j in xs <==> j < m && j in chosen
    ensures Sum(SizesOf(dirs, xs)) == SizeTotal(dirs, chosen, m)
    decreases m
  {
    if m > 0 {
      var last := m - 1;
      if last in xs {
        var i :| 0 <= i < |xs| && xs[i] == last;
        var rest := xs[..i] + xs[i + 1..];
        DropChosen(dirs, chosen, xs, m, i, rest);
        SumOfSizes(dirs, chosen, rest, last);
        SizesAround(dirs, xs, i);
        assert last in chosen;
      } else {
        assert last !in chosen;
        SumOfSizes(dirs, chosen, xs, last);
      }
    } else if |xs| > 0 {
      InAt(xs, 0);
      assert false;
    }
  }

  /** Taking the last chosen directory `m - 1` out of the list leaves the chosen directories below `m - 1`, once each. */
  lemma DropChosen(dirs: seq<Dir>, chosen: set<nat>, xs: seq<nat>, m: nat, i: nat, rest: seq<nat>)
    requires 0 < m <= |dirs| && NoDuplicates(xs)
    requires forall k :: 0 <= k < |xs| ==> xs[k] < |dirs|
    requires forall j: nat :: j in xs <==> j < m && j in chosen
    requires i < |xs| && xs[i] == m - 1 && rest == xs[..i] + xs[i + 1..]
    ensures NoDuplicates(rest)
    ensures forall k :: 0 <= k < |rest| ==> rest[k] < |dirs|
    ensures forall j: nat :: j in rest <==> j < m - 1 && j in chosen
  {
    RemoveAt(xs, i);
    forall k | 0 <= k < |rest| ensures rest[k] < |dirs| {
      assert rest[k] in xs;
    }
    forall j: nat ensures j in rest <==> j < m - 1 && j in chosen {
      assert j in rest <==> j in xs && j != m - 1;
    }
  }

  /** The sizes of a list sum to the size at `i` plus the sizes of the rest. */
  lemma SizesAround(dirs: seq<Dir>, xs: seq<nat>, i: nat)
    requires i < |xs| && forall k :: 0 <= k < |xs| ==> xs[k] < |dirs|
    ensures Sum(SizesOf(dirs, xs)) == Sum(SizesOf(dirs, xs[..i] + xs[i + 1..])) + dirs[xs[i]].size
  {
    var before, after := SizesOf(dirs, xs[..i]), SizesOf(dirs, xs[i + 1..]);
    var x := dirs[xs[i]].size;
    assert SizesOf(dirs, xs) == before + [x] + after;
    assert SizesOf(dirs, xs[..i] + xs[i + 1..]) == before + after;
    SumAppend(before + [x], after);
    SumAppend(before, [x]);
    SumAppend(before, after);
    SumSingle(x);
  }

  /** With no negative sizes, choosing more directories never lowers the total. */
  lemma {:induction false} SizeTotalMonotone(dirs: seq<Dir>, chosen: set<nat>, more: set<nat>, m: nat)
    requires m <= |dirs| && chosen <= more
    requires forall j :: 0 <= j < |dirs| ==> dirs[j].size >= 0
    ensures SizeTotal(dirs, chosen, m) <= SizeTotal(dirs, more, m)
    decreases m
  {
    if m > 0 {
      SizeTotalMonotone(dirs, chosen, more, m - 1);
    }
  }

  /** With no negative sizes, raising the limit of part 1 never lowers its answer. */
  lemma SmallTotalMonotone(dirs: seq<Dir>, initial: nat, n: int, n': int)
    requires Rooted(dirs) && n <= n'
    requires forall j :: 0 <= j < |dirs| ==> dirs[j].size >= 0
    ensures SizeTotal(dirs, SmallSet(dirs, initial, n), |dirs|) <= SizeTotal(dirs, SmallSet(dirs, initial, n'), |dirs|)
  {
    SizeTotalMonotone(dirs, SmallSet(dirs, initial, n), SmallSet(dirs, initial, n'), |dirs|);
  }

  /**
   * The answers for a tree: part 1 is the total size of the directories of
   * at most 100000; part 2 is the size of a directory that is the root or
   * frees enough space once deleted, that frees enough whenever deleting
   * the root does, and that no other such directory undercuts.
   */
  ghost predicate Answered(dirs: seq<Dir>, part1: int, part2: int)
    requires Shaped(dirs)
  {
    part1 == SizeTotal(dirs, SmallSet(dirs, 0, SMALL), |dirs|)
    && exists c :: (0 <= c < |dirs| && part2 == dirs[c].size
      && (c == 0 || FreedBy(dirs, 0, DISK, c) >= NEEDED)
      && (FreedBy(dirs, 0, DISK, 0) >= NEEDED ==> FreedBy(dirs, 0, DISK, c) >= NEEDED)
      && forall j :: 0 <= j < |dirs| && FreedBy(dirs, 0, DISK, j) >= NEEDED ==> dirs[c].size <= dirs[j].size)
  }

  /**
   * The two answers for a finished tree: the total size of the directories
   * of at most 100000, and the size of the directory to delete to have
   * 30000000 free on a disk of 70000000.
   */
  method Answers(dirs: seq<Dir>) returns (part1: int, part2: int)
    requires Shaped(dirs)
    ensures part1 == SizeTotal(dirs, SmallSet(dirs, 0, SMALL), |dirs|)
    ensures Answered(dirs, part1, part2)
  {
    var smallerThan100k := FindDirectoriesSmallerThanN(dirs, 0, SMALL);
    var toDelete := GetDeletionCandidate(dirs, 0, DISK, NEEDED);
    forall k | 0 <= k < |smallerThan100k| ensures smallerThan100k[k] < |dirs| {
      assert smallerThan100k[k] in smallerThan100k;
    }
    SumOfSizes(dirs, SmallSet(dirs, 0, SMALL), smallerThan100k, |dirs|);
    forall j | 0 <= j < |dirs| ensures Under(dirs, j, 0) {
      UnderRoot(dirs, j);
    }
    part1 := Sum(SizesOf(dirs, smallerThan100k));
    part2 := dirs[toDelete].size;
    assert Answered(dirs, part1, part2) by {
      assert 0 <= toDelete < |dirs| && part2 == dirs[toDelete].size;
    }
  }

  /** The answers for a trace, or the error a line of it throws. */
  method Solve(input: string) returns (r: Result<(int, int)>)
    requires forall i :: 0 <= i < |Lines(input)| ==> Readable(Lines(input)[i])
    ensures r.Ok? <==> Run(Start(), Lines(input)).Ok?
    ensures r.Error? ==> r.message == TYPE_ERROR
    ensures r.Ok? ==> Answered(Run(Start(), Lines(input)).value.dirs, r.value.0, r.value.1)
  {
    var tree := Prepare(input);
    if tree.Error? {
      return Error(tree.message);
    }
    var part1, part2 := Answers(tree.value);
    return Ok((part1, part2));
  }
}
