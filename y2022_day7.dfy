// No Space Left On Device: a terminal session of `cd` and `ls` commands
// is replayed into a directory tree in which every directory records the
// total size of everything under it. Part 1 adds up the totals below
// 100000; part 2 picks the smallest directory whose deletion brings the
// root under 40000000.

module NoSpaceLeft {
  import opened Wrappers
  import opened SeqFolds

  /** One line of the session, as `traverse` tells them apart: `$ cd`
      with its argument, `$ ls`, a `dir` line of a listing, or a file line
      with its size and name. */
  datatype Line = Cd(name: string) | Ls | DirLine(name: string) | FileLine(size: nat, name: string)

  /** A directory holds its entries, at most one per name, and the total it
      counted while they were read; a file holds its size. */
  datatype Node = Dir(entries: seq<Entry>, total: nat) | File(size: nat)

  datatype Entry = Entry(name: string, node: Node)

  /** `Node::size`. */
  function Size(n: Node): nat {
    match n
    case Dir(_, total) => total
    case File(size) => size
  }

  // ---------------------------------------------------------------------
  // A directory's entries as a map from names

  /** The node stored under `name`. */
  function Lookup(entries: seq<Entry>, name: string): Option<Node> {
    if entries == [] then None
    else if entries[0].name == name then Some(entries[0].node)
    else Lookup(entries[1..], name)
  }

  /** `HashMap::insert`: the node replaces the one already stored under
      `name`, or is added. */
  function Insert(entries: seq<Entry>, name: string, node: Node): seq<Entry> {
    if entries == [] then [Entry(name, node)]
    else if entries[0].name == name then [Entry(name, node)] + entries[1..]
    else [entries[0]] + Insert(entries[1..], name, node)
  }

  /** After inserting, `name` finds the new node and every other name
      finds what it found before. */
  lemma {:induction false} InsertLookup(entries: seq<Entry>, name: string, node: Node, other: string)
    ensures Lookup(Insert(entries, name, node), other)
      == if other == name then Some(node) else Lookup(entries, other)
  {
    if entries != [] && entries[0].name != name {
      InsertLookup(entries[1..], name, node, other);
    }
  }

  /** No name is stored twice. */
  predicate DistinctNames(entries: seq<Entry>) {
    forall i, j :: 0 <= i < j < |entries| ==> entries[i].name != entries[j].name
  }

  /** A name is found exactly when some entry carries it. */
  lemma {:induction false} LookupFound(entries: seq<Entry>, name: string)
    ensures Lookup(entries, name).Some? <==> exists i :: 0 <= i < |entries| && entries[i].name == name
  {
    if entries != [] {
      LookupFound(entries[1..], name);
      if entries[0].name != name && Lookup(entries, name).Some? {
        var i :| 0 <= i < |entries[1..]| && entries[1..][i].name == name;
        assert entries[i + 1].name == name;
      }
    }
  }

  /** The sizes of the entries, added up. */
  function SumSizes(entries: seq<Entry>): nat {
    if entries == [] then 0 else Size(entries[0].node) + SumSizes(entries[1..])
  }

  /** Inserting adds the new node's size and drops the size of the node it
      replaces. */
  lemma {:induction false} InsertSum(entries: seq<Entry>, name: string, node: Node)
    ensures SumSizes(Insert(entries, name, node))
      + (match Lookup(entries, name) case Some(prior) => Size(prior) case None => 0)
      == SumSizes(entries) + Size(node)
  {
    if entries != [] && entries[0].name != name {
      InsertSum(entries[1..], name, node);
    }
  }

  // ---------------------------------------------------------------------
  // Replaying the session

  /** Where a walk over the lines ends: the directory built, the index of
      the line it stopped at, and whether no name was stored twice in any
      directory along the way. */
  datatype Walked = Walked(node: Node, next: nat, clean: bool)

  /** The lines left from `ln` on. */
  function Left(input: seq<Line>, ln: nat): nat {
    if ln <= |input| then |input| - ln else 0
  }

  /** `traverse(input, ln)`: the directory whose listing starts at line
      `ln`, and the index of the `cd ..` that closes it (or where the
      lines ran out). */
  function Tree(input: seq<Line>, ln: nat): (r: Walked)
    ensures r.node.Dir? && r.next >= ln
    ensures r.next < |input| ==> input[r.next] == Cd("..")
    decreases Left(input, ln), 1
  {
    Walk(input, ln, [], 0, true)
  }

  /** The loop of `traverse` from line `ln`, with the entries and the total
      read so far. */
  function Walk(input: seq<Line>, ln: nat, entries: seq<Entry>, total: nat, clean: bool): (r: Walked)
    ensures r.node.Dir? && r.next >= ln
    ensures r.next < |input| ==> input[r.next] == Cd("..")
    ensures r.clean ==> clean
    decreases Left(input, ln), 0
  {
    if ln >= |input| then Walked(Dir(entries, total), ln, clean)
    else
      match input[ln]
      case Cd(name) =>
        if name == ".." then Walked(Dir(entries, total), ln, clean)
        else
          var sub := Tree(input, ln + 1);
          Walk(input, sub.next + 1, Insert(entries, name, sub.node), total + Size(sub.node),
               clean && sub.clean && Lookup(entries, name).None?)
      case Ls => Walk(input, ln + 1, entries, total, clean)
      case DirLine(_) => Walk(input, ln + 1, entries, total, clean)
      case FileLine(size, name) =>
        Walk(input, ln + 1, Insert(entries, name, File(size)), total + size,
             clean && Lookup(entries, name).None?)
  }

  /** The end of a directory's listing: the input runs out or `cd ..`. */
  lemma WalkStop(input: seq<Line>, ln: nat, entries: seq<Entry>, total: nat, clean: bool)
    requires ln >= |input| || input[ln] == Cd("..")
    ensures Walk(input, ln, entries, total, clean) == Walked(Dir(entries, total), ln, clean)
  {
  }

  /** One line of the loop: a `cd` into a subdirectory. */
  lemma WalkCd(input: seq<Line>, ln: nat, entries: seq<Entry>, total: nat, clean: bool, name: string)
    requires ln < |input| && input[ln] == Cd(name) && name != ".."
    ensures var sub := Tree(input, ln + 1);
      Walk(input, ln, entries, total, clean)
      == Walk(input, sub.next + 1, Insert(entries, name, sub.node), total + Size(sub.node),
              clean && sub.clean && Lookup(entries, name).None?)
  {
  }

  /** ... a line that is passed over. */
  lemma WalkPass(input: seq<Line>, ln: nat, entries: seq<Entry>, total: nat, clean: bool)
    requires ln < |input| && (input[ln].Ls? || input[ln].DirLine?)
    ensures Walk(input, ln, entries, total, clean) == Walk(input, ln + 1, entries, total, clean)
  {
  }

  /** ... a file. */
  lemma WalkFile(input: seq<Line>, ln: nat, entries: seq<Entry>, total: nat, clean: bool, size: nat, name: string)
    requires ln < |input| && input[ln] == FileLine(size, name)
    ensures Walk(input, ln, entries, total, clean)
      == Walk(input, ln + 1, Insert(entries, name, File(size)), total + size, clean && Lookup(entries, name).None?)
  {
  }

  /** `traverse`: the listing is read line by line into `content`, each
      `cd` into a subdirectory reading that subdirectory recursively and
      going on after the line where it stopped. */
  method Traverse(input: seq<Line>, lineNumber: nat) returns (node: Node, next: nat)
    ensures node == Tree(input, lineNumber).node && next == Tree(input, lineNumber).next
    decreases Left(input, lineNumber), 1
  {
    var content: seq<Entry> := [];
    var total: nat := 0;
    ghost var clean := true;
    var ln := lineNumber;
    ghost var target := Tree(input, lineNumber);
    while ln < |input|
      invariant ln >= lineNumber
      invariant Walk(input, ln, content, total, clean) == target
      decreases Left(input, ln)
    {
      match input[ln] {
        case Cd(name) =>
          if name == ".." {
            WalkStop(input, ln, content, total, clean);
            return Dir(content, total), ln;
          }
          content, total, ln, clean := Descend(input, ln, content, total, clean, name);
        case Ls =>
          WalkPass(input, ln, content, total, clean);
          ln := ln + 1;
        case DirLine(_) =>
          WalkPass(input, ln, content, total, clean);
          ln := ln + 1;
        case FileLine(size, name) =>
          WalkFile(input, ln, content, total, clean, size, name);
          clean := clean && Lookup(content, name).None?;
          content := Insert(content, name, File(size));
          total := total + size;
          ln := ln + 1;
      }
    }
    WalkStop(input, ln, content, total, clean);
    return Dir(content, total), ln;
  }

  /** The `cd` into a subdirectory: it is read by a recursive call and
      stored under its name, and the walk goes on past the line where that
      call stopped. */
  method Descend(input: seq<Line>, ln: nat, entries: seq<Entry>, total: nat, ghost clean: bool, name: string)
    returns (entries': seq<Entry>, total': nat, ln': nat, ghost clean': bool)
    requires ln < |input| && input[ln] == Cd(name) && name != ".."
    ensures ln' > ln
    ensures Walk(input, ln', entries', total', clean') == Walk(input, ln, entries, total, clean)
    decreases Left(input, ln), 0
  {
    WalkCd(input, ln, entries, total, clean, name);
    var child, after := Traverse(input, ln + 1);
    clean' := clean && Tree(input, ln + 1).clean && Lookup(entries, name).None?;
    entries' := Insert(entries, name, child);
    total' := total + Size(child);
    ln' := after + 1;
  }

  // ---------------------------------------------------------------------
  // What the tree promises

  /** Every directory's total is the sum of the sizes of its entries. */
  predicate WellSized(n: Node)
    decreases n, 1
  {
    match n
    case File(_) => true
    case Dir(entries, total) => total == SumSizes(entries) && AllWellSized(entries)
  }

  predicate AllWellSized(entries: seq<Entry>)
    decreases entries, 0
  {
    entries == [] || (WellSized(entries[0].node) && AllWellSized(entries[1..]))
  }

  lemma {:induction false} WellSizedAt(entries: seq<Entry>, i: nat)
    requires AllWellSized(entries) && i < |entries|
    ensures WellSized(entries[i].node)
  {
    if i > 0 {
      WellSizedAt(entries[1..], i - 1);
    }
  }

  /** Every directory stores each name once: no later entry carries the
      name of an earlier one. */
  predicate Keyed(n: Node)
    decreases n, 1
  {
    match n
    case File(_) => true
    case Dir(entries, _) => AllKeyed(entries)
  }

  predicate AllKeyed(entries: seq<Entry>)
    decreases entries, 0
  {
    entries == []
    || (Keyed(entries[0].node) && Lookup(entries[1..], entries[0].name).None? && AllKeyed(entries[1..]))
  }

  /** ... which is to say the names of a directory are distinct. */
  lemma {:induction false} KeyedDistinct(entries: seq<Entry>)
    requires AllKeyed(entries)
    ensures DistinctNames(entries)
  {
    if entries != [] {
      KeyedDistinct(entries[1..]);
      LookupFound(entries[1..], entries[0].name);
      forall j | 0 < j < |entries|
        ensures entries[0].name != entries[j].name
      {
        assert entries[1..][j - 1] == entries[j];
      }
    }
  }

  /** Inserting a well-sized node among well-sized entries leaves them all
      well-sized. */
  lemma {:induction false} InsertWellSized(entries: seq<Entry>, name: string, node: Node)
    requires WellSized(node) && AllWellSized(entries)
    ensures AllWellSized(Insert(entries, name, node))
  {
    if entries != [] && entries[0].name != name {
      InsertWellSized(entries[1..], name, node);
    }
  }

  /** Inserting keeps every name stored once. */
  lemma {:induction false} InsertKeyed(entries: seq<Entry>, name: string, node: Node)
    requires Keyed(node) && AllKeyed(entries)
    ensures AllKeyed(Insert(entries, name, node))
  {
    if entries != [] && entries[0].name != name {
      InsertKeyed(entries[1..], name, node);
      InsertLookup(entries[1..], name, node, entries[0].name);
    }
  }

  /** When no name was stored twice in a directory, every directory's
      total is the sum of its files and subdirectories. */
  lemma {:induction false} TreeWellSized(input: seq<Line>, ln: nat)
    ensures Tree(input, ln).clean ==> WellSized(Tree(input, ln).node)
    decreases Left(input, ln), 1
  {
    WalkWellSized(input, ln, [], 0, true);
  }

  lemma {:induction false} WalkWellSized(input: seq<Line>, ln: nat, entries: seq<Entry>, total: nat, clean: bool)
    requires clean ==> total == SumSizes(entries) && AllWellSized(entries)
    ensures Walk(input, ln, entries, total, clean).clean ==> WellSized(Walk(input, ln, entries, total, clean).node)
    decreases Left(input, ln), 0
  {
    if ln >= |input| || input[ln] == Cd("..") {
      WalkStop(input, ln, entries, total, clean);
    } else {
      match input[ln]
      case Cd(name) =>
        var sub := Tree(input, ln + 1);
        WalkCd(input, ln, entries, total, clean, name);
        TreeWellSized(input, ln + 1);
        if clean && sub.clean {
          InsertWellSized(entries, name, sub.node);
        }
        InsertSum(entries, name, sub.node);
        WalkWellSized(input, sub.next + 1, Insert(entries, name, sub.node), total + Size(sub.node),
                      clean && sub.clean && Lookup(entries, name).None?);
      case Ls =>
        WalkPass(input, ln, entries, total, clean);
        WalkWellSized(input, ln + 1, entries, total, clean);
      case DirLine(_) =>
        WalkPass(input, ln, entries, total, clean);
        WalkWellSized(input, ln + 1, entries, total, clean);
      case FileLine(size, name) =>
        WalkFile(input, ln, entries, total, clean, size, name);
        if clean {
          InsertWellSized(entries, name, File(size));
        }
        InsertSum(entries, name, File(size));
        WalkWellSized(input, ln + 1, Insert(entries, name, File(size)), total + size,
                      clean && Lookup(entries, name).None?);
    }
  }

  /** Whatever the session, every directory of the tree stores each name
      once, as a map does. */
  lemma {:induction false} TreeKeyed(input: seq<Line>, ln: nat)
    ensures Keyed(Tree(input, ln).node)
    decreases Left(input, ln), 1
  {
    WalkKeyed(input, ln, [], 0, true);
  }

  lemma {:induction false} WalkKeyed(input: seq<Line>, ln: nat, entries: seq<Entry>, total: nat, clean: bool)
    requires AllKeyed(entries)
    ensures Keyed(Walk(input, ln, entries, total, clean).node)
    decreases Left(input, ln), 0
  {
    if ln >= |input| || input[ln] == Cd("..") {
      WalkStop(input, ln, entries, total, clean);
    } else {
      match input[ln]
      case Cd(name) =>
        var sub := Tree(input, ln + 1);
        WalkCd(input, ln, entries, total, clean, name);
        TreeKeyed(input, ln + 1);
        InsertKeyed(entries, name, sub.node);
        WalkKeyed(input, sub.next + 1, Insert(entries, name, sub.node), total + Size(sub.node),
                  clean && sub.clean && Lookup(entries, name).None?);
      case Ls =>
        WalkPass(input, ln, entries, total, clean);
        WalkKeyed(input, ln + 1, entries, total, clean);
      case DirLine(_) =>
        WalkPass(input, ln, entries, total, clean);
        WalkKeyed(input, ln + 1, entries, total, clean);
      case FileLine(size, name) =>
        WalkFile(input, ln, entries, total, clean, size, name);
        InsertKeyed(entries, name, File(size));
        WalkKeyed(input, ln + 1, Insert(entries, name, File(size)), total + size,
                  clean && Lookup(entries, name).None?);
    }
  }

  // ---------------------------------------------------------------------
  // The totals of all directories

  /** `all_subdir_sizes`: the directory's own total, then the totals under
      each of its entries in turn. */
  function AllSubdirSizes(n: Node): (r: seq<nat>)
    decreases n
  {
    match n
    case File(_) => []
    case Dir(entries, total) => [total] + EntrySizes(entries)
  }

  function EntrySizes(entries: seq<Entry>): seq<nat>
    decreases entries
  {
    if entries == [] then [] else AllSubdirSizes(entries[0].node) + EntrySizes(entries[1..])
  }

  /** `d` is `n` or lies somewhere under it. */
  predicate Contains(n: Node, d: Node)
    decreases n
  {
    n == d || (n.Dir? && exists i :: 0 <= i < |n.entries| && Contains(n.entries[i].node, d))
  }

  /** The number of directories in the tree. */
  function CountDirs(n: Node): nat
    decreases n
  {
    match n
    case File(_) => 0
    case Dir(entries, _) => 1 + CountEntryDirs(entries)
  }

  function CountEntryDirs(entries: seq<Entry>): nat
    decreases entries
  {
    if entries == [] then 0 else CountDirs(entries[0].node) + CountEntryDirs(entries[1..])
  }

  /** One total per directory, the root's first. */
  lemma {:induction false} SubdirSizesCount(n: Node)
    ensures |AllSubdirSizes(n)| == CountDirs(n)
    ensures n.Dir? ==> AllSubdirSizes(n)[0] == n.total
    decreases n, 1
  {
    if n.Dir? {
      EntrySizesCount(n.entries);
    }
  }

  lemma {:induction false} EntrySizesCount(entries: seq<Entry>)
    ensures |EntrySizes(entries)| == CountEntryDirs(entries)
    decreases entries, 0
  {
    if entries != [] {
      SubdirSizesCount(entries[0].node);
      EntrySizesCount(entries[1..]);
    }
  }

  /** Every directory of the tree has its total in the list. */
  lemma {:induction false} SubdirSizesComplete(n: Node, d: Node)
    requires Contains(n, d) && d.Dir?
    ensures d.total in AllSubdirSizes(n)
    decreases n, 1
  {
    if n != d {
      var i :| 0 <= i < |n.entries| && Contains(n.entries[i].node, d);
      EntrySizesComplete(n.entries, i, d);
    }
  }

  lemma {:induction false} EntrySizesComplete(entries: seq<Entry>, i: nat, d: Node)
    requires i < |entries| && Contains(entries[i].node, d) && d.Dir?
    ensures d.total in EntrySizes(entries)
    decreases entries, 0
  {
    if i == 0 {
      SubdirSizesComplete(entries[0].node, d);
    } else {
      EntrySizesComplete(entries[1..], i - 1, d);
    }
  }

  /** Every total in the list is that of a directory of the tree. */
  lemma {:induction false} SubdirSizesSound(n: Node, s: nat)
    requires s in AllSubdirSizes(n)
    ensures exists d :: Contains(n, d) && d.Dir? && d.total == s
    decreases n, 1
  {
    if s != n.total {
      var d := EntrySizesSound(n.entries, s);
      var i :| 0 <= i < |n.entries| && Contains(n.entries[i].node, d);
      assert Contains(n, d);
    }
  }

  lemma {:induction false} EntrySizesSound(entries: seq<Entry>, s: nat) returns (d: Node)
    requires s in EntrySizes(entries)
    ensures d.Dir? && d.total == s
    ensures exists i :: 0 <= i < |entries| && Contains(entries[i].node, d)
    decreases entries, 0
  {
    if s in AllSubdirSizes(entries[0].node) {
      SubdirSizesSound(entries[0].node, s);
      d :| Contains(entries[0].node, d) && d.Dir? && d.total == s;
      assert Contains(entries[0].node, d);
    } else {
      d := EntrySizesSound(entries[1..], s);
      var i :| 0 <= i < |entries[1..]| && Contains(entries[1..][i].node, d);
      assert Contains(entries[i + 1].node, d);
    }
  }

  /** An entry's size is part of the sum of sizes. */
  lemma {:induction false} EntryBelowSum(entries: seq<Entry>, i: nat)
    requires i < |entries|
    ensures Size(entries[i].node) <= SumSizes(entries)
  {
    if i > 0 {
      EntryBelowSum(entries[1..], i - 1);
    }
  }

  /** In a well-sized tree nothing is bigger than the root. */
  lemma {:induction false} ContainedSmaller(n: Node, d: Node)
    requires WellSized(n) && Contains(n, d)
    ensures Size(d) <= Size(n)
    decreases n
  {
    if n != d {
      var i :| 0 <= i < |n.entries| && Contains(n.entries[i].node, d);
      WellSizedAt(n.entries, i);
      ContainedSmaller(n.entries[i].node, d);
      EntryBelowSum(n.entries, i);
    }
  }

  /** ... so no total in the list exceeds the root's. */
  lemma SubdirSizesBounded(n: Node)
    requires WellSized(n)
    ensures forall k :: 0 <= k < |AllSubdirSizes(n)| ==> AllSubdirSizes(n)[k] <= Size(n)
  {
    var sizes := AllSubdirSizes(n);
    forall k | 0 <= k < |sizes|
      ensures sizes[k] <= Size(n)
    {
      SubdirSizesSound(n, sizes[k]);
      var d :| Contains(n, d) && d.Dir? && d.total == sizes[k];
      ContainedSmaller(n, d);
    }
  }

  // ---------------------------------------------------------------------
  // The two parts

  /** The totals below `limit`. */
  function Below(sizes: seq<nat>, limit: nat): (r: seq<nat>)
    ensures forall s :: s in r <==> s in sizes && s < limit
  {
    if sizes == [] then []
    else (if sizes[0] < limit then [sizes[0]] else []) + Below(sizes[1..], limit)
  }

  /** `part1`: the sum of the directory totals below 100000. */
  function Part1(root: Node): nat {
    Sum(Below(AllSubdirSizes(root), 100_000))
  }

  /** Filtering counts each kept value as often as the list holds it. */
  lemma {:induction false} BelowMultiset(sizes: seq<nat>, limit: nat, x: nat)
    ensures multiset(Below(sizes, limit))[x] == if x < limit then multiset(sizes)[x] else 0
  {
    if sizes != [] {
      BelowMultiset(sizes[1..], limit, x);
      assert sizes == [sizes[0]] + sizes[1..];
    }
  }

  /** Part 1 depends only on which totals the list holds, and how often,
      not on the order `all_subdir_sizes` visits the map in. */
  lemma Part1Unordered(a: seq<nat>, b: seq<nat>)
    requires multiset(a) == multiset(b)
    ensures Sum(Below(a, 100_000)) == Sum(Below(b, 100_000))
  {
    forall x: nat
      ensures multiset(Below(a, 100_000))[x] == multiset(Below(b, 100_000))[x]
    {
      BelowMultiset(a, 100_000, x);
      BelowMultiset(b, 100_000, x);
    }
    assert multiset(Below(a, 100_000)) == multiset(Below(b, 100_000));
    SumPermutation(Below(a, 100_000), Below(b, 100_000));
  }

  /** The totals `s` with `root - s < bound`; every total must be at most
      `root`, since the source subtracts in unsigned integers. */
  function Candidates(sizes: seq<nat>, root: nat, bound: nat): (r: seq<nat>)
    requires forall k :: 0 <= k < |sizes| ==> sizes[k] <= root
    ensures forall s :: s in r <==> s in sizes && root - s < bound
  {
    if sizes == [] then []
    else (if root - sizes[0] < bound then [sizes[0]] else []) + Candidates(sizes[1..], root, bound)
  }

  /** Some total exceeds the root's. */
  predicate Overflows(sizes: seq<nat>, root: nat) {
    exists k :: 0 <= k < |sizes| && sizes[k] > root
  }

  /** The smallest candidate, if there is a candidate and no total exceeds
      the root's. */
  function Smallest(root: Node, bound: nat): Option<nat> {
    var sizes := AllSubdirSizes(root);
    if Overflows(sizes, Size(root)) then None
    else
      var c := Candidates(sizes, Size(root), bound);
      if c == [] then None else Some(MinOf(c))
  }

  /** `part2`: the smallest total whose deletion leaves the root below
      40000000. The source subtracts each total from the root's in
      unsigned integers and unwraps the minimum: a total above the root's,
      or no candidate, fails (`None`). */
  function Part2(root: Node): (r: Option<nat>)
    ensures r.Some? ==> r.value in AllSubdirSizes(root) && Size(root) - r.value < 40_000_000
    ensures r.Some? ==> forall s :: s in AllSubdirSizes(root) && Size(root) - s < 40_000_000 ==> r.value <= s
    ensures r.None? <==> root.File? || Overflows(AllSubdirSizes(root), Size(root))
  {
    assert root.Dir? && !Overflows(AllSubdirSizes(root), Size(root))
      ==> root.total in Candidates(AllSubdirSizes(root), Size(root), 40_000_000);
    Smallest(root, 40_000_000)
  }

  /** On a tree whose totals add up, part 2 always has an answer: the root
      itself qualifies and nothing is bigger than it. */
  lemma Part2Defined(root: Node)
    requires root.Dir? && WellSized(root)
    ensures Part2(root).Some?
  {
    SubdirSizesBounded(root);
  }

  /** The disk holds 70000000 and the update needs 30000000 free. */
  function Freed(rootSize: nat, s: nat): int {
    70_000_000 - (rootSize - s)
  }

  /** Part 2 with the bound the puzzle asks for: the smallest directory
      whose deletion leaves at least 30000000 of the 70000000 free. */
  function Part2Enough(root: Node): (r: Option<nat>)
    requires root.Dir? && WellSized(root)
    ensures r.Some? && r.value in AllSubdirSizes(root)
    ensures Freed(Size(root), r.value) >= 30_000_000
    ensures forall s :: s in AllSubdirSizes(root) && Freed(Size(root), s) >= 30_000_000 ==> r.value <= s
  {
    SubdirSizesBounded(root);
    assert root.total in Candidates(AllSubdirSizes(root), Size(root), 40_000_001);
    Smallest(root, 40_000_001)
  }

  /** A tree on which the two differ: a root of 50000000 holding a
      directory of 10000000, one of 20000000, and a file of 20000000.
      Deleting the 10000000 directory leaves exactly 30000000 free, but
      part 2 passes it over and answers 20000000. */
  function ExactFit(): Node {
    Dir([Entry("a", Dir([Entry("x", File(10_000_000))], 10_000_000)),
         Entry("b", Dir([Entry("y", File(20_000_000))], 20_000_000)),
         Entry("z", File(20_000_000))], 50_000_000)
  }

  lemma ExactFitSizes()
    ensures WellSized(ExactFit())
    ensures AllSubdirSizes(ExactFit()) == [50_000_000, 10_000_000, 20_000_000]
  {
    var e := ExactFit().entries;
    assert EntrySizes(e[2..]) == [];
    assert EntrySizes(e[1..]) == [20_000_000] + EntrySizes(e[2..]);
    assert EntrySizes(e) == [10_000_000] + EntrySizes(e[1..]);
    assert SumSizes(e[2..]) == 20_000_000;
    assert SumSizes(e[1..]) == 40_000_000;
  }

  lemma ExactFitMissed()
    ensures WellSized(ExactFit())
    ensures Part2(ExactFit()) == Some(20_000_000)
    ensures Part2Enough(ExactFit()) == Some(10_000_000)
  {
    ExactFitSizes();
    var sizes := AllSubdirSizes(ExactFit());
    assert !Overflows(sizes, 50_000_000);
  }
}
