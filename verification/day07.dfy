/** No Space Left On Device (day 7): a directory tree rebuilt from a `cd` / `ls`
    transcript, directory sizes, and the two size queries over it. */
module Day07 {
  import opened Util
  import opened Text

  datatype Kind = File(size: nat) | Dir

  /** `Node`: a named file or directory; only directories ever get children. */
  datatype Node = Node(name: string, kind: Kind, children: seq<Node>)

  function NewFile(name: string, size: nat): Node {
    Node(name, File(size), [])
  }

  function NewDir(name: string): Node {
    Node(name, Dir, [])
  }

  predicate IsDir(n: Node) {
    n.kind.Dir?
  }

  /** Indices of the children called `name`. */
  function Named(children: seq<Node>, name: string): (r: seq<nat>)
    ensures forall k :: 0 <= k < |r| ==> r[k] < |children| && children[r[k]].name == name
    ensures forall i :: 0 <= i < |children| && children[i].name == name ==> i in r
    ensures |r| == 0 <==> forall i :: 0 <= i < |children| ==> children[i].name != name
  {
    if |children| == 0 then []
    else
      var rest := Named(children[..|children| - 1], name);
      if children[|children| - 1].name == name then rest + [|children| - 1] else rest
  }

  /** `add_child`: inserts `node` into the directory reached by following `path`. The
      target must be a directory without a child of the same name, and every step of the
      path must name exactly one child. */
  function AddChild(n: Node, path: seq<string>, node: Node): (r: Result<Node>)
    ensures !IsDir(n) ==> r.Err?
    ensures |path| == 0 && IsDir(n) ==>
      (r.Ok? <==> forall i :: 0 <= i < |n.children| ==> n.children[i].name != node.name)
    ensures |path| == 0 && r.Ok? ==> r.value == n.(children := n.children + [node])
    ensures |path| > 0 && |Named(n.children, path[0])| != 1 ==> r.Err?
    ensures r.Ok? ==> r.value.name == n.name && r.value.kind == n.kind
    decreases n
  {
    if !IsDir(n) then Err
    else if |path| == 0 then
      if |Named(n.children, node.name)| > 0 then Err
      else Ok(n.(children := n.children + [node]))
    else
      var hits := Named(n.children, path[0]);
      if |hits| != 1 then Err
      else
        var k := hits[0];
        match AddChild(n.children[k], path[1..], node)
        case Ok(c) => Ok(n.(children := n.children[k := c]))
        case Err => Err
  }

  // ---------------------------------------------------------------------------------
  // Sizes
  // ---------------------------------------------------------------------------------

  /** `size`: a file's own size, or the total of a directory's children. */
  function Size(n: Node): nat
    decreases n, 1
  {
    match n.kind
    case File(size) => size
    case Dir => SizeAll(n.children)
  }

  function SizeAll(ns: seq<Node>): nat
    decreases ns, 0
  {
    if |ns| == 0 then 0 else Size(ns[0]) + SizeAll(ns[1..])
  }

  lemma {:induction false} SizeAllAppend(a: seq<Node>, b: seq<Node>)
    ensures SizeAll(a + b) == SizeAll(a) + SizeAll(b)
    decreases |a|
  {
    if |a| > 0 {
      assert (a + b)[0] == a[0] && (a + b)[1..] == a[1..] + b;
      SizeAllAppend(a[1..], b);
    } else {
      assert a + b == b;
    }
  }

  lemma {:induction false} SizeAllUpdate(ns: seq<Node>, k: nat, c: Node)
    requires k < |ns|
    ensures SizeAll(ns[k := c]) + Size(ns[k]) == SizeAll(ns) + Size(c)
    decreases |ns|
  {
    if k > 0 {
      assert ns[k := c][1..] == ns[1..][k - 1 := c];
      SizeAllUpdate(ns[1..], k - 1, c);
    } else {
      assert ns[k := c][1..] == ns[1..];
    }
  }

  /** A successful insertion grows the tree by exactly the inserted node's size. */
  lemma {:induction false} AddChildSize(n: Node, path: seq<string>, node: Node)
    requires AddChild(n, path, node).Ok?
    ensures Size(AddChild(n, path, node).value) == Size(n) + Size(node)
    decreases n
  {
    if |path| == 0 {
      SizeAllAppend(n.children, [node]);
      assert SizeAll([node]) == Size(node) + SizeAll([]);
    } else {
      var k := Named(n.children, path[0])[0];
      SizeAllUpdate(n.children, k, AddChild(n.children[k], path[1..], node).value);
      AddChildSize(n.children[k], path[1..], node);
    }
  }

  /** The size of a child is at most that of its directory. */
  lemma ChildSize(n: Node, i: nat)
    requires IsDir(n) && i < |n.children|
    ensures Size(n.children[i]) <= Size(n)
  {
    SizeAllAtLeast(n.children, i);
  }

  lemma {:induction false} SizeAllAtLeast(ns: seq<Node>, i: nat)
    requires i < |ns|
    ensures Size(ns[i]) <= SizeAll(ns)
    decreases |ns|
  {
    if i > 0 {
      assert ns[1..][i - 1] == ns[i];
      SizeAllAtLeast(ns[1..], i - 1);
    }
  }

  // ---------------------------------------------------------------------------------
  // Unique names
  // ---------------------------------------------------------------------------------

  /** Sibling names are pairwise distinct, at every level. */
  predicate UniqueNames(n: Node)
    decreases n
  {
    && (forall i, j :: 0 <= i < j < |n.children| ==> n.children[i].name != n.children[j].name)
    && (forall i :: 0 <= i < |n.children| ==> UniqueNames(n.children[i]))
  }

  /** `add_child` keeps sibling names unique. */
  lemma {:induction false} AddChildUnique(n: Node, path: seq<string>, node: Node)
    requires UniqueNames(n) && UniqueNames(node) && AddChild(n, path, node).Ok?
    ensures UniqueNames(AddChild(n, path, node).value)
    decreases n
  {
    var r := AddChild(n, path, node).value;
    if |path| == 0 {
      assert r.children == n.children + [node];
      forall i | 0 <= i < |r.children|
        ensures UniqueNames(r.children[i])
      {
        if i < |n.children| {
          assert r.children[i] == n.children[i];
        }
      }
    } else {
      var k := Named(n.children, path[0])[0];
      AddChildUnique(n.children[k], path[1..], node);
      assert r.children == n.children[k := r.children[k]];
    }
  }

  // ---------------------------------------------------------------------------------
  // Transcript replay
  // ---------------------------------------------------------------------------------

  /** A command with its arguments and the output lines that follow it. */
  datatype Command = Cd(args: seq<string>, output: seq<string>) | Ls(args: seq<string>, output: seq<string>)

  predicate StartsWithDollar(line: string) {
    0 < |line| && line[0] == '$'
  }

  /** Number of leading lines that are not commands. */
  function OutputLength(lines: seq<string>): (k: nat)
    ensures k <= |lines|
    ensures forall i :: 0 <= i < k ==> !StartsWithDollar(lines[i])
    ensures k < |lines| ==> StartsWithDollar(lines[k])
  {
    if 0 < |lines| && !StartsWithDollar(lines[0]) then 1 + OutputLength(lines[1..]) else 0
  }

  /** The `batching` step: every command line starts with `$`, its name and arguments are
      the words after the first two characters, and it owns the non-command lines after it.
      Lines are trimmed first. */
  function ParseCommands(lines: seq<string>): (r: Result<seq<Command>>)
    ensures r.Ok? ==> |r.value| <= |lines|
    ensures r.Ok? && 0 < |lines| ==> StartsWithDollar(Trim(lines[0]))
    decreases |lines|
  {
    if |lines| == 0 then Ok([])
    else
      var first := Trim(lines[0]);
      if !StartsWithDollar(first) || |first| < 2 then Err
      else
        var words := Words(first[2..]);
        if |words| == 0 then Err
        else
          var rest := TrimAll(lines[1..]);
          var k := OutputLength(rest);
          var cmd := if words[0] == "cd" then Ok(Cd(words[1..], rest[..k]))
            else if words[0] == "ls" then Ok(Ls(words[1..], rest[..k]))
            else Err;
          match (cmd, ParseCommands(lines[1 + k..]))
          case (Ok(c), Ok(cs)) => Ok([c] + cs)
          case _ => Err
  }

  function TrimAll(lines: seq<string>): (r: seq<string>)
    ensures |r| == |lines| && forall i :: 0 <= i < |r| ==> r[i] == Trim(lines[i])
  {
    seq(|lines|, i requires 0 <= i < |lines| => Trim(lines[i]))
  }

  /** The effect of one `cd` argument on the current path: `/` clears it, `..` pops (an
      error at the root), and any other name not starting with `/` is pushed. */
  function ChangeDir(path: seq<string>, arg: string): (r: Result<seq<string>>)
    ensures arg == "/" ==> r == Ok([])
    ensures arg == ".." ==> (r.Ok? <==> 0 < |path|) && (r.Ok? ==> r.value == path[..|path| - 1])
    ensures arg != "/" && arg != ".." && 0 < |arg| && arg[0] != '/' ==> r == Ok(path + [arg])
    ensures r.Ok? ==> |r.value| <= |path| + 1
  {
    if arg == "/" then Ok([])
    else if arg == ".." then (if |path| == 0 then Err else Ok(path[..|path| - 1]))
    else if 0 < |arg| && arg[0] == '/' then Err
    else Ok(path + [arg])
  }

  /** One `ls` output line: `dir <name>` or `<size> <name>`, added under the current path. */
  function AddEntry(root: Node, path: seq<string>, entry: string): (r: Result<Node>)
    ensures r.Ok? ==> Size(r.value) >= Size(root)
  {
    match SplitOnce(entry, ' ')
    case None => Err
    case Some((prefix, name)) =>
      if prefix == "dir" then
        var r := AddChild(root, path, NewDir(name));
        if r.Ok? then AddChildSize(root, path, NewDir(name)); r else r
      else match ParseUnsigned(prefix, U64_LIMIT)
        case None => Err
        case Some(size) =>
          var r := AddChild(root, path, NewFile(name, size));
          if r.Ok? then AddChildSize(root, path, NewFile(name, size)); r else r
  }

  function AddEntries(root: Node, path: seq<string>, entries: seq<string>): (r: Result<Node>)
    ensures r.Ok? ==> r.value.name == root.name && r.value.kind == root.kind
    decreases |entries|
  {
    if |entries| == 0 then Ok(root)
    else match AddEntry(root, path, entries[0])
      case Ok(next) => AddEntries(next, path, entries[1..])
      case Err => Err
  }

  /** Replays the commands after the first on the tree and the current path. */
  function Replay(root: Node, path: seq<string>, commands: seq<Command>): (r: Result<Node>)
    decreases |commands|
  {
    if |commands| == 0 then Ok(root)
    else match commands[0]
      case Cd(args, _) =>
        if |args| != 1 then Err
        else (match ChangeDir(path, args[0])
          case Ok(p) => Replay(root, p, commands[1..])
          case Err => Err)
      case Ls(_, output) =>
        match AddEntries(root, path, output)
        case Ok(next) => Replay(next, path, commands[1..])
        case Err => Err
  }

  /** `input_generator`: the first command must be `cd /`; every panic is an `Err`. */
  function BuildTree(lines: seq<string>): (r: Result<Node>)
  {
    match ParseCommands(lines)
    case Err => Err
    case Ok(commands) =>
      if |commands| == 0 || commands[0] != Cd(["/"], commands[0].output) then Err
      else Replay(NewDir(""), [], commands[1..])
  }

  lemma {:induction false} AddEntriesUnique(root: Node, path: seq<string>, entries: seq<string>)
    requires UniqueNames(root) && AddEntries(root, path, entries).Ok?
    ensures UniqueNames(AddEntries(root, path, entries).value)
    decreases |entries|
  {
    if |entries| > 0 {
      var e := entries[0];
      var (prefix, name) := SplitOnce(e, ' ').value;
      if prefix == "dir" {
        AddChildUnique(root, path, NewDir(name));
      } else {
        AddChildUnique(root, path, NewFile(name, ParseUnsigned(prefix, U64_LIMIT).value));
      }
      AddEntriesUnique(AddEntry(root, path, e).value, path, entries[1..]);
    }
  }

  lemma {:induction false} ReplayUnique(root: Node, path: seq<string>, commands: seq<Command>)
    requires UniqueNames(root) && Replay(root, path, commands).Ok?
    ensures UniqueNames(Replay(root, path, commands).value)
    ensures IsDir(Replay(root, path, commands).value) == IsDir(root)
    decreases |commands|
  {
    if |commands| > 0 {
      match commands[0]
      case Cd(args, _) =>
        ReplayUnique(root, ChangeDir(path, args[0]).value, commands[1..]);
      case Ls(_, output) =>
        AddEntriesUnique(root, path, output);
        ReplayUnique(AddEntries(root, path, output).value, path, commands[1..]);
    }
  }

  /** A rebuilt tree is a directory whose sibling names are unique everywhere. */
  lemma BuildTreeWellFormed(lines: seq<string>)
    requires BuildTree(lines).Ok?
    ensures IsDir(BuildTree(lines).value) && UniqueNames(BuildTree(lines).value)
  {
    var commands := ParseCommands(lines).value;
    ReplayUnique(NewDir(""), [], commands[1..]);
  }

  /** A transcript that does not open with `cd /` is rejected. */
  lemma MustStartAtRoot(lines: seq<string>)
    requires ParseCommands(lines).Ok? && 0 < |ParseCommands(lines).value|
    requires ParseCommands(lines).value[0].Ls?
    ensures BuildTree(lines).Err?
  {
  }

  // ---------------------------------------------------------------------------------
  // Directory sizes and the two queries
  // ---------------------------------------------------------------------------------

  /** The sizes of every directory in the tree, parents before children. */
  function DirSizes(n: Node): seq<nat>
    decreases n, 1
  {
    if IsDir(n) then [Size(n)] + DirSizesAll(n.children) else []
  }

  function DirSizesAll(ns: seq<Node>): seq<nat>
    decreases ns, 0
  {
    if |ns| == 0 then [] else DirSizes(ns[0]) + DirSizesAll(ns[1..])
  }

  lemma {:induction false} DirSizesAllAppend(a: seq<Node>, b: seq<Node>)
    ensures DirSizesAll(a + b) == DirSizesAll(a) + DirSizesAll(b)
    decreases |a|
  {
    if |a| > 0 {
      assert (a + b)[0] == a[0] && (a + b)[1..] == a[1..] + b;
      DirSizesAllAppend(a[1..], b);
    } else {
      assert a + b == b;
    }
  }

  /** Number of nodes in the trees of a forest; the traversal measure. */
  function CountAll(ns: seq<Node>): nat
    decreases ns
  {
    if |ns| == 0 then 0 else 1 + CountAll(ns[0].children) + CountAll(ns[1..])
  }

  lemma {:induction false} CountAllAppend(a: seq<Node>, b: seq<Node>)
    ensures CountAll(a + b) == CountAll(a) + CountAll(b)
    decreases |a|
  {
    if |a| > 0 {
      assert (a + b)[0] == a[0] && (a + b)[1..] == a[1..] + b;
      CountAllAppend(a[1..], b);
    } else {
      assert a + b == b;
    }
  }

  const SMALL: nat := 100_000

  /** Sum of the sizes that are at most `SMALL`. */
  function SumSmall(sizes: seq<nat>): nat {
    if |sizes| == 0 then 0
    else SumSmall(sizes[..|sizes| - 1]) + (if sizes[|sizes| - 1] <= SMALL then sizes[|sizes| - 1] else 0)
  }

  lemma {:induction false} SumSmallAppend(a: seq<nat>, b: seq<nat>)
    ensures SumSmall(a + b) == SumSmall(a) + SumSmall(b)
    decreases |b|
  {
    if |b| > 0 {
      assert (a + b)[..|a + b| - 1] == a + b[..|b| - 1];
      SumSmallAppend(a, b[..|b| - 1]);
    } else {
      assert a + b == a;
    }
  }

  /** Popping the last node of the stack and pushing its children (directories only)
      keeps the sizes still to visit. */
  lemma PopPush(q: seq<Node>)
    requires 0 < |q|
    ensures DirSizesAll(q) == DirSizesAll(q[..|q| - 1]) + DirSizes(q[|q| - 1])
    ensures CountAll(q) == CountAll(q[..|q| - 1]) + 1 + CountAll(q[|q| - 1].children)
  {
    var n := q[|q| - 1];
    var init := q[..|q| - 1];
    assert q == init + [n];
    DirSizesAllAppend(init, [n]);
    assert DirSizesAll([n]) == DirSizes(n) + DirSizesAll([]);
    assert DirSizes(n) + [] == DirSizes(n);
    CountAllAppend(init, [n]);
    assert CountAll([n]) == 1 + CountAll(n.children) + CountAll([]);
  }

  /** `part1`: a stack walk that adds the size of every directory of at most 100000. */
  method Part1(root: Node) returns (sum: nat)
    ensures sum == SumSmall(DirSizes(root))
  {
    sum := 0;
    var q := [root];
    assert DirSizesAll(q) == DirSizes(root) + DirSizesAll([]);
    assert DirSizes(root) + [] == DirSizes(root);
    while 0 < |q|
      invariant sum + SumSmall(DirSizesAll(q)) == SumSmall(DirSizes(root))
      decreases CountAll(q)
    {
      var n := q[|q| - 1];
      var init := q[..|q| - 1];
      PopPush(q);
      SumSmallAppend(DirSizesAll(init), DirSizes(n));
      q := init;
      if IsDir(n) {
        var size := Size(n);
        if size <= SMALL {
          sum := sum + size;
        }
        SumSmallAppend(DirSizesAll(init), DirSizesAll(n.children));
        SumSmallAppend([size], DirSizesAll(n.children));
        assert SumSmall([size]) == SumSmall([]) + (if size <= SMALL then size else 0);
        q := q + n.children;
        DirSizesAllAppend(init, n.children);
        CountAllAppend(init, n.children);
      }
    }
  }

  const CAPACITY: nat := 70_000_000
  const REQUIRED: nat := 30_000_000
  const USIZE_MAX: nat := 0xFFFF_FFFF_FFFF_FFFF

  /** The smallest qualifying directory size reachable through qualifying directories, as
      the stack walk of `part2` finds it; `USIZE_MAX` when there is none. */
  function PrunedMin(n: Node, free: nat): (r: nat)
    ensures r <= USIZE_MAX
    decreases n, 1
  {
    if IsDir(n) && free + Size(n) >= REQUIRED then Min(Size(n), PrunedMinAll(n.children, free))
    else USIZE_MAX
  }

  function PrunedMinAll(ns: seq<Node>, free: nat): (r: nat)
    ensures r <= USIZE_MAX
    decreases ns, 0
  {
    if |ns| == 0 then USIZE_MAX else Min(PrunedMin(ns[0], free), PrunedMinAll(ns[1..], free))
  }

  lemma {:induction false} PrunedMinAllAppend(a: seq<Node>, b: seq<Node>, free: nat)
    ensures PrunedMinAll(a + b, free) == Min(PrunedMinAll(a, free), PrunedMinAll(b, free))
    decreases |a|
  {
    if |a| > 0 {
      assert (a + b)[0] == a[0] && (a + b)[1..] == a[1..] + b;
      PrunedMinAllAppend(a[1..], b, free);
    } else {
      assert a + b == b;
    }
  }

  /** Deleting a directory of `size` would leave at least `REQUIRED` free. */
  predicate Qualifies(free: nat, size: nat) {
    free + size >= REQUIRED && size < USIZE_MAX
  }

  /** Every directory in a tree is at most as large as its root. */
  lemma {:induction false} DirSizesBounded(n: Node)
    ensures forall i :: 0 <= i < |DirSizes(n)| ==> DirSizes(n)[i] <= Size(n)
    decreases n, 1
  {
    if IsDir(n) {
      DirSizesAllBounded(n.children);
      var sizes := DirSizes(n);
      forall i | 0 <= i < |sizes|
        ensures sizes[i] <= Size(n)
      {
        if i > 0 {
          assert sizes[i] == DirSizesAll(n.children)[i - 1];
        }
      }
      assert SizeAll(n.children) == Size(n);
    }
  }

  /** Every directory in a forest is at most the total size of the forest. */
  lemma {:induction false} DirSizesAllBounded(ns: seq<Node>)
    ensures forall i :: 0 <= i < |DirSizesAll(ns)| ==> DirSizesAll(ns)[i] <= SizeAll(ns)
    decreases ns, 0
  {
    if |ns| > 0 {
      DirSizesBounded(ns[0]);
      DirSizesAllBounded(ns[1..]);
      var a := DirSizes(ns[0]);
      var b := DirSizesAll(ns[1..]);
      forall i | 0 <= i < |a + b|
        ensures (a + b)[i] <= SizeAll(ns)
      {
        if i >= |a| {
          assert (a + b)[i] == b[i - |a|];
        }
      }
    }
  }

  /** The pruned search loses nothing: its answer is the smallest size among all
      qualifying directories, or `USIZE_MAX` when there are none. */
  lemma {:induction false} PrunedMinIsMin(n: Node, free: nat)
    ensures PrunedMin(n, free) < USIZE_MAX ==>
      PrunedMin(n, free) in DirSizes(n) && free + PrunedMin(n, free) >= REQUIRED
    ensures forall i :: 0 <= i < |DirSizes(n)| && Qualifies(free, DirSizes(n)[i]) ==> PrunedMin(n, free) <= DirSizes(n)[i]
    decreases n, 1
  {
    if IsDir(n) {
      PrunedMinAllIsMin(n.children, free);
      var sizes := DirSizes(n);
      if free + Size(n) < REQUIRED {
        DirSizesBounded(n);
      }
      forall i | 0 <= i < |sizes| && Qualifies(free, sizes[i])
        ensures PrunedMin(n, free) <= sizes[i]
      {
        DirSizesBounded(n);
        if i > 0 {
          assert sizes[i] == DirSizesAll(n.children)[i - 1];
        }
      }
    }
  }

  lemma {:induction false} PrunedMinAllIsMin(ns: seq<Node>, free: nat)
    ensures PrunedMinAll(ns, free) < USIZE_MAX ==>
      PrunedMinAll(ns, free) in DirSizesAll(ns) && free + PrunedMinAll(ns, free) >= REQUIRED
    ensures forall i :: 0 <= i < |DirSizesAll(ns)| && Qualifies(free, DirSizesAll(ns)[i]) ==> PrunedMinAll(ns, free) <= DirSizesAll(ns)[i]
    decreases ns, 0
  {
    if |ns| > 0 {
      PrunedMinIsMin(ns[0], free);
      PrunedMinAllIsMin(ns[1..], free);
      var a := DirSizes(ns[0]);
      var b := DirSizesAll(ns[1..]);
      forall i | 0 <= i < |a + b| && Qualifies(free, (a + b)[i])
        ensures PrunedMinAll(ns, free) <= (a + b)[i]
      {
        if i >= |a| {
          assert (a + b)[i] == b[i - |a|];
        }
      }
    }
  }

  /** `capacity - used` on `usize`: a release build wraps it modulo 2^64 when the tree is
      larger than the disk, which leaves a huge amount of "free" space. */
  function FreeSpace(used: nat): (free: nat)
    ensures free < U64_LIMIT
    ensures used <= CAPACITY ==> free == CAPACITY - used
    ensures CAPACITY < used <= CAPACITY + U64_LIMIT ==> free == CAPACITY + U64_LIMIT - used
  {
    (CAPACITY - used) % U64_LIMIT
  }

  /** `part2`: `0` when enough space is already free; otherwise the size of the smallest
      directory whose deletion frees enough, found by a stack walk that only descends
      into qualifying directories. */
  method Part2(root: Node) returns (r: nat)
    ensures FreeSpace(Size(root)) >= REQUIRED ==> r == 0
    ensures FreeSpace(Size(root)) < REQUIRED && IsDir(root) && Size(root) < USIZE_MAX ==>
      && r in DirSizes(root) && FreeSpace(Size(root)) + r >= REQUIRED
      && (forall i :: 0 <= i < |DirSizes(root)| && Qualifies(FreeSpace(Size(root)), DirSizes(root)[i]) ==> r <= DirSizes(root)[i])
    ensures FreeSpace(Size(root)) < REQUIRED && !IsDir(root) ==> r == USIZE_MAX
  {
    var used := Size(root);
    var free := FreeSpace(used);
    if free >= REQUIRED {
      return 0;
    }
    r := PrunedWalk(root, free);
    if IsDir(root) {
      PrunedMinIsMin(root, free);
      DirSizesBounded(root);
      assert Size(root) in DirSizes(root);
    }
  }

  /** The stack walk of `part2`: pop a node; for a directory that frees enough, record its
      size and push its children. The smallest recorded size is the pruned minimum. */
  method PrunedWalk(root: Node, free: nat) returns (r: nat)
    ensures r == PrunedMin(root, free)
  {
    r := USIZE_MAX;
    var q := [root];
    assert PrunedMinAll(q, free) == Min(PrunedMin(root, free), USIZE_MAX);
    while 0 < |q|
      invariant Min(r, PrunedMinAll(q, free)) == PrunedMin(root, free)
      invariant r <= USIZE_MAX
      decreases CountAll(q)
    {
      var n := q[|q| - 1];
      var init := q[..|q| - 1];
      assert q == init + [n];
      PrunedMinAllAppend(init, [n], free);
      CountAllAppend(init, [n]);
      q := init;
      if IsDir(n) {
        var size := Size(n);
        if free + size >= REQUIRED {
          if size < r {
            r := size;
          }
          PrunedMinAllAppend(init, n.children, free);
          CountAllAppend(init, n.children);
          q := q + n.children;
        }
      }
    }
  }
}
