/** 2022 day 7: rebuild a file system from a terminal session of `cd` and
    `ls` commands, then measure directory sizes. The source links every
    directory to its parent object; here the tree is a value and the
    current directory is the path of child indices leading to it from the
    root, so "the parent" is the path without its last index. */
module Day2022_07 {
  import opened Common

  datatype Node = Dir(name: string, contents: seq<Node>) | File(name: string, size: int)

  /** A parsed command: its name, its arguments and the lines it printed. */
  datatype Command = Command(cmd: string, args: seq<string>, output: string)

  /** `Directory.size`: the sum of the sizes of the contents, recursively. */
  function Size(n: Node): int
    decreases n, 1
  {
    match n
    case File(_, s) => s
    case Dir(_, cs) => SizeAll(cs)
  }

  function SizeAll(cs: seq<Node>): int
    decreases cs, 0
  {
    if cs == [] then 0 else SizeAll(cs[..|cs| - 1]) + Size(cs[|cs| - 1])
  }

  /** Sizes are never negative when no file has a negative size. */
  ghost predicate NonNegativeFiles(n: Node)
    decreases n
  {
    match n
    case File(_, s) => s >= 0
    case Dir(_, cs) => forall i :: 0 <= i < |cs| ==> NonNegativeFiles(cs[i])
  }

  lemma {:induction false} SizeNonNegative(n: Node)
    requires NonNegativeFiles(n)
    ensures Size(n) >= 0
    decreases n, 1
  {
    if n.Dir? {
      SizeAllNonNegative(n.contents);
    }
  }

  lemma {:induction false} SizeAllNonNegative(cs: seq<Node>)
    requires forall i :: 0 <= i < |cs| ==> NonNegativeFiles(cs[i])
    ensures SizeAll(cs) >= 0
    decreases cs, 0
  {
    if cs != [] {
      SizeAllNonNegative(cs[..|cs| - 1]);
      SizeNonNegative(cs[|cs| - 1]);
    }
  }

  /** `Directory.directories`: the subdirectories, in order. */
  function Subdirectories(cs: seq<Node>): (r: seq<Node>)
    ensures forall i :: 0 <= i < |r| ==> r[i].Dir? && r[i] in cs
    ensures |r| <= |cs|
  {
    if cs == [] then []
    else if cs[0].Dir? then [cs[0]] + Subdirectories(cs[1..])
    else Subdirectories(cs[1..])
  }

  /** `listAllDirectories`: the directory, then every directory below it,
      in pre-order. */
  function ListAll(d: Node): (r: seq<Node>)
    requires d.Dir?
    ensures r != [] && r[0] == d
    ensures forall i :: 0 <= i < |r| ==> r[i].Dir?
    decreases d, 1
  {
    [d] + ListAllOf(Subdirectories(d.contents), d)
  }

  function ListAllOf(ds: seq<Node>, ghost parent: Node): (r: seq<Node>)
    requires forall i :: 0 <= i < |ds| ==> ds[i].Dir? && ds[i] < parent
    ensures forall i :: 0 <= i < |r| ==> r[i].Dir?
    decreases parent, 0, |ds|
  {
    if ds == [] then [] else ListAll(ds[0]) + ListAllOf(ds[1..], parent)
  }

  /** `findDirectoriesWithMaxSize`, pre-order. */
  function FindWithMaxSize(d: Node, maxSize: int): (r: seq<Node>)
    requires d.Dir?
    decreases d, 1
  {
    (if Size(d) <= maxSize then [d] else []) + FindWithMaxSizeOf(Subdirectories(d.contents), maxSize, d)
  }

  function FindWithMaxSizeOf(ds: seq<Node>, maxSize: int, ghost parent: Node): seq<Node>
    requires forall i :: 0 <= i < |ds| ==> ds[i].Dir? && ds[i] < parent
    decreases parent, 0, |ds|
  {
    if ds == [] then [] else FindWithMaxSize(ds[0], maxSize) + FindWithMaxSizeOf(ds[1..], maxSize, parent)
  }

  /** The directories of `ds` no larger than `maxSize`, in order. */
  function Small(ds: seq<Node>, maxSize: int): seq<Node>
  {
    if ds == [] then []
    else (if Size(ds[0]) <= maxSize then [ds[0]] else []) + Small(ds[1..], maxSize)
  }

  /** `Small` keeps exactly the nodes of size at most `maxSize`. */
  lemma {:induction false} SmallMembers(ds: seq<Node>, maxSize: int)
    ensures forall n :: n in Small(ds, maxSize) <==> n in ds && Size(n) <= maxSize
  {
    if ds != [] {
      SmallMembers(ds[1..], maxSize);
      assert forall n :: n in ds <==> n == ds[0] || n in ds[1..] by {
        assert ds == [ds[0]] + ds[1..];
      }
    }
  }

  lemma {:induction false} SmallAppend(a: seq<Node>, b: seq<Node>, maxSize: int)
    ensures Small(a + b, maxSize) == Small(a, maxSize) + Small(b, maxSize)
  {
    if a == [] {
      assert a + b == b;
    } else {
      var ab := a + b;
      assert ab != [] && ab[0] == a[0] && ab[1..] == a[1..] + b;
      SmallAppend(a[1..], b, maxSize);
      var head := if Size(a[0]) <= maxSize then [a[0]] else [];
      assert Small(ab, maxSize) == head + Small(ab[1..], maxSize);
      assert Small(a, maxSize) == head + Small(a[1..], maxSize);
    }
  }

  /** The search returns exactly the listed directories that are small
      enough, in the same pre-order. */
  lemma {:induction false} FindIsSmallOfAll(d: Node, maxSize: int)
    requires d.Dir?
    ensures FindWithMaxSize(d, maxSize) == Small(ListAll(d), maxSize)
    decreases d, 1
  {
    var subs := Subdirectories(d.contents);
    FindOfIsSmallOfAll(subs, maxSize, d);
    SmallAppend([d], ListAllOf(subs, d), maxSize);
  }

  lemma {:induction false} FindOfIsSmallOfAll(ds: seq<Node>, maxSize: int, parent: Node)
    requires forall i :: 0 <= i < |ds| ==> ds[i].Dir? && ds[i] < parent
    ensures FindWithMaxSizeOf(ds, maxSize, parent) == Small(ListAllOf(ds, parent), maxSize)
    decreases parent, 0, |ds|
  {
    if ds != [] {
      FindIsSmallOfAll(ds[0], maxSize);
      FindOfIsSmallOfAll(ds[1..], maxSize, parent);
      SmallAppend(ListAll(ds[0]), ListAllOf(ds[1..], parent), maxSize);
    }
  }

  /** Part 1: the total size of the directories of at most 100000. */
  function Part1(root: Node): int
    requires root.Dir?
  {
    SumSizes(FindWithMaxSize(root, 100 * 1000))
  }

  function SumSizes(ds: seq<Node>): int
  {
    if ds == [] then 0 else SumSizes(ds[..|ds| - 1]) + Size(ds[|ds| - 1])
  }

  /** Part 1 adds up every listed directory of at most 100000, each once. */
  lemma Part1IsSumOfSmall(root: Node)
    requires root.Dir?
    ensures Part1(root) == SumSizes(Small(ListAll(root), 100 * 1000))
  {
    FindIsSmallOfAll(root, 100 * 1000);
  }

  /** The sizes of the directories at least `missing` large. */
  function LargeEnoughSizes(ds: seq<Node>, missing: int): (r: seq<int>)
    ensures forall i :: 0 <= i < |r| ==> r[i] >= missing
    ensures forall n :: n in ds && Size(n) >= missing ==> Size(n) in r
    ensures forall v :: v in r ==> exists n :: n in ds && Size(n) == v
  {
    if ds == [] then []
    else
      var rest := LargeEnoughSizes(ds[1..], missing);
      assert forall n :: n in ds[1..] ==> n in ds;
      assert ds[0] in ds;
      (if Size(ds[0]) >= missing then [Size(ds[0])] else []) + rest
  }

  /** Part 2: the smallest directory whose removal frees enough space. The
      root itself always qualifies, so there is always an answer. */
  function Part2(root: Node): (r: int)
    requires root.Dir?
    ensures var missing := Size(root) - (70000000 - 30000000);
      && r >= missing
      && (exists n :: n in ListAll(root) && Size(n) == r)
      && forall n :: n in ListAll(root) && Size(n) >= missing ==> r <= Size(n)
  {
    var missing := Size(root) - (70000000 - 30000000);
    var all := ListAll(root);
    var sizes := LargeEnoughSizes(all, missing);
    assert Size(root) in sizes;
    var r := Min(sizes);
    assert r in sizes;
    r
  }

  /** The node at `path` below `tree`. */
  function At(tree: Node, path: seq<nat>): Option<Node>
    decreases |path|
  {
    if path == [] then Some(tree)
    else match tree
      case File(_, _) => None
      case Dir(_, cs) => if path[0] < |cs| then At(cs[path[0]], path[1..]) else None
  }

  /** The current directory is a directory of the tree. */
  ghost predicate ValidCursor(tree: Node, path: seq<nat>)
  {
    At(tree, path).Some? && At(tree, path).value.Dir?
  }

  /** `addContent` on the directory at `path`. */
  function AddAt(tree: Node, path: seq<nat>, item: Node): (r: Node)
    requires ValidCursor(tree, path)
    ensures r.Dir? && r.name == tree.name
    decreases |path|
  {
    if path == [] then Dir(tree.name, tree.contents + [item])
    else
      var cs := tree.contents;
      Dir(tree.name, cs[path[0] := AddAt(cs[path[0]], path[1..], item)])
  }

  /** Adding content extends the current directory by that item, keeps the
      cursor and every path leading to it valid, and leaves the rest
      of the current directory as it was. */
  lemma {:induction false} AddAtContents(tree: Node, path: seq<nat>, item: Node, k: nat)
    requires ValidCursor(tree, path) && k <= |path|
    ensures ValidCursor(AddAt(tree, path, item), path[..k])
    ensures ValidCursor(AddAt(tree, path, item), path)
    ensures At(AddAt(tree, path, item), path).value.contents == At(tree, path).value.contents + [item]
    ensures At(AddAt(tree, path, item), path).value.name == At(tree, path).value.name
    decreases |path|
  {
    if path != [] {
      AddAtContents(tree.contents[path[0]], path[1..], item, if k == 0 then 0 else k - 1);
      if k > 0 {
        assert path[..k][1..] == path[1..][..k - 1];
      }
    }
  }

  /** A path leading to the current directory is valid as well. */
  lemma {:induction false} ParentValid(tree: Node, path: seq<nat>)
    requires ValidCursor(tree, path) && path != []
    ensures ValidCursor(tree, path[..|path| - 1])
    decreases |path|
  {
    if |path| > 1 {
      ParentValid(tree.contents[path[0]], path[1..]);
      assert path[1..][..|path| - 2] == path[..|path| - 1][1..];
    }
  }

  lemma {:induction false} ChildValid(tree: Node, path: seq<nat>, k: nat)
    requires ValidCursor(tree, path)
    requires k < |At(tree, path).value.contents| && At(tree, path).value.contents[k].Dir?
    ensures ValidCursor(tree, path + [k])
    ensures At(tree, path + [k]).value == At(tree, path).value.contents[k]
    decreases |path|
  {
    if path != [] {
      ChildValid(tree.contents[path[0]], path[1..], k);
      assert (path + [k])[1..] == path[1..] + [k];
    }
  }

  /** `findContentByName`: the index of the first content with that name. */
  function FindByName(cs: seq<Node>, name: string): (r: Option<nat>)
    ensures r.Some? ==>
      && r.value < |cs| && cs[r.value].name == name
      && forall j :: 0 <= j < r.value ==> cs[j].name != name
    ensures r.None? ==> forall j :: 0 <= j < |cs| ==> cs[j].name != name
  {
    if cs == [] then None
    else if cs[0].name == name then Some(0)
    else match FindByName(cs[1..], name)
      case None => None
      case Some(k) => Some(k + 1)
  }

  /** One line of `ls` output: "dir NAME" or "SIZE NAME"; a size that is
      not a number is refused. */
  function ParseEntry(line: string): (r: Option<Node>)
    ensures r.Some? && Split(line, " ")[0] == "dir" ==> r.value.Dir? && r.value.contents == []
    ensures r.Some? && Split(line, " ")[0] != "dir" ==>
      && r.value.File?
      && ParseInt(Split(line, " ")[0]) == Some(r.value.size)
  {
    var parts := Split(line, " ");
    var name := if |parts| > 1 then parts[1] else "";
    if parts[0] == "dir" then Some(Dir(name, []))
    else match ParseInt(parts[0])
      case None => None
      case Some(size) => Some(File(name, size))
  }

  /** The directory tree and the path of the current directory. */
  datatype Session = Session(tree: Node, cwd: seq<nat>)

  ghost predicate ValidSession(s: Session)
  {
    ValidCursor(s.tree, s.cwd)
  }

  /** One command of the session after the first. */
  function Step(s: Session, c: Command): (r: Result<Session>)
    requires ValidSession(s)
    ensures r.Success? ==> ValidSession(r.value)
  {
    if c.cmd == "ls" then
      var lines := NonEmpty(Split(c.output, "\n"));
      AddEntries(s, lines)
    else if c.cmd == "cd" then
      if c.args != [] && c.args[0] == ".." then
        if s.cwd == [] then Failure("AssertionError")
        else
          ParentValid(s.tree, s.cwd);
          Success(Session(s.tree, s.cwd[..|s.cwd| - 1]))
      else
        var here := At(s.tree, s.cwd).value;
        var target := if c.args == [] then "" else c.args[0];
        match FindByName(here.contents, target)
        case None => Failure("AssertionError")
        case Some(k) =>
          if here.contents[k].File? then Failure("AssertionError")
          else
            ChildValid(s.tree, s.cwd, k);
            Success(Session(s.tree, s.cwd + [k]))
    else Failure("Unknown command " + c.cmd)
  }

  /** The entries of an `ls`, added in order to the current directory. */
  function AddEntries(s: Session, lines: seq<string>): (r: Result<Session>)
    requires ValidSession(s)
    ensures r.Success? ==> ValidSession(r.value) && r.value.cwd == s.cwd
    decreases |lines|
  {
    if lines == [] then Success(s)
    else match ParseEntry(lines[0])
      case None => Failure("size is not a number")
      case Some(item) =>
        AddAtContents(s.tree, s.cwd, item, |s.cwd|);
        assert s.cwd[..|s.cwd|] == s.cwd;
        AddEntries(Session(AddAt(s.tree, s.cwd, item), s.cwd), lines[1..])
  }

  /** `cd ..` needs a parent: the root has none. */
  lemma CdUpFromRootFails(tree: Node)
    requires tree.Dir?
    ensures Step(Session(tree, []), Command("cd", [".."], "")).Failure?
  {
  }

  /** `cd NAME` enters the first content of that name, which must be a
      directory, and `cd ..` then comes back. */
  lemma CdDownAndUp(s: Session, name: string)
    requires ValidSession(s) && name != ".."
    ensures var k := FindByName(At(s.tree, s.cwd).value.contents, name);
      var down := Step(s, Command("cd", [name], ""));
      && (down.Success? <==> k.Some? && At(s.tree, s.cwd).value.contents[k.value].Dir?)
      && (down.Success? ==>
           && At(down.value.tree, down.value.cwd).value.name == name
           && Step(down.value, Command("cd", [".."], "")) == Success(s))
  {
    var k := FindByName(At(s.tree, s.cwd).value.contents, name);
    if k.Some? && At(s.tree, s.cwd).value.contents[k.value].Dir? {
      ChildValid(s.tree, s.cwd, k.value);
      assert (s.cwd + [k.value])[..|s.cwd|] == s.cwd;
    }
  }

  /** `buildDirectories`: the first command must be `cd /`; the rest are
      run in order from the root. */
  method BuildDirectories(commands: seq<Command>) returns (r: Result<Node>)
    ensures r.Success? <==> && |commands| > 0
                            && commands[0].cmd == "cd" && commands[0].args == ["/"]
                            && Run(Session(Dir("/", []), []), commands[1..]).Success?
    ensures r.Success? ==> r.value == Run(Session(Dir("/", []), []), commands[1..]).value.tree
    ensures r.Success? ==> r.value.Dir? && r.value.name == "/"
  {
    if !(|commands| > 0 && commands[0].cmd == "cd" && |commands[0].args| == 1 && commands[0].args[0] == "/") {
      return Failure("AssertionError");
    }
    var session := Session(Dir("/", []), []);
    var i := 1;
    while i < |commands|
      invariant 1 <= i <= |commands|
      invariant ValidSession(session) && session.tree.Dir? && session.tree.name == "/"
      invariant Run(Session(Dir("/", []), []), commands[1..]) == Run(session, commands[i..])
    {
      var next := Step(session, commands[i]);
      if next.Failure? {
        assert commands[i..][0] == commands[i];
        return Failure(next.message);
      }
      TreeStaysRoot(session, commands[i]);
      assert commands[i..][1..] == commands[i + 1..];
      session := next.value;
      i := i + 1;
    }
    return Success(session.tree);
  }

  /** The commands after the first, in order, stopping at the first error. */
  function Run(s: Session, commands: seq<Command>): Result<Session>
    requires ValidSession(s)
    decreases |commands|
  {
    if commands == [] then Success(s)
    else match Step(s, commands[0])
      case Failure(m) => Failure(m)
      case Success(next) => Run(next, commands[1..])
  }

  lemma TreeStaysRoot(s: Session, c: Command)
    requires ValidSession(s) && s.tree.Dir? && Step(s, c).Success?
    ensures Step(s, c).value.tree.Dir? && Step(s, c).value.tree.name == s.tree.name
  {
    if c.cmd == "ls" {
      EntriesKeepRoot(s, NonEmpty(Split(c.output, "\n")));
    }
  }

  lemma {:induction false} EntriesKeepRoot(s: Session, lines: seq<string>)
    requires ValidSession(s) && s.tree.Dir? && AddEntries(s, lines).Success?
    ensures AddEntries(s, lines).value.tree.Dir? && AddEntries(s, lines).value.tree.name == s.tree.name
    decreases |lines|
  {
    if lines != [] {
      var item := ParseEntry(lines[0]).value;
      AddAtContents(s.tree, s.cwd, item, |s.cwd|);
      assert s.cwd[..|s.cwd|] == s.cwd;
      EntriesKeepRoot(Session(AddAt(s.tree, s.cwd, item), s.cwd), lines[1..]);
    }
  }
}
