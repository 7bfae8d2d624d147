/**
 * The directory tree that `buildFileSystem` replays from the terminal log. Every directory
 * is kept in an arena, a sequence indexed by node number: node 0 is the root `/`, a node
 * refers to its parent and its subdirectories by index, and a subdirectory always has a
 * larger index than its parent because it is created after it.
 */
module FileSystems {
  import opened Results
  import opened Console

  type FileEntry = d: Data | d.File? witness File("", 0)

  /** A directory: its name, its parent, its subdirectories and its files. */
  datatype Node = Node(name: string, parent: Option<nat>, dirs: seq<nat>, files: seq<FileEntry>)

  /** Every subdirectory lies in the arena, after its directory. */
  predicate Ordered(nodes: seq<Node>)
  {
    forall i, k :: 0 <= i < |nodes| && 0 <= k < |nodes[i].dirs| ==> i < nodes[i].dirs[k] < |nodes|
  }

  /**
   * The shape `buildFileSystem` keeps: the root comes first and has no parent, a node's
   * subdirectories name it as their parent, every other node is listed once among its
   * parent's subdirectories.
   */
  predicate Valid(nodes: seq<Node>)
  {
    && |nodes| >= 1 && nodes[0].name == "/" && nodes[0].parent.None?
    && Ordered(nodes)
    && (forall i, k :: 0 <= i < |nodes| && 0 <= k < |nodes[i].dirs| ==> nodes[nodes[i].dirs[k]].parent == Some(i))
    && (forall i :: 0 < i < |nodes| ==> ParentListsChild(nodes, i))
    && (forall i, k, l :: 0 <= i < |nodes| && 0 <= k < l < |nodes[i].dirs| ==> nodes[i].dirs[k] != nodes[i].dirs[l])
  }

  predicate ParentListsChild(nodes: seq<Node>, i: nat)
    requires i < |nodes|
  {
    nodes[i].parent.Some? && nodes[i].parent.value < i && i in nodes[nodes[i].parent.value].dirs
  }

  /** The sum of the sizes of some files. */
  function FileTotal(files: seq<FileEntry>): int
    decreases |files|
  {
    if files == [] then 0 else FileTotal(files[..|files| - 1]) + files[|files| - 1].size
  }

  /** `size`: the node's files plus the sizes of its subdirectories. */
  function Size(nodes: seq<Node>, i: nat): int
    requires Ordered(nodes) && i < |nodes|
    decreases |nodes| - i, 1, 0
  {
    FileTotal(nodes[i].files) + ChildrenSize(nodes, i, 0)
  }

  /** The sizes of subdirectories `k` onwards of node `i`. */
  function ChildrenSize(nodes: seq<Node>, i: nat, k: nat): int
    requires Ordered(nodes) && i < |nodes| && k <= |nodes[i].dirs|
    decreases |nodes| - i, 0, |nodes[i].dirs| - k
  {
    if k == |nodes[i].dirs| then 0
    else Size(nodes, nodes[i].dirs[k]) + ChildrenSize(nodes, i, k + 1)
  }

  /** The nodes `visit` reaches from node `i`, in the order it applies the visitor: subdirectories first. */
  function VisitOrder(nodes: seq<Node>, i: nat): (r: seq<nat>)
    requires Ordered(nodes) && i < |nodes|
    ensures r != [] && r[|r| - 1] == i
    ensures forall k :: 0 <= k < |r| ==> i <= r[k] < |nodes|
    decreases |nodes| - i, 1, 0
  {
    ChildrenOrder(nodes, i, 0) + [i]
  }

  function ChildrenOrder(nodes: seq<Node>, i: nat, k: nat): (r: seq<nat>)
    requires Ordered(nodes) && i < |nodes| && k <= |nodes[i].dirs|
    ensures forall m :: 0 <= m < |r| ==> i < r[m] < |nodes|
    decreases |nodes| - i, 0, |nodes[i].dirs| - k
  {
    if k == |nodes[i].dirs| then []
    else VisitOrder(nodes, nodes[i].dirs[k]) + ChildrenOrder(nodes, i, k + 1)
  }

  /** The files of the listed nodes, added up. */
  function TotalOf(nodes: seq<Node>, order: seq<nat>): int
    requires forall k :: 0 <= k < |order| ==> order[k] < |nodes|
    decreases |order|
  {
    if order == [] then 0 else FileTotal(nodes[order[0]].files) + TotalOf(nodes, order[1..])
  }

  lemma {:induction false} TotalOfAppend(nodes: seq<Node>, a: seq<nat>, b: seq<nat>)
    requires forall k :: 0 <= k < |a| ==> a[k] < |nodes|
    requires forall k :: 0 <= k < |b| ==> b[k] < |nodes|
    ensures TotalOf(nodes, a + b) == TotalOf(nodes, a) + TotalOf(nodes, b)
    decreases |a|
  {
    if a == [] {
      assert a + b == b;
    } else {
      assert (a + b)[1..] == a[1..] + b;
      TotalOfAppend(nodes, a[1..], b);
    }
  }

  /** A directory's size is the total of the files of every directory `visit` reaches from it. */
  lemma {:induction false} SizeIsSubtreeTotal(nodes: seq<Node>, i: nat)
    requires Ordered(nodes) && i < |nodes|
    ensures Size(nodes, i) == TotalOf(nodes, VisitOrder(nodes, i))
    decreases |nodes| - i, 1, 0
  {
    ChildrenSizeIsTotal(nodes, i, 0);
    TotalOfAppend(nodes, ChildrenOrder(nodes, i, 0), [i]);
  }

  lemma {:induction false} ChildrenSizeIsTotal(nodes: seq<Node>, i: nat, k: nat)
    requires Ordered(nodes) && i < |nodes| && k <= |nodes[i].dirs|
    ensures ChildrenSize(nodes, i, k) == TotalOf(nodes, ChildrenOrder(nodes, i, k))
    decreases |nodes| - i, 0, |nodes[i].dirs| - k
  {
    if k < |nodes[i].dirs| {
      var c := nodes[i].dirs[k];
      SizeIsSubtreeTotal(nodes, c);
      ChildrenSizeIsTotal(nodes, i, k + 1);
      TotalOfAppend(nodes, VisitOrder(nodes, c), ChildrenOrder(nodes, i, k + 1));
    }
  }

  /** Node `x` is node `i` or lies below it, following parents up from `x`. */
  predicate Descends(nodes: seq<Node>, x: nat, i: nat)
    requires x < |nodes|
    decreases x
  {
    x == i || (x > i && nodes[x].parent.Some? && nodes[x].parent.value < x && Descends(nodes, nodes[x].parent.value, i))
  }

  lemma {:induction false} DescendsThroughChild(nodes: seq<Node>, x: nat, c: nat, i: nat)
    requires Valid(nodes) && x < |nodes| && c < |nodes| && nodes[c].parent == Some(i)
    requires Descends(nodes, x, c)
    ensures Descends(nodes, x, i)
    decreases x
  {
    if x != c {
      assert ParentListsChild(nodes, c);
      DescendsThroughChild(nodes, nodes[x].parent.value, c, i);
    }
  }

  /** A node strictly below `i` lies below one of `i`'s subdirectories. */
  lemma {:induction false} BelowSomeChild(nodes: seq<Node>, x: nat, i: nat) returns (k: nat)
    requires Valid(nodes) && x < |nodes| && i < |nodes| && Descends(nodes, x, i) && x != i
    ensures k < |nodes[i].dirs| && Descends(nodes, x, nodes[i].dirs[k])
    decreases x
  {
    var p := nodes[x].parent.value;
    if p == i {
      assert ParentListsChild(nodes, x);
      k :| 0 <= k < |nodes[i].dirs| && nodes[i].dirs[k] == x;
    } else {
      k := BelowSomeChild(nodes, p, i);
    }
  }

  lemma {:induction false} DescendsAbove(nodes: seq<Node>, x: nat, i: nat)
    requires x < |nodes| && Descends(nodes, x, i)
    ensures i <= x
    decreases x
  {
    if x != i {
      DescendsAbove(nodes, nodes[x].parent.value, i);
    }
  }

  /** `visit` from node `i` reaches exactly the nodes at or below `i`. */
  lemma {:induction false} VisitReaches(nodes: seq<Node>, i: nat, x: nat)
    requires Valid(nodes) && i < |nodes| && x < |nodes|
    ensures x in VisitOrder(nodes, i) <==> Descends(nodes, x, i)
    decreases |nodes| - i, 1, 0
  {
    if x in ChildrenOrder(nodes, i, 0) {
      var k := ChildReaches(nodes, i, 0, x);
      DescendsThroughChild(nodes, x, nodes[i].dirs[k], i);
    }
    if Descends(nodes, x, i) && x != i {
      var k := BelowSomeChild(nodes, x, i);
      ChildReachesBack(nodes, i, 0, k, x);
    }
  }

  /** A node reached through the subdirectories `k` onwards is reached through one of them. */
  lemma {:induction false} ChildReaches(nodes: seq<Node>, i: nat, k: nat, x: nat) returns (m: nat)
    requires Valid(nodes) && i < |nodes| && k <= |nodes[i].dirs| && x < |nodes|
    requires x in ChildrenOrder(nodes, i, k)
    ensures k <= m < |nodes[i].dirs| && Descends(nodes, x, nodes[i].dirs[m])
    decreases |nodes| - i, 0, |nodes[i].dirs| - k
  {
    var c := nodes[i].dirs[k];
    if x in VisitOrder(nodes, c) {
      VisitReaches(nodes, c, x);
      m := k;
    } else {
      m := ChildReaches(nodes, i, k + 1, x);
    }
  }

  lemma {:induction false} ChildReachesBack(nodes: seq<Node>, i: nat, k: nat, m: nat, x: nat)
    requires Valid(nodes) && i < |nodes| && k <= m < |nodes[i].dirs| && x < |nodes|
    requires Descends(nodes, x, nodes[i].dirs[m])
    ensures x in ChildrenOrder(nodes, i, k)
    decreases |nodes| - i, 0, |nodes[i].dirs| - k
  {
    if m == k {
      VisitReaches(nodes, nodes[i].dirs[k], x);
    } else {
      ChildReachesBack(nodes, i, k + 1, m, x);
    }
  }

  predicate NoRepeats(s: seq<nat>)
  {
    forall a, b :: 0 <= a < b < |s| ==> s[a] != s[b]
  }

  /** `visit` applies the visitor to each node at most once. */
  lemma {:induction false} VisitOnce(nodes: seq<Node>, i: nat)
    requires Valid(nodes) && i < |nodes|
    ensures NoRepeats(VisitOrder(nodes, i))
    decreases |nodes| - i, 1, 0
  {
    ChildrenOnce(nodes, i, 0);
    var children := ChildrenOrder(nodes, i, 0);
    assert forall a :: 0 <= a < |children| ==> children[a] != i;
  }

  lemma {:induction false} ChildrenOnce(nodes: seq<Node>, i: nat, k: nat)
    requires Valid(nodes) && i < |nodes| && k <= |nodes[i].dirs|
    ensures NoRepeats(ChildrenOrder(nodes, i, k))
    decreases |nodes| - i, 0, |nodes[i].dirs| - k
  {
    if k < |nodes[i].dirs| {
      var c := nodes[i].dirs[k];
      var first, rest := VisitOrder(nodes, c), ChildrenOrder(nodes, i, k + 1);
      VisitOnce(nodes, c);
      ChildrenOnce(nodes, i, k + 1);
      forall a, b | 0 <= a < |first| && 0 <= b < |rest| ensures first[a] != rest[b] {
        var x := first[a];
        VisitReaches(nodes, c, x);
        if x in rest {
          var m := ChildReaches(nodes, i, k + 1, x);
          SubtreesDisjoint(nodes, i, k, m, x);
        }
      }
    }
  }

  /** Two different subdirectories of a node share no node below them. */
  lemma SubtreesDisjoint(nodes: seq<Node>, i: nat, k: nat, m: nat, x: nat)
    requires Valid(nodes) && i < |nodes| && k < m < |nodes[i].dirs| && x < |nodes|
    requires Descends(nodes, x, nodes[i].dirs[k])
    ensures !Descends(nodes, x, nodes[i].dirs[m])
  {
    var c, d := nodes[i].dirs[k], nodes[i].dirs[m];
    if Descends(nodes, x, d) {
      Comparable(nodes, x, c, d);
      SiblingNotBelow(nodes, c, d, i);
      SiblingNotBelow(nodes, d, c, i);
    }
  }

  /** A node does not lie below a different node that has the same parent. */
  lemma SiblingNotBelow(nodes: seq<Node>, c: nat, d: nat, i: nat)
    requires Valid(nodes) && c < |nodes| && d < |nodes| && c != d
    requires nodes[c].parent == Some(i) && nodes[d].parent == Some(i)
    ensures !Descends(nodes, c, d)
  {
    if Descends(nodes, c, d) {
      assert ParentListsChild(nodes, d);
      DescendsAbove(nodes, i, d);
    }
  }

  /** Two nodes that a third lies below are one below the other. */
  lemma {:induction false} Comparable(nodes: seq<Node>, x: nat, c: nat, d: nat)
    requires Valid(nodes) && x < |nodes| && c < |nodes| && d < |nodes|
    requires Descends(nodes, x, c) && Descends(nodes, x, d)
    ensures Descends(nodes, c, d) || Descends(nodes, d, c)
    decreases x
  {
    if x != c && x != d {
      Comparable(nodes, nodes[x].parent.value, c, d);
    }
  }

  /** Every node lies below the root. */
  lemma {:induction false} BelowRoot(nodes: seq<Node>, x: nat)
    requires Valid(nodes) && x < |nodes|
    ensures Descends(nodes, x, 0)
    decreases x
  {
    if x > 0 {
      assert ParentListsChild(nodes, x);
      BelowRoot(nodes, nodes[x].parent.value);
    }
  }

  /**
   * From the root, `visit` applies the visitor to every node exactly once and to the root
   * last, and the root's size is the total of all files.
   */
  lemma VisitFromRoot(nodes: seq<Node>)
    requires Valid(nodes)
    ensures var order := VisitOrder(nodes, 0);
      && NoRepeats(order)
      && (forall x :: 0 <= x < |nodes| ==> x in order)
      && order[|order| - 1] == 0
      && Size(nodes, 0) == TotalOf(nodes, order)
  {
    VisitOnce(nodes, 0);
    forall x | 0 <= x < |nodes| ensures x in VisitOrder(nodes, 0) {
      BelowRoot(nodes, x);
      VisitReaches(nodes, 0, x);
    }
    SizeIsSubtreeTotal(nodes, 0);
  }

  /** `filterIsInstance<Directory>`: the names of the listed directories, in order. */
  function DirNames(data: seq<Data>): (r: seq<string>)
    ensures |r| <= |data|
    decreases |data|
  {
    if data == [] then []
    else
      var rest := DirNames(data[..|data| - 1]);
      if data[|data| - 1].Directory? then rest + [data[|data| - 1].name] else rest
  }

  /** `filterIsInstance<File>`: the listed files, in order. */
  function FilesOf(data: seq<Data>): (r: seq<FileEntry>)
    ensures |r| <= |data|
    decreases |data|
  {
    if data == [] then []
    else
      var rest := FilesOf(data[..|data| - 1]);
      if data[|data| - 1].File? then rest + [data[|data| - 1]] else rest
  }

  /** Every entry of a listing is either one of its directories or one of its files. */
  lemma {:induction false} ListingSplits(data: seq<Data>)
    ensures |DirNames(data)| + |FilesOf(data)| == |data|
    ensures forall d :: d in data && d.File? ==> d in FilesOf(data)
    ensures forall d :: d in data && d.Directory? ==> d.name in DirNames(data)
    decreases |data|
  {
    if data != [] {
      var init := data[..|data| - 1];
      ListingSplits(init);
      assert data == init + [data[|data| - 1]];
    }
  }

  /** The new nodes for some listed directories, each a child of node `at`. */
  function NewNodes(names: seq<string>, at: nat): (r: seq<Node>)
    ensures |r| == |names|
  {
    seq(|names|, k requires 0 <= k < |names| => Node(names[k], Some(at), [], []))
  }

  /** The indices `base`, `base + 1`, ... of `n` nodes appended to the arena. */
  function Fresh(base: nat, n: nat): (r: seq<nat>)
    ensures |r| == n
  {
    seq(n, k requires 0 <= k < n => base + k)
  }

  /**
   * `addData` on node `at`: every listed directory becomes a new empty child node, appended
   * to the arena and to the node's subdirectories in order, and the listed files are
   * appended to the node's files. A directory listed twice is added twice.
   */
  function WithData(nodes: seq<Node>, at: nat, data: seq<Data>): seq<Node>
    requires at < |nodes|
  {
    var names := DirNames(data);
    var node := nodes[at];
    nodes[at := node.(dirs := node.dirs + Fresh(|nodes|, |names|), files := node.files + FilesOf(data))]
      + NewNodes(names, at)
  }

  /** `addData` keeps the tree well formed, keeps every other node and adds the listed directories below `at`. */
  lemma WithDataValid(nodes: seq<Node>, at: nat, data: seq<Data>)
    requires Valid(nodes) && at < |nodes|
    ensures var r := WithData(nodes, at, data);
      && Valid(r)
      && |r| == |nodes| + |DirNames(data)|
      && r[..at] == nodes[..at] && r[at + 1..|nodes|] == nodes[at + 1..]
      && r[at].name == nodes[at].name && r[at].parent == nodes[at].parent
      && (forall name :: name in DirNames(data) ==> exists c :: c in r[at].dirs && c < |r| && r[c].name == name)
  {
    var r := WithData(nodes, at, data);
    WithDataAt(nodes, at, data);
    WithDataLinks(nodes, at, data);
    WithDataListed(nodes, at, data);
    WithDataDistinct(nodes, at, data);
    WithDataNames(nodes, at, data);
    assert Ordered(r);
  }

  /** After `addData`, every listed directory name is a subdirectory of `at`. */
  lemma WithDataNames(nodes: seq<Node>, at: nat, data: seq<Data>)
    requires at < |nodes|
    ensures var r := WithData(nodes, at, data);
      forall name :: name in DirNames(data) ==> exists c :: c in r[at].dirs && c < |r| && r[c].name == name
  {
    var r := WithData(nodes, at, data);
    var names := DirNames(data);
    WithDataAt(nodes, at, data);
    forall name | name in names ensures exists c :: c in r[at].dirs && c < |r| && r[c].name == name {
      var k :| 0 <= k < |names| && names[k] == name;
      var c := |nodes| + k;
      assert r[at].dirs[|nodes[at].dirs| + k] == c;
      assert c in r[at].dirs && c < |r| && r[c].name == name;
    }
  }

  /** Node by node, what `addData` leaves in the arena. */
  lemma WithDataAt(nodes: seq<Node>, at: nat, data: seq<Data>)
    requires at < |nodes|
    ensures var r := WithData(nodes, at, data);
      && |r| == |nodes| + |DirNames(data)|
      && (forall i :: 0 <= i < |nodes| && i != at ==> r[i] == nodes[i])
      && r[at] == nodes[at].(dirs := nodes[at].dirs + Fresh(|nodes|, |DirNames(data)|), files := nodes[at].files + FilesOf(data))
      && (forall i :: |nodes| <= i < |r| ==> r[i] == Node(DirNames(data)[i - |nodes|], Some(at), [], []))
      && r[..at] == nodes[..at] && r[at + 1..|nodes|] == nodes[at + 1..]
  {
  }

  /** After `addData`, every subdirectory still lies after its directory and names it as parent. */
  lemma WithDataLinks(nodes: seq<Node>, at: nat, data: seq<Data>)
    requires Valid(nodes) && at < |nodes|
    ensures var r := WithData(nodes, at, data);
      forall i, k :: 0 <= i < |r| && 0 <= k < |r[i].dirs| ==> i < r[i].dirs[k] < |r| && r[r[i].dirs[k]].parent == Some(i)
  {
    var r := WithData(nodes, at, data);
    var added := Fresh(|nodes|, |DirNames(data)|);
    WithDataAt(nodes, at, data);
    forall i, k | 0 <= i < |r| && 0 <= k < |r[i].dirs|
      ensures i < r[i].dirs[k] < |r| && r[r[i].dirs[k]].parent == Some(i)
    {
      if i == at && k >= |nodes[at].dirs| {
        assert r[i].dirs[k] == added[k - |nodes[at].dirs|];
      } else if i < |nodes| {
        assert r[i].dirs[k] == nodes[i].dirs[k];
      }
    }
  }

  /** After `addData`, every node but the root is listed by its parent. */
  lemma WithDataListed(nodes: seq<Node>, at: nat, data: seq<Data>)
    requires Valid(nodes) && at < |nodes|
    ensures var r := WithData(nodes, at, data);
      forall i :: 0 < i < |r| ==> ParentListsChild(r, i)
  {
    var r := WithData(nodes, at, data);
    WithDataAt(nodes, at, data);
    forall i | 0 < i < |r| ensures ParentListsChild(r, i) {
      if i < |nodes| {
        assert ParentListsChild(nodes, i);
        var p := nodes[i].parent.value;
        if p == at {
          var k :| 0 <= k < |nodes[at].dirs| && nodes[at].dirs[k] == i;
          assert r[p].dirs[k] == i;
        }
      } else {
        assert r[at].dirs[|nodes[at].dirs| + (i - |nodes|)] == i;
      }
    }
  }

  /** After `addData`, no directory lists the same subdirectory twice. */
  lemma WithDataDistinct(nodes: seq<Node>, at: nat, data: seq<Data>)
    requires Valid(nodes) && at < |nodes|
    ensures var r := WithData(nodes, at, data);
      forall i, k, l :: 0 <= i < |r| && 0 <= k < l < |r[i].dirs| ==> r[i].dirs[k] != r[i].dirs[l]
  {
    var r := WithData(nodes, at, data);
    var added := Fresh(|nodes|, |DirNames(data)|);
    WithDataAt(nodes, at, data);
    forall i, k, l | 0 <= i < |r| && 0 <= k < l < |r[i].dirs| ensures r[i].dirs[k] != r[i].dirs[l] {
      if i == at && l >= |nodes[at].dirs| {
        assert r[i].dirs[l] == added[l - |nodes[at].dirs|];
        if k < |nodes[at].dirs| {
          assert r[i].dirs[k] == nodes[at].dirs[k];
        } else {
          assert r[i].dirs[k] == added[k - |nodes[at].dirs|];
        }
      } else if i == at {
        assert r[i].dirs[k] == nodes[at].dirs[k] && r[i].dirs[l] == nodes[at].dirs[l];
      } else if i < |nodes| {
        assert r[i].dirs == nodes[i].dirs;
      }
    }
  }

  /**
   * Where `cd target` leads from node `current`: `/` to the root, `..` to the parent, which
   * the root has none of, and any other name to the first subdirectory of that name.
   */
  function Move(nodes: seq<Node>, current: nat, target: string): (r: Option<nat>)
    requires Valid(nodes) && current < |nodes|
    ensures target == "/" ==> r == Some(0)
    ensures target == ".." ==> (r.None? <==> current == 0)
    ensures target == ".." && r.Some? ==> r.value < current && current in nodes[r.value].dirs
    ensures target != "/" && target != ".." ==> (r.None? <==> forall k :: 0 <= k < |nodes[current].dirs| ==> nodes[nodes[current].dirs[k]].name != target)
    ensures target != "/" && target != ".." && r.Some? ==> r.value in nodes[current].dirs && nodes[r.value].name == target
    ensures r.Some? ==> r.value < |nodes|
  {
    if target == "/" then Some(0)
    else if target == ".." then
      if current == 0 then None
      else
        assert ParentListsChild(nodes, current);
        nodes[current].parent
    else ChildNamed(nodes, nodes[current].dirs, target)
  }

  /** `dirs.find { it.name == target }`: the first of `dirs` with that name. */
  function ChildNamed(nodes: seq<Node>, dirs: seq<nat>, target: string): (r: Option<nat>)
    requires forall k :: 0 <= k < |dirs| ==> dirs[k] < |nodes|
    ensures r.None? <==> forall k :: 0 <= k < |dirs| ==> nodes[dirs[k]].name != target
    ensures r.Some? ==> exists k :: (0 <= k < |dirs| && dirs[k] == r.value && nodes[r.value].name == target
      && forall l :: 0 <= l < k ==> nodes[dirs[l]].name != target)
    decreases |dirs|
  {
    if dirs == [] then None
    else if nodes[dirs[0]].name == target then Some(dirs[0])
    else
      var r := ChildNamed(nodes, dirs[1..], target);
      assert forall k :: 1 <= k < |dirs| ==> dirs[1..][k - 1] == dirs[k];
      r
  }

  /** The tree after replaying `commands` from node `current`; `None` once a `cd` throws. */
  function Replay(nodes: seq<Node>, current: nat, commands: seq<Command>): (r: Option<seq<Node>>)
    requires Valid(nodes) && current < |nodes|
    ensures r.Some? ==> Valid(r.value) && |r.value| >= |nodes|
    decreases |commands|
  {
    if commands == [] then Some(nodes)
    else
      match commands[0]
      case Ls(output) =>
        WithDataValid(nodes, current, output);
        Replay(WithData(nodes, current, output), current, commands[1..])
      case Cd(target) =>
        match Move(nodes, current, target)
        case None => None
        case Some(next) => Replay(nodes, next, commands[1..])
  }

  const Root := [Node("/", None, [], [])]

  /** The tree that `buildFileSystem` builds from the commands, replayed from the root. */
  function Built(commands: seq<Command>): Option<seq<Node>>
  {
    Replay(Root, 0, commands)
  }

  /** Replaying the commands one after the other is replaying them all. */
  lemma {:induction false} ReplayAppend(nodes: seq<Node>, current: nat, a: seq<Command>, b: seq<Command>)
    requires Valid(nodes) && current < |nodes|
    ensures Replay(nodes, current, a + b).Some? ==> Replay(nodes, current, a).Some?
    decreases |a|
  {
    if a != [] {
      assert (a + b)[0] == a[0] && (a + b)[1..] == a[1..] + b;
      match a[0]
      case Ls(output) =>
        WithDataValid(nodes, current, output);
        ReplayAppend(WithData(nodes, current, output), current, a[1..], b);
      case Cd(target) =>
        match Move(nodes, current, target)
        case None =>
        case Some(next) => ReplayAppend(nodes, next, a[1..], b);
    }
  }

  /** Commands never remove a node: a replay only appends to the arena and keeps the root. */
  lemma {:induction false} ReplayKeepsRoot(nodes: seq<Node>, current: nat, commands: seq<Command>)
    requires Valid(nodes) && current < |nodes|
    requires Replay(nodes, current, commands).Some?
    ensures Replay(nodes, current, commands).value[0].name == "/"
    ensures forall i :: 0 <= i < |nodes| ==> Replay(nodes, current, commands).value[i].name == nodes[i].name
    decreases |commands|
  {
    if commands != [] {
      match commands[0]
      case Ls(output) =>
        WithDataValid(nodes, current, output);
        var next := WithData(nodes, current, output);
        ReplayKeepsRoot(next, current, commands[1..]);
        forall i | 0 <= i < |nodes| ensures next[i].name == nodes[i].name {
          if i < current {
            assert next[..current][i] == nodes[..current][i];
          } else if i > current {
            assert next[current + 1..|nodes|][i - current - 1] == nodes[current + 1..][i - current - 1];
          }
        }
      case Cd(target) =>
        ReplayKeepsRoot(nodes, Move(nodes, current, target).value, commands[1..]);
    }
  }

  /** The file system of the puzzle, as the arena of its directories. */
  class FileSystem {
    var nodes: seq<Node>

    /** A file system holding only the root `/`. */
    constructor()
      ensures nodes == Root && Valid(nodes)
    {
      nodes := Root;
    }

    /** `addData`: `addDirs` followed by `addFiles` on node `at`. */
    method AddData(at: nat, data: seq<Data>)
      requires at < |nodes|
      modifies this
      ensures nodes == WithData(old(nodes), at, data)
    {
      var dirs := DirNames(data);
      var files := FilesOf(data);
      var base := |nodes|;
      nodes := nodes[at := nodes[at].(dirs := nodes[at].dirs + Fresh(base, |dirs|))] + NewNodes(dirs, at);
      nodes := nodes[at := nodes[at].(files := nodes[at].files + files)];
    }
  }

  /** `buildFileSystem`: replays the commands on a new file system, following `cd` with a current node. */
  method BuildFileSystem(commands: seq<Command>) returns (r: Option<FileSystem>)
    ensures r.None? <==> Built(commands).None?
    ensures r.Some? ==> fresh(r.value) && r.value.nodes == Built(commands).value
  {
    var fs := new FileSystem();
    var current: nat := 0;
    for i := 0 to |commands|
      invariant Valid(fs.nodes) && current < |fs.nodes|
      invariant Replay(fs.nodes, current, commands[i..]) == Built(commands)
    {
      assert commands[i..][0] == commands[i] && commands[i..][1..] == commands[i + 1..];
      match commands[i]
      case Cd(target) =>
        if target == "/" {
          current := 0;
        } else if target == ".." {
          if fs.nodes[current].parent.None? {
            return None;
          }
          assert current != 0;
          current := fs.nodes[current].parent.value;
        } else {
          var next := ChildNamed(fs.nodes, fs.nodes[current].dirs, target);
          if next.None? {
            return None;
          }
          current := next.value;
        }
      case Ls(output) =>
        WithDataValid(fs.nodes, current, output);
        fs.AddData(current, output);
    }
    r := Some(fs);
  }

  /** One entry the visitor collects: a directory's name and size. */
  datatype DirectorySize = DirectorySize(name: string, size: int)

  /** The entries the visitor collects for the nodes of `order`, in that order. */
  function Entries(nodes: seq<Node>, order: seq<nat>): (r: seq<DirectorySize>)
    requires Ordered(nodes) && forall k :: 0 <= k < |order| ==> order[k] < |nodes|
    ensures |r| == |order|
  {
    seq(|order|, k requires 0 <= k < |order| => DirectorySize(nodes[order[k]].name, Size(nodes, order[k])))
  }

  lemma EntriesAppend(nodes: seq<Node>, a: seq<nat>, b: seq<nat>)
    requires Ordered(nodes)
    requires forall k :: 0 <= k < |a| ==> a[k] < |nodes|
    requires forall k :: 0 <= k < |b| ==> b[k] < |nodes|
    ensures Entries(nodes, a + b) == Entries(nodes, a) + Entries(nodes, b)
  {
  }

  /** `DirectorySizeVisitor`: collects the name and size of every node it is applied to. */
  class DirectorySizeVisitor {
    var collector: seq<DirectorySize>

    constructor()
      ensures collector == []
    {
      collector := [];
    }

    method Apply(nodes: seq<Node>, i: nat)
      requires Ordered(nodes) && i < |nodes|
      modifies this
      ensures collector == old(collector) + [DirectorySize(nodes[i].name, Size(nodes, i))]
    {
      collector := collector + [DirectorySize(nodes[i].name, Size(nodes, i))];
    }
  }

  /** `visit`: visits the subdirectories in order, then applies the visitor to node `i`. */
  method Visit(nodes: seq<Node>, i: nat, visitor: DirectorySizeVisitor)
    requires Ordered(nodes) && i < |nodes|
    modifies visitor
    ensures visitor.collector == old(visitor.collector) + Entries(nodes, VisitOrder(nodes, i))
    decreases |nodes| - i, 1
  {
    for k := 0 to |nodes[i].dirs|
      invariant visitor.collector + Entries(nodes, ChildrenOrder(nodes, i, k))
        == old(visitor.collector) + Entries(nodes, ChildrenOrder(nodes, i, 0))
    {
      VisitChild(nodes, i, k, visitor);
    }
    EntriesAppend(nodes, ChildrenOrder(nodes, i, 0), [i]);
    assert Entries(nodes, ChildrenOrder(nodes, i, |nodes[i].dirs|)) == [];
    assert visitor.collector == old(visitor.collector) + Entries(nodes, ChildrenOrder(nodes, i, 0)) by {
      assert visitor.collector + [] == visitor.collector;
    }
    visitor.Apply(nodes, i);
    assert Entries(nodes, [i]) == [DirectorySize(nodes[i].name, Size(nodes, i))];
  }

  /** One pass of `visit`'s loop: visit subdirectory `k` of node `i`. */
  method VisitChild(nodes: seq<Node>, i: nat, k: nat, visitor: DirectorySizeVisitor)
    requires Ordered(nodes) && i < |nodes| && k < |nodes[i].dirs|
    modifies visitor
    ensures visitor.collector + Entries(nodes, ChildrenOrder(nodes, i, k + 1))
      == old(visitor.collector) + Entries(nodes, ChildrenOrder(nodes, i, k))
    decreases |nodes| - i, 0
  {
    var c := nodes[i].dirs[k];
    EntriesAppend(nodes, VisitOrder(nodes, c), ChildrenOrder(nodes, i, k + 1));
    Visit(nodes, c, visitor);
  }

  /** The sizes of the entries below 100000, added up. */
  function SmallTotal(entries: seq<DirectorySize>): (r: int)
    ensures (forall k :: 0 <= k < |entries| ==> entries[k].size >= 0) ==> 0 <= r < 100000 * (|entries| + 1)
    decreases |entries|
  {
    if entries == [] then 0
    else
      var last := entries[|entries| - 1];
      SmallTotal(entries[..|entries| - 1]) + (if last.size < 100000 then last.size else 0)
  }

  lemma {:induction false} SmallTotalAppend(a: seq<DirectorySize>, b: seq<DirectorySize>)
    ensures SmallTotal(a + b) == SmallTotal(a) + SmallTotal(b)
    decreases |b|
  {
    if b == [] {
      assert a + b == a;
    } else {
      assert (a + b)[..|a + b| - 1] == a + b[..|b| - 1];
      SmallTotalAppend(a, b[..|b| - 1]);
    }
  }

  /** The node indices `0` to `n - 1`, in order. */
  function Indices(n: nat): (r: seq<nat>)
    ensures |r| == n && forall k :: 0 <= k < n ==> r[k] == k
  {
    seq(n, k requires 0 <= k < n => k)
  }

  /** `s` lists each of the node indices `0` to `n - 1` exactly once. */
  predicate Enumerates(s: seq<nat>, n: nat)
  {
    NoRepeats(s) && (forall k :: 0 <= k < |s| ==> s[k] < n) && (forall x :: 0 <= x < n ==> x in s)
  }

  /** Adding up the entries of each node once gives the same total in any order. */
  lemma {:induction false} EnumerationTotal(nodes: seq<Node>, s: seq<nat>, n: nat)
    requires Ordered(nodes) && n <= |nodes| && Enumerates(s, n)
    ensures SmallTotal(Entries(nodes, s)) == SmallTotal(Entries(nodes, Indices(n)))
    decreases n
  {
    if n == 0 {
      assert s == [];
    } else {
      assert n - 1 in s;
      var j :| 0 <= j < |s| && s[j] == n - 1;
      var rest := s[..j] + s[j + 1..];
      WithoutLast(s, j, n);
      EnumerationTotal(nodes, rest, n - 1);
      TotalWithout(nodes, s, j);
      IndicesTotal(nodes, n);
    }
  }

  lemma IndicesTotal(nodes: seq<Node>, n: nat)
    requires Ordered(nodes) && 0 < n <= |nodes|
    ensures SmallTotal(Entries(nodes, Indices(n))) == SmallTotal(Entries(nodes, Indices(n - 1))) + SmallTotal(Entries(nodes, [n - 1]))
  {
    assert Indices(n) == Indices(n - 1) + [n - 1];
    EntriesAppend(nodes, Indices(n - 1), [n - 1]);
    SmallTotalAppend(Entries(nodes, Indices(n - 1)), Entries(nodes, [n - 1]));
  }

  /** Taking the largest index out of an enumeration of `0` to `n - 1` enumerates `0` to `n - 2`. */
  lemma WithoutLast(s: seq<nat>, j: nat, n: nat)
    requires Enumerates(s, n) && j < |s| && s[j] == n - 1
    ensures Enumerates(s[..j] + s[j + 1..], n - 1)
  {
    var rest := s[..j] + s[j + 1..];
    forall x | 0 <= x < n - 1 ensures x in rest {
      assert x in s;
      var m :| 0 <= m < |s| && s[m] == x;
      if m < j {
        assert rest[m] == x;
      } else {
        assert rest[m - 1] == x;
      }
    }
    forall a, b | 0 <= a < b < |rest| ensures rest[a] != rest[b] {
      var a', b' := if a < j then a else a + 1, if b < j then b else b + 1;
      assert rest[a] == s[a'] && rest[b] == s[b'];
    }
    forall k | 0 <= k < |rest| ensures rest[k] < n - 1 {
      var k' := if k < j then k else k + 1;
      assert rest[k] == s[k'] && k' != j;
    }
  }

  /** The total with one node taken out, plus that node's part. */
  lemma TotalWithout(nodes: seq<Node>, s: seq<nat>, j: nat)
    requires Ordered(nodes) && j < |s| && forall k :: 0 <= k < |s| ==> s[k] < |nodes|
    ensures SmallTotal(Entries(nodes, s)) == SmallTotal(Entries(nodes, s[..j] + s[j + 1..])) + SmallTotal(Entries(nodes, [s[j]]))
  {
    var front, one, back := Entries(nodes, s[..j]), Entries(nodes, [s[j]]), Entries(nodes, s[j + 1..]);
    assert s == s[..j] + [s[j]] + s[j + 1..];
    EntriesAppend(nodes, s[..j] + [s[j]], s[j + 1..]);
    EntriesAppend(nodes, s[..j], [s[j]]);
    EntriesAppend(nodes, s[..j], s[j + 1..]);
    SmallTotalAppend(front + one, back);
    SmallTotalAppend(front, one);
    SmallTotalAppend(front, back);
  }

  /** `part1`: visits the tree and adds up the sizes of the directories below 100000. */
  method Part1(nodes: seq<Node>) returns (total: int)
    requires Valid(nodes)
    ensures total == SmallTotal(Entries(nodes, VisitOrder(nodes, 0)))
  {
    var visitor := new DirectorySizeVisitor();
    Visit(nodes, 0, visitor);
    assert visitor.collector == Entries(nodes, VisitOrder(nodes, 0));
    total := SmallTotal(visitor.collector);
  }

  /** `part1` counts every directory of the tree exactly once, whatever order `visit` takes. */
  lemma PartOneCountsEachDirectory(nodes: seq<Node>)
    requires Valid(nodes)
    ensures SmallTotal(Entries(nodes, VisitOrder(nodes, 0))) == SmallTotal(Entries(nodes, Indices(|nodes|)))
  {
    VisitFromRoot(nodes);
    EnumerationTotal(nodes, VisitOrder(nodes, 0), |nodes|);
  }

  /**
   * `filter { it.size > needed }.minByOrNull { it.size }`: the first entry of least size
   * among those larger than `needed`, or `None` when there is none.
   */
  function SmallestAbove(entries: seq<DirectorySize>, needed: int): (r: Option<nat>)
    ensures r.None? <==> forall k :: 0 <= k < |entries| ==> entries[k].size <= needed
    ensures r.Some? ==> r.value < |entries| && entries[r.value].size > needed
    ensures r.Some? ==> forall k :: 0 <= k < |entries| && entries[k].size > needed ==> entries[r.value].size <= entries[k].size
    ensures r.Some? ==> forall k :: 0 <= k < r.value && entries[k].size > needed ==> entries[r.value].size < entries[k].size
    decreases |entries|
  {
    if entries == [] then None
    else
      var n := |entries| - 1;
      var best := SmallestAbove(entries[..n], needed);
      if entries[n].size > needed && (best.None? || entries[n].size < entries[best.value].size) then Some(n)
      else best
  }

  /** The space `part2` must free: 30000000 less what the 70000000 disk has left. */
  function SpaceToFreeUp(rootSize: int): int
  {
    30000000 - (70000000 - rootSize)
  }

  /**
   * `part2`: the smallest directory whose deletion frees enough space, and `None` where
   * `minByOrNull` finds nothing and `!!` throws.
   */
  method Part2(nodes: seq<Node>) returns (r: Option<DirectorySize>)
    requires Valid(nodes)
    ensures var entries := Entries(nodes, VisitOrder(nodes, 0));
      var pick := SmallestAbove(entries, SpaceToFreeUp(Size(nodes, 0)));
      r == if pick.None? then None else Some(entries[pick.value])
  {
    var needed := SpaceToFreeUp(Size(nodes, 0));
    var visitor := new DirectorySizeVisitor();
    Visit(nodes, 0, visitor);
    assert visitor.collector == Entries(nodes, VisitOrder(nodes, 0));
    var pick := SmallestAbove(visitor.collector, needed);
    r := if pick.None? then None else Some(visitor.collector[pick.value]);
  }

  /**
   * Deleting the root always frees enough: its size exceeds what must be freed by the 40000000
   * the disk keeps beyond the update, so `part2` always finds a directory and `!!` never throws.
   */
  lemma PartTwoFindsDirectory(nodes: seq<Node>)
    requires Valid(nodes)
    ensures SmallestAbove(Entries(nodes, VisitOrder(nodes, 0)), SpaceToFreeUp(Size(nodes, 0))).Some?
  {
    var order := VisitOrder(nodes, 0);
    assert Entries(nodes, order)[|order| - 1].size == Size(nodes, 0);
  }
}
