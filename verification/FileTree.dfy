/**
  The sender's side of a transfer: the tree to be sent, the pre-order list of
  what is in it, and the stream of chunks read from that list.
 */
module FileTree {
  import opened Octets
  import opened Options

  type Name = string
  type Path = seq<Name>

  datatype Node =
    | Dir(mode: nat, children: seq<Entry>)
    | File(mode: nat, bytes: Bytes)
    | Link(mode: nat, target: string)

  datatype Entry = Entry(name: Name, node: Node)

  type Forest = seq<Entry>

  datatype FileType = Regular | Directory | SymbolicLink | Other

  /** What the sender records of one file; `bytes` is what its location holds. */
  datatype FileInfo = FileInfo(path: Path, fileType: FileType, target: string, mode: nat, bytes: Bytes)

  function InfoOf(path: Path, node: Node): FileInfo {
    match node
    case Dir(mode, _) => FileInfo(path, Directory, "", mode, [])
    case File(mode, bytes) => FileInfo(path, Regular, "", mode, bytes)
    case Link(mode, target) => FileInfo(path, SymbolicLink, target, mode, [])
  }

  function Walk(prefix: Path, es: Forest): seq<FileInfo>
    decreases es, 1
  {
    if es == [] then [] else WalkNode(prefix + [es[0].name], es[0].node) + Walk(prefix, es[1..])
  }

  function WalkNode(path: Path, node: Node): seq<FileInfo>
    decreases node, 0
  {
    [InfoOf(path, node)] + (if node.Dir? then Walk(path, node.children) else [])
  }

  /** The node a path leads to: the independent meaning of a tree. */
  function Lookup(es: Forest, p: Path): Option<Node>
    decreases |p|, |es|
  {
    if p == [] || es == [] then None
    else if es[0].name != p[0] then Lookup(es[1..], p)
    else if |p| == 1 then Some(es[0].node)
    else if es[0].node.Dir? then Lookup(es[0].node.children, p[1..])
    else None
  }

  predicate ValidName(n: Name) { n != "" && n != "." && n != ".." && '/' !in n }

  /** Sibling names are distinct and usable, at every level. */
  ghost predicate WellNamed(es: Forest)
    decreases es, 1
  {
    && (forall i | 0 <= i < |es| :: ValidName(es[i].name))
    && (forall i, j | 0 <= i < j < |es| :: es[i].name != es[j].name)
    && (forall i | 0 <= i < |es| :: WellNamedNode(es[i].node))
  }

  ghost predicate WellNamedNode(node: Node)
    decreases node, 0
  {
    node.Dir? ==> WellNamed(node.children)
  }

  // ----- The walk lists each node once, under its path, after its parents -----

  lemma WellNamedRest(es: Forest)
    requires WellNamed(es) && es != []
    ensures WellNamed(es[1..]) && WellNamedNode(es[0].node) && ValidName(es[0].name)
    ensures forall i | 0 <= i < |es[1..]| :: es[1..][i].name != es[0].name
  {
    forall i | 0 <= i < |es[1..]| ensures WellNamedNode(es[1..][i].node) && ValidName(es[1..][i].name) {
      assert es[1..][i] == es[i + 1];
    }
  }

  lemma {:induction false} LookupNeedsName(es: Forest, p: Path)
    requires p != [] && forall i | 0 <= i < |es| :: es[i].name != p[0]
    ensures Lookup(es, p).None?
    decreases |es|
  {
    if es != [] {
      LookupNeedsName(es[1..], p);
    }
  }

  /** An entry is listed exactly when its path leads to a node, and describes that node. */
  lemma {:induction false} WalkIsLookup(prefix: Path, es: Forest, info: FileInfo)
    requires WellNamed(es)
    ensures info in Walk(prefix, es) <==>
            && prefix < info.path
            && Lookup(es, info.path[|prefix|..]).Some?
            && info == InfoOf(info.path, Lookup(es, info.path[|prefix|..]).value)
    decreases es, 1
  {
    if es != [] {
      WellNamedRest(es);
      WalkIsLookup(prefix, es[1..], info);
      WalkNodeIsLookup(prefix + [es[0].name], es[0].node, info);
      if prefix < info.path {
        var p := info.path[|prefix|..];
        assert info.path == prefix + p;
        if p[0] == es[0].name {
          LookupNeedsName(es[1..], p);
          assert prefix + [es[0].name] <= info.path;
          assert info.path[|prefix| + 1..] == p[1..];
        } else {
          assert !(prefix + [es[0].name] <= info.path);
        }
      }
    }
  }

  lemma {:induction false} WalkNodeIsLookup(path: Path, node: Node, info: FileInfo)
    requires WellNamedNode(node)
    ensures info in WalkNode(path, node) <==>
            && path <= info.path
            && if info.path == path then info == InfoOf(path, node)
               else node.Dir? && Lookup(node.children, info.path[|path|..]).Some?
                    && info == InfoOf(info.path, Lookup(node.children, info.path[|path|..]).value)
    decreases node, 0
  {
    if node.Dir? {
      WalkIsLookup(path, node.children, info);
    }
  }

  /** Every listed path starts below the prefix, with the name of one of the entries. */
  lemma {:induction false} WalkBelow(prefix: Path, es: Forest, i: nat)
    requires i < |Walk(prefix, es)|
    ensures prefix < Walk(prefix, es)[i].path
    ensures exists k :: 0 <= k < |es| && Walk(prefix, es)[i].path[|prefix|] == es[k].name
    decreases es, 1
  {
    var here := WalkNode(prefix + [es[0].name], es[0].node);
    if i < |here| {
      WalkNodeBelow(prefix + [es[0].name], es[0].node, i);
    } else {
      WalkBelow(prefix, es[1..], i - |here|);
      var k :| 0 <= k < |es[1..]| && Walk(prefix, es[1..])[i - |here|].path[|prefix|] == es[1..][k].name;
      assert es[1..][k] == es[k + 1];
    }
  }

  lemma {:induction false} WalkNodeBelow(path: Path, node: Node, i: nat)
    requires i < |WalkNode(path, node)|
    ensures path <= WalkNode(path, node)[i].path
    ensures i > 0 ==> path < WalkNode(path, node)[i].path
    decreases node, 0
  {
    if i > 0 {
      WalkBelow(path, node.children, i - 1);
    }
  }

  ghost predicate DistinctPaths(infos: seq<FileInfo>) {
    forall i, j | 0 <= i < j < |infos| :: infos[i].path != infos[j].path
  }

  lemma {:induction false} WalkDistinct(prefix: Path, es: Forest)
    requires WellNamed(es)
    ensures DistinctPaths(Walk(prefix, es))
    decreases es, 1
  {
    if es != [] {
      WellNamedRest(es);
      var path := prefix + [es[0].name];
      var here, rest := WalkNode(path, es[0].node), Walk(prefix, es[1..]);
      WalkNodeDistinct(path, es[0].node);
      WalkDistinct(prefix, es[1..]);
      forall i, j | 0 <= i < |here| && 0 <= j < |rest| ensures here[i].path != rest[j].path {
        WalkNodeBelow(path, es[0].node, i);
        WalkBelow(prefix, es[1..], j);
        assert here[i].path[|prefix|] == path[|prefix|] == es[0].name;
      }
    }
  }

  lemma {:induction false} WalkNodeDistinct(path: Path, node: Node)
    requires WellNamedNode(node)
    ensures DistinctPaths(WalkNode(path, node))
    decreases node, 0
  {
    if node.Dir? {
      WalkDistinct(path, node.children);
      forall j | 0 < j < |WalkNode(path, node)| ensures WalkNode(path, node)[j].path != path {
        WalkNodeBelow(path, node, j);
      }
    }
  }

  ghost predicate ParentListed(infos: seq<FileInfo>, i: nat, n: nat)
    requires i < |infos| && n <= |infos[i].path|
  {
    exists j :: 0 <= j < i && infos[j].path == infos[i].path[..n] && infos[j].fileType == Directory
  }

  /** Every folder on the way to a listed path, below the prefix, is listed before it. */
  ghost predicate ParentsFirst(infos: seq<FileInfo>, depth: nat) {
    forall i, n | 0 <= i < |infos| && depth < n < |infos[i].path| :: ParentListed(infos, i, n)
  }

  lemma {:induction false} WalkParentsFirst(prefix: Path, es: Forest)
    ensures ParentsFirst(Walk(prefix, es), |prefix|)
    decreases es, 1
  {
    if es != [] {
      var path := prefix + [es[0].name];
      var here, rest, all := WalkNode(path, es[0].node), Walk(prefix, es[1..]), Walk(prefix, es);
      assert all == here + rest;
      WalkNodeParentsFirst(path, es[0].node);
      WalkParentsFirst(prefix, es[1..]);
      forall i, n | 0 <= i < |all| && |prefix| < n < |all[i].path| ensures ParentListed(all, i, n) {
        if i < |here| {
          assert ParentListed(here, i, n);
          var j :| 0 <= j < i && here[j].path == here[i].path[..n] && here[j].fileType == Directory;
          assert all[j] == here[j];
        } else {
          assert ParentListed(rest, i - |here|, n);
          var j :| 0 <= j < i - |here| && rest[j].path == rest[i - |here|].path[..n] && rest[j].fileType == Directory;
          assert all[j + |here|] == rest[j];
        }
      }
    }
  }

  lemma {:induction false} WalkNodeParentsFirst(path: Path, node: Node)
    requires path != []
    ensures ParentsFirst(WalkNode(path, node), |path| - 1)
    decreases node, 0
  {
    var all := WalkNode(path, node);
    if node.Dir? { WalkParentsFirst(path, node.children); }
    forall i, n | 0 <= i < |all| && |path| - 1 < n < |all[i].path| ensures ParentListed(all, i, n) {
      if i > 0 {
        var below := Walk(path, node.children);
        WalkNodeBelow(path, node, i);
        if n == |path| {
          assert all[0].path == all[i].path[..n];
        } else {
          assert ParentListed(below, i - 1, n);
          var j :| 0 <= j < i - 1 && below[j].path == below[i - 1].path[..n] && below[j].fileType == Directory;
          assert all[j + 1] == below[j];
        }
      }
    }
  }
}
