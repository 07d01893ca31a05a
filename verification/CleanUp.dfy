/** What is on disk after a transfer that was refused or cancelled on its way. */
module CleanUp {
  import opened Options
  import opened FileTree
  import opened FileSender
  import opened ReceiverModel
  import opened Confinement
  import opened RoundTrip
  import opened SaveFolder

  /** Nothing at or below the name; every other entry as it was. */
  ghost predicate WithoutItem(before: Folder, name: Name, after: Folder) {
    forall q :: (q in after <==> q in before && !([name] <= q)) && (q in after ==> after[q] == before[q])
  }

  /**
    What is left, given what was there and where the receiver was when it
    stopped: the whole top-level item goes, as far as it can be removed; at an
    unsafe path, or before any chunk, everything stays.
   */
  ghost predicate CleanedAt(host: Host, before: Folder, at: Option<Path>, after: Folder) {
    if at.Some? && at.value != [] && Safe(host, before, at.value) then
      var name := at.value[0];
      name != ".." ==>
        && Removes(before, [name], after)
        && (Removable(before, [name]) ==> WithoutItem(before, name, after))
    else after == before
  }

  lemma CleanedUp(host: Host, st: State<Folder>)
    requires RemovesAsItCan(host)
    ensures
      var at := if st.current.None? then None else Some(st.current.value.path);
      CleanedAt(host, st.fs, at, CleanCurrent(Operations(host), st).fs)
  {
    if st.current.Some? && st.current.value.path != [] && Safe(host, st.fs, st.current.value.path) {
      var name := st.current.value.path[0];
      var after := host.removeAny(st.fs, [name]);
      assert CleanCurrent(Operations(host), st).fs == after;
      assert name != ".." ==> Removes(st.fs, [name], after);
    }
  }

  /**
    A transfer that is refused, whatever would have come after, or cancelled:
    of the top-level item it was at nothing is left that can be removed, and
    everything else is as the last chunk left it.
   */
  lemma NoPartIsLeft(host: Host, cfg: Config, fs: Folder, total: nat, stream: seq<Option<Chunk>>,
                     rest: seq<Option<Chunk>>)
    requires RemovesAsItCan(host)
    requires Comes(Operations(host), cfg, Fresh(CleanExisting(Operations(host), fs, cfg.topDirs), total), stream)
    ensures
      var ops := Operations(host);
      var step := ReceiveAll(ops, cfg, Fresh(CleanExisting(ops, fs, cfg.topDirs), total), stream);
      && CleanedAt(host, step.st.fs, LastPath(stream), CancelTransfer(ops, cfg, fs, total, stream).st.fs)
      && (step.fault.Some? ==>
            CleanedAt(host, step.st.fs, LastPath(stream), StartTransfer(ops, cfg, fs, total, stream + rest).st.fs))
  {
    var ops := Operations(host);
    var start := Fresh(CleanExisting(ops, fs, cfg.topDirs), total);
    ReceivesBeforeRemoving(ops, cfg, start.fs, total, stream);
    ReceiveSplit(ops, cfg, start, stream, rest);
    CleanedUp(host, ReceiveAll(ops, cfg, start, stream).st);
  }

  // ----- A tree whose transfer stops on its way -----

  lemma LandingsPrefix(cfg: Config, fs: Folder, infos: seq<FileInfo>, j: nat)
    requires Landings(cfg, fs, infos) && j <= |infos|
    ensures Landings(cfg, fs, infos[..j])
    decreases |infos|
  {
    if j == |infos| {
      assert infos[..j] == infos;
    } else {
      LandingsFront(cfg, fs, infos);
      LandingsPrefix(cfg, fs, infos[..|infos| - 1], j);
      assert infos[..|infos| - 1][..j] == infos[..j];
    }
  }

  /** The first chunks of a list: those of some items, then some of the next item's. */
  ghost predicate PartOf(infos: seq<FileInfo>, blockSize: nat, chunks: seq<Chunk>, j: nat, m: nat)
    requires blockSize > 0 && j < |infos|
  {
    && 0 < m <= |ChunksOf(infos[j], blockSize)|
    && chunks == AllChunks(infos[..j], blockSize) + ChunksOf(infos[j], blockSize)[..m]
  }

  lemma ChunkKind(info: FileInfo, blockSize: nat, i: nat)
    requires blockSize > 0 && i < |ChunksOf(info, blockSize)|
    ensures ChunksOf(info, blockSize)[i].path == info.path && ChunksOf(info, blockSize)[i].fileType == info.fileType
  {
  }

  lemma LastOfPart(infos: seq<FileInfo>, blockSize: nat, chunks: seq<Chunk>, j: nat, m: nat)
    requires blockSize > 0 && j < |infos| && PartOf(infos, blockSize, chunks, j, m)
    ensures chunks != []
    ensures chunks[|chunks| - 1].path == infos[j].path && chunks[|chunks| - 1].fileType == infos[j].fileType
  {
    assert chunks[|chunks| - 1] == ChunksOf(infos[j], blockSize)[m - 1];
    ChunkKind(infos[j], blockSize, m - 1);
  }

  lemma TakeOfSum(all: seq<Chunk>, a: seq<Chunk>, b: seq<Chunk>, k: nat)
    requires all == a + b && k <= |all|
    ensures all[..k] == if k <= |a| then a[..k] else a + b[..k - |a|]
  {
  }

  lemma PartOfFront(infos: seq<FileInfo>, blockSize: nat, chunks: seq<Chunk>, j: nat, m: nat)
    requires blockSize > 0 && j < |infos| - 1 && PartOf(infos[..|infos| - 1], blockSize, chunks, j, m)
    ensures PartOf(infos, blockSize, chunks, j, m)
  {
    assert infos[..|infos| - 1][..j] == infos[..j];
  }

  lemma {:induction false} PartSomewhere(infos: seq<FileInfo>, blockSize: nat, k: nat) returns (j: nat, m: nat)
    requires blockSize > 0 && 0 < k <= |AllChunks(infos, blockSize)|
    ensures j < |infos| && PartOf(infos, blockSize, AllChunks(infos, blockSize)[..k], j, m)
    decreases |infos|
  {
    var front := infos[..|infos| - 1];
    var before := AllChunks(front, blockSize);
    ChunksSnoc(infos, blockSize);
    TakeOfSum(AllChunks(infos, blockSize), before, ChunksOf(infos[|infos| - 1], blockSize), k);
    if k <= |before| {
      j, m := PartSomewhere(front, blockSize, k);
      PartOfFront(infos, blockSize, before[..k], j, m);
    } else {
      j, m := |infos| - 1, k - |before|;
    }
  }

  /** The same of the stream as it arrives. */
  ghost predicate StopsIn(infos: seq<FileInfo>, blockSize: nat, stream: seq<Option<Chunk>>, j: nat, m: nat)
    requires blockSize > 0 && j < |infos|
  {
    && 0 < m <= |ChunksOf(infos[j], blockSize)|
    && stream == Arriving(AllChunks(infos[..j], blockSize)) + Arriving(ChunksOf(infos[j], blockSize))[..m]
  }

  lemma StopsSomewhere(infos: seq<FileInfo>, blockSize: nat, k: nat) returns (j: nat, m: nat)
    requires blockSize > 0 && 0 < k <= |AllChunks(infos, blockSize)|
    ensures j < |infos| && StopsIn(infos, blockSize, Arriving(AllChunks(infos, blockSize))[..k], j, m)
    ensures
      var last := AllChunks(infos, blockSize)[k - 1];
      last.path == infos[j].path && last.fileType == infos[j].fileType
  {
    j, m := PartSomewhere(infos, blockSize, k);
    LastOfPart(infos, blockSize, AllChunks(infos, blockSize)[..k], j, m);
    ArrivingPart(AllChunks(infos, blockSize)[..k], AllChunks(infos[..j], blockSize), ChunksOf(infos[j], blockSize), m);
    assert Arriving(AllChunks(infos, blockSize))[..k] == Arriving(AllChunks(infos, blockSize)[..k]);
  }

  lemma ArrivingPart(all: seq<Chunk>, a: seq<Chunk>, b: seq<Chunk>, m: nat)
    requires m <= |b| && all == a + b[..m]
    ensures Arriving(all) == Arriving(a) + Arriving(b)[..m]
  {
  }

  /** Some of an item's chunks have come. */
  ghost predicate InPart(host: Host, cfg: Config, closed: State<Folder>, st: State<Folder>, info: FileInfo) {
    && st.current.Some? && st.current.value.path == info.path
    && info.path in st.fs && st.fs == closed.fs[info.path := st.fs[info.path]]
    && (info.fileType == Directory ==> st.fs[info.path] == FsDir(host.dirMode))
    && (info.fileType == Regular ==> st.fs[info.path].FsFile?)
    && (info.fileType == SymbolicLink ==> st.fs[info.path] == FsLink(info.target))
  }

  lemma FileInPart(host: Host, cfg: Config, st: State<Folder>, info: FileInfo, blockSize: nat, m: nat)
    requires ReadyFor(host, cfg, st, info) && info.fileType == Regular && blockSize > 0
    requires 0 < m <= |ChunksOf(info, blockSize)|
    ensures
      var step := ReceiveAll(Operations(host), cfg, st, Arriving(ChunksOf(info, blockSize))[..m]);
      step.fault.None? && InPart(host, cfg, Close(Operations(host), cfg, st), step.st, info)
  {
    var closed, blocks := Close(Operations(host), cfg, st), Blocks(info.bytes, blockSize);
    var stream := Arriving(ChunksOf(info, blockSize))[..m];
    FileOpened(host, cfg, st, info, blocks[0]);
    var begun := Receive(Operations(host), cfg, st, ChunkOf(info, blocks[0])).st;
    KeepsReachable(closed.fs, info.path, FsFile(blocks[0], host.fileMode));
    BlocksReceived(host, cfg, begun, info, blocks[1..m]);
    assert stream[1..] == Arriving(BlockChunks(info, blocks[1..m]));
    WholeFile(closed.fs, info.path, blocks[0], Joined(blocks[1..m]), host.fileMode);
  }

  lemma ItemInPart(host: Host, cfg: Config, st: State<Folder>, info: FileInfo, blockSize: nat, m: nat)
    requires ReadyFor(host, cfg, st, info) && blockSize > 0 && 0 < m <= |ChunksOf(info, blockSize)|
    ensures
      var step := ReceiveAll(Operations(host), cfg, st, Arriving(ChunksOf(info, blockSize))[..m]);
      step.fault.None? && InPart(host, cfg, Close(Operations(host), cfg, st), step.st, info)
  {
    if info.fileType == Regular {
      FileInPart(host, cfg, st, info, blockSize, m);
    } else {
      assert Arriving(ChunksOf(info, blockSize))[..m] == [Some(ChunkOf(info, []))];
      ReceiveOne(Operations(host), cfg, st, ChunkOf(info, []));
      ItemMade(host, cfg, st, info);
    }
  }

  /** The folder when a list's transfer stops in item j, before anything is cleaned up. */
  ghost predicate StoppedAt(host: Host, cfg: Config, fs: Folder, infos: seq<FileInfo>, j: nat, st: State<Folder>)
    requires j < |infos|
  {
    var laid := Laid(host, cfg.preservePerms, fs, infos[..j]);
    && OrdinaryHole(laid, infos[j].path)
    && InPart(host, cfg, st.(fs := laid), st, infos[j])
  }

  lemma StopsInItem(host: Host, cfg: Config, fs: Folder, total: nat, infos: seq<FileInfo>, blockSize: nat,
                    stream: seq<Option<Chunk>>, j: nat, m: nat)
    requires Landings(cfg, fs, infos) && |infos| <= total && blockSize > 0 && j < |infos|
    requires Searchable(host.dirMode) && Writable(host.dirMode) && StopsIn(infos, blockSize, stream, j, m)
    ensures
      var step := ReceiveAll(Operations(host), cfg, Fresh(fs, total), stream);
      step.fault.None? && StoppedAt(host, cfg, fs, infos, j, step.st)
  {
    var upTo := infos[..j + 1];
    LandingsPrefix(cfg, fs, infos, j + 1);
    LandingsPrefix(cfg, fs, infos, j);
    assert upTo[..j] == infos[..j] && upTo[j] == infos[j];
    ListReceived(host, cfg, fs, total, infos[..j], blockSize);
    var st := ReceiveAll(Operations(host), cfg, Fresh(fs, total), Arriving(AllChunks(infos[..j], blockSize))).st;
    NextCanLand(host, cfg, fs, upTo);
    assert ReadyFor(host, cfg, st, infos[j]) by {
      assert Landing(cfg, fs, infos[j]);
      assert j > 0 ==> infos[..j][j - 1] == infos[j - 1];
    }
    ItemInPart(host, cfg, st, infos[j], blockSize, m);
    ReceiveSplit(Operations(host), cfg, Fresh(fs, total), Arriving(AllChunks(infos[..j], blockSize)),
                 Arriving(ChunksOf(infos[j], blockSize))[..m]);
  }

  // ----- What is removed then -----

  /** All that lies under the item's name has come in this transfer, and can be removed. */
  lemma PartIsRemovable(host: Host, cfg: Config, fs: Folder, infos: seq<FileInfo>, j: nat, st: State<Folder>)
    requires Landings(cfg, fs, infos) && j < |infos| && StoppedAt(host, cfg, fs, infos, j, st)
    requires Searchable(host.dirMode) && Writable(host.dirMode) && Readable(host.dirMode)
    ensures infos[j].path != [] && Removable(st.fs, [infos[j].path[0]])
  {
    assert Landing(cfg, fs, infos[j]);
    LandingsPrefix(cfg, fs, infos, j);
    forall q | q in st.fs && [infos[j].path[0]] <= q ensures Clearable(st.fs, q) {
      LaidAt(host, cfg.preservePerms, fs, infos[..j], q);
      Under(infos[j].path[0], q);
    }
  }

  /** The path of an item that is no link is safe. */
  lemma PartIsSafe(host: Host, cfg: Config, fs: Folder, infos: seq<FileInfo>, j: nat, st: State<Folder>)
    requires j < |infos| && StoppedAt(host, cfg, fs, infos, j, st) && infos[j].fileType in {Regular, Directory}
    ensures Safe(host, st.fs, infos[j].path)
  {
    var p, laid := infos[j].path, Laid(host, cfg.preservePerms, fs, infos[..j]);
    KeepsReachable(laid, p, st.fs[p]);
    OrdinarySpot(host, st.fs, p);
    assert p[0] in p;
  }

  // ----- The list and the tree -----

  /** Item j of the list belongs to tree t: before it come all of the trees before, and the first part of this one. */
  ghost predicate InTree(es: Forest, j: nat, t: nat)
    requires t < |es|
  {
    var before, own := Walk([], es[..t]), WalkNode([es[t].name], es[t].node);
    && |before| <= j < |before| + |own| && j < |Walk([], es)|
    && Walk([], es)[..j] == before + own[..j - |before|]
    && Walk([], es)[j] == own[j - |before|]
  }

  lemma {:induction false} TreeOf(es: Forest, j: nat) returns (t: nat)
    requires j < |Walk([], es)|
    ensures t < |es| && InTree(es, j, t)
    decreases |es|
  {
    var here := WalkNode([es[0].name], es[0].node);
    assert [] + [es[0].name] == [es[0].name];
    if j < |here| {
      t := 0;
      assert es[..0] == [] && Walk([], es)[..j] == here[..j];
    } else {
      var u := TreeOf(es[1..], j - |here|);
      t := u + 1;
      assert es[..t][0] == es[0] && es[..t][1..] == es[1..][..u];
      assert Walk([], es[..t]) == here + Walk([], es[1..][..u]);
      assert Walk([], es)[..j] == here + Walk([], es[1..])[..j - |here|];
    }
  }

  lemma WellNamedPart(es: Forest, t: nat)
    requires WellNamed(es) && t <= |es|
    ensures WellNamed(es[..t])
  {
  }

  /** A path the first trees of the forest hold is listed before the next tree begins, and no other one is. */
  lemma ListedBefore(forest: Forest, j: nat, t: nat, q: Path)
    requires WellNamed(forest) && t < |forest| && InTree(forest, j, t)
    requires q == [] || q[0] != forest[t].name
    ensures forall i | 0 <= i < j && Walk([], forest)[i].path == q ::
              Lookup(forest[..t], q).Some? && Walk([], forest)[i] == InfoOf(q, Lookup(forest[..t], q).value)
    ensures Lookup(forest[..t], q).Some? ==>
              exists i :: 0 <= i < j && Walk([], forest)[i] == InfoOf(q, Lookup(forest[..t], q).value)
  {
    var infos, first, own := Walk([], forest), Walk([], forest[..t]), WalkNode([forest[t].name], forest[t].node);
    WellNamedPart(forest, t);
    assert q[0..] == q;
    forall i | 0 <= i < j && infos[i].path == q
      ensures Lookup(forest[..t], q).Some? && infos[i] == InfoOf(q, Lookup(forest[..t], q).value)
    {
      assert infos[i] == infos[..j][i];
      if i < |first| {
        assert first[i] in first;
        WalkIsLookup([], forest[..t], first[i]);
      } else {
        WalkNodeBelow([forest[t].name], forest[t].node, i - |first|);
        assert infos[i] == own[i - |first|];
        Under(forest[t].name, q);
        assert false;
      }
    }
    if Lookup(forest[..t], q).Some? {
      var info := InfoOf(q, Lookup(forest[..t], q).value);
      WalkIsLookup([], forest[..t], info);
      var i :| 0 <= i < |first| && first[i] == info;
      assert infos[..j][i] == info && infos[i] == info;
    }
  }

  /**
    One path of the save folder after the transfer has stopped in the tree with
    index t: the trees before it are there in full, their folders with the mode
    of new ones; of it and of those after it there is nothing.
   */
  ghost predicate WholeTrees(host: Host, preserve: bool, forest: Forest, t: nat, before: Folder, after: Folder, q: Path)
    requires t < |forest|
  {
    if q != [] && q[0] in Names(forest) then
      && (q in after <==> Lookup(forest[..t], q).Some?)
      && (q in after ==> after[q] == Placed(host, preserve, InfoOf(q, Lookup(forest[..t], q).value)))
    else
      && (q in after <==> q in before)
      && (q in after ==> after[q] == before[q])
  }

  /** What lies under another name than that of item j has come before it. */
  lemma OthersAreLaid(host: Host, cfg: Config, fs: Folder, infos: seq<FileInfo>, j: nat, st: State<Folder>,
                      after: Folder, q: Path)
    requires Landings(cfg, fs, infos) && j < |infos| && StoppedAt(host, cfg, fs, infos, j, st)
    requires WithoutItem(st.fs, infos[j].path[0], after) && (q == [] || q[0] != infos[j].path[0])
    ensures
      var laid := Laid(host, cfg.preservePerms, fs, infos[..j]);
      (q in after <==> q in laid) && (q in after ==> after[q] == laid[q])
  {
    Under(infos[j].path[0], q);
  }

  lemma PartGone(forest: Forest, t: nat, before: Folder, after: Folder, q: Path)
    requires WellNamed(forest) && t < |forest| && q != [] && q[0] == forest[t].name
    requires WithoutItem(before, forest[t].name, after)
    ensures q !in after && q[0] in Names(forest) && Lookup(forest[..t], q).None?
  {
    Under(forest[t].name, q);
    assert Names(forest)[t] == q[0];
    LookupNeedsName(forest[..t], q);
  }

  lemma NamedBefore(forest: Forest, t: nat, q: Path)
    requires WellNamed(forest) && t <= |forest| && Lookup(forest[..t], q).Some?
    ensures q != [] && q[0] in Names(forest)
  {
    WellNamedPart(forest, t);
    LookupValid(forest[..t], q);
    var i :| 0 <= i < t && Names(forest[..t])[i] == q[0];
    assert Names(forest)[i] == q[0];
  }

  /** Under names other than that of item j the list laid down the trees before, and nothing else. */
  lemma LaidIsTrees(host: Host, cfg: Config, fs: Folder, forest: Forest, j: nat, t: nat, q: Path)
    requires WellNamed(forest) && t < |forest| && InTree(forest, j, t) && (q == [] || q[0] != forest[t].name)
    requires Landings(cfg, fs, Walk([], forest))
    ensures
      var laid := Laid(host, cfg.preservePerms, fs, Walk([], forest)[..j]);
      match Lookup(forest[..t], q)
      case Some(node) => q in laid && laid[q] == Placed(host, cfg.preservePerms, InfoOf(q, node))
      case None => (q in laid <==> q in fs) && (q in laid ==> laid[q] == fs[q])
  {
    var infos := Walk([], forest);
    LandingsPrefix(cfg, fs, infos, j);
    LaidAt(host, cfg.preservePerms, fs, infos[..j], q);
    ListedBefore(forest, j, t, q);
    assert forall i | 0 <= i < j :: infos[..j][i] == infos[i];
  }

  lemma WholeTreesAt(host: Host, cfg: Config, fs0: Folder, forest: Forest, j: nat, t: nat, st: State<Folder>,
                     after: Folder, q: Path)
    requires WellNamed(forest) && cfg.topDirs == Names(forest) && t < |forest| && InTree(forest, j, t)
    requires RemovesAsItCan(host) && AllRemovable(fs0, cfg.topDirs)
    requires
      var fs := CleanExisting(Operations(host), fs0, cfg.topDirs);
      Landings(cfg, fs, Walk([], forest)) && StoppedAt(host, cfg, fs, Walk([], forest), j, st)
    requires WithoutItem(st.fs, forest[t].name, after)
    ensures WholeTrees(host, cfg.preservePerms, forest, t, fs0, after, q)
  {
    var fs := CleanExisting(Operations(host), fs0, cfg.topDirs);
    if q != [] && q[0] == forest[t].name {
      PartGone(forest, t, st.fs, after, q);
    } else {
      NamesAreOrdinary(forest);
      Cleaned(host, fs0, cfg.topDirs, q);
      NameOf(forest, j, t);
      OthersAreLaid(host, cfg, fs, Walk([], forest), j, st, after, q);
      LaidIsTrees(host, cfg, fs, forest, j, t, q);
      if Lookup(forest[..t], q).Some? {
        NamedBefore(forest, t, q);
      }
    }
  }

  lemma NameOf(forest: Forest, j: nat, t: nat)
    requires t < |forest| && InTree(forest, j, t)
    ensures Walk([], forest)[j].path != [] && Walk([], forest)[j].path[0] == forest[t].name
  {
    WalkNodeBelow([forest[t].name], forest[t].node, j - |Walk([], forest[..t])|);
  }

  /** The transfer of a tree, cancelled after some of its chunks. */
  function Cancelled(host: Host, preserve: bool, fs0: Folder, forest: Forest, blockSize: nat, k: nat): Outcome<Folder>
    requires blockSize > 0 && k <= |AllChunks(Walk([], forest), blockSize)|
  {
    CancelTransfer(Operations(host), Config(Names(forest), preserve), fs0, |Walk([], forest)|,
                   Arriving(AllChunks(Walk([], forest), blockSize))[..k])
  }

  /** The receiver just before it cleans up. */
  function Stopped(host: Host, preserve: bool, fs0: Folder, forest: Forest, blockSize: nat, k: nat): Step<Folder>
    requires blockSize > 0 && k <= |AllChunks(Walk([], forest), blockSize)|
  {
    var cfg := Config(Names(forest), preserve);
    ReceiveAll(Operations(host), cfg, Fresh(CleanExisting(Operations(host), fs0, cfg.topDirs), |Walk([], forest)|),
               Arriving(AllChunks(Walk([], forest), blockSize))[..k])
  }

  lemma StopsInList(host: Host, cfg: Config, fs: Folder, infos: seq<FileInfo>, blockSize: nat, k: nat) returns (j: nat)
    requires Landings(cfg, fs, infos) && blockSize > 0 && 0 < k <= |AllChunks(infos, blockSize)|
    requires Searchable(host.dirMode) && Writable(host.dirMode)
    ensures
      var step := ReceiveAll(Operations(host), cfg, Fresh(fs, |infos|), Arriving(AllChunks(infos, blockSize))[..k]);
      j < |infos| && step.fault.None? && StoppedAt(host, cfg, fs, infos, j, step.st)
    ensures
      var last := AllChunks(infos, blockSize)[k - 1];
      last.path == infos[j].path && last.fileType == infos[j].fileType
  {
    var m;
    j, m := StopsSomewhere(infos, blockSize, k);
    StopsInItem(host, cfg, fs, |infos|, infos, blockSize, Arriving(AllChunks(infos, blockSize))[..k], j, m);
  }

  /** The last chunk that came. */
  function LastOf(forest: Forest, blockSize: nat, k: nat): Chunk
    requires blockSize > 0 && 0 < k <= |AllChunks(Walk([], forest), blockSize)|
  {
    AllChunks(Walk([], forest), blockSize)[k - 1]
  }

  /**
    A tree's transfer that is cancelled, or meets a chunk that does not arrive
    intact, after any number of its chunks: unless that was just behind a link
    that leads out of the save folder, exactly the top-level trees sent before
    are there, in full, and nothing of the one it stopped in, even if all of
    that had come. Behind such a link everything received so far stays.
   */
  lemma InterruptedTree(host: Host, preserve: bool, fs0: Folder, forest: Forest, blockSize: nat, k: nat,
                        rest: seq<Option<Chunk>>)
    requires WellNamed(forest) && blockSize > 0 && 0 < k <= |AllChunks(Walk([], forest), blockSize)|
    requires Readable(host.dirMode) && Searchable(host.dirMode) && Writable(host.dirMode)
    requires RemovesAsItCan(host) && AllRemovable(fs0, Names(forest))
    ensures
      var last := LastOf(forest, blockSize, k);
      var before := Stopped(host, preserve, fs0, forest, blockSize, k).st.fs;
      var outcome := Cancelled(host, preserve, fs0, forest, blockSize, k);
      && outcome.status == TRANSFERRING
      && (if last.fileType != SymbolicLink || Safe(host, before, last.path) then
            exists t | 0 <= t < |forest| ::
              && [forest[t].name] <= last.path
              && forall q :: WholeTrees(host, preserve, forest, t, fs0, outcome.st.fs, q)
          else outcome.st.fs == before && last.path in before)
    ensures
      var outcome := StartTransfer(Operations(host), Config(Names(forest), preserve), fs0, |Walk([], forest)|,
                                   Arriving(AllChunks(Walk([], forest), blockSize))[..k] + [None] + rest);
      && outcome.status == FAILED
      && outcome.st.fs == Cancelled(host, preserve, fs0, forest, blockSize, k).st.fs
  {
    var infos, cfg := Walk([], forest), Config(Names(forest), preserve);
    var fs := CleanExisting(Operations(host), fs0, cfg.topDirs);
    WalkLands(host, preserve, fs0, forest);
    var j := StopsInList(host, cfg, fs, infos, blockSize, k);
    var t := TreeOf(forest, j);
    NameOf(forest, j, t);
    Interrupted(host, cfg, fs0, forest, j, t, Stopped(host, preserve, fs0, forest, blockSize, k).st);
    BrokenOff(Operations(host), cfg, fs0, |infos|, Arriving(AllChunks(infos, blockSize))[..k], rest);
  }

  lemma Interrupted(host: Host, cfg: Config, fs0: Folder, forest: Forest, j: nat, t: nat, st: State<Folder>)
    requires WellNamed(forest) && cfg.topDirs == Names(forest) && t < |forest| && InTree(forest, j, t)
    requires Readable(host.dirMode) && Searchable(host.dirMode) && Writable(host.dirMode)
    requires RemovesAsItCan(host) && AllRemovable(fs0, cfg.topDirs)
    requires
      var fs := CleanExisting(Operations(host), fs0, cfg.topDirs);
      Landings(cfg, fs, Walk([], forest)) && StoppedAt(host, cfg, fs, Walk([], forest), j, st)
    ensures
      var item := Walk([], forest)[j];
      var after := CleanCurrent(Operations(host), st).fs;
      && item.fileType in {Regular, Directory, SymbolicLink}
      && if item.fileType != SymbolicLink || Safe(host, st.fs, item.path)
         then forall q :: WholeTrees(host, cfg.preservePerms, forest, t, fs0, after, q)
         else after == st.fs && item.path in after
  {
    var infos, fs := Walk([], forest), CleanExisting(Operations(host), fs0, cfg.topDirs);
    var after := CleanCurrent(Operations(host), st).fs;
    NameOf(forest, j, t);
    CleanedUp(host, st);
    assert Landing(cfg, fs, infos[j]);
    if infos[j].fileType != SymbolicLink {
      PartIsSafe(host, cfg, fs, infos, j, st);
    }
    if Safe(host, st.fs, infos[j].path) {
      PartIsRemovable(host, cfg, fs, infos, j, st);
      assert ValidName(infos[j].path[0]);
      forall q ensures WholeTrees(host, cfg.preservePerms, forest, t, fs0, after, q) {
        WholeTreesAt(host, cfg, fs0, forest, j, t, st, after, q);
      }
    }
  }

  lemma BrokenOff<F>(ops: Fs<F>, cfg: Config, fs: F, total: nat, stream: seq<Option<Chunk>>, rest: seq<Option<Chunk>>)
    requires ReceiveAll(ops, cfg, Fresh(CleanExisting(ops, fs, cfg.topDirs), total), stream).fault.None?
    ensures
      var outcome := StartTransfer(ops, cfg, fs, total, stream + [None] + rest);
      outcome.status == FAILED && outcome.st == CancelTransfer(ops, cfg, fs, total, stream).st
  {
    var start := Fresh(CleanExisting(ops, fs, cfg.topDirs), total);
    ReceiveSplit(ops, cfg, start, stream, [None] + rest);
    assert stream + [None] + rest == stream + ([None] + rest);
  }

  const OUTSIDE := [Entry("a", Link(0, ".."))]

  const OUTSIDE_CHUNK := Chunk(["a"], SymbolicLink, "..", [], 0)

  lemma OutsideChunks(blockSize: nat)
    requires blockSize > 0
    ensures |Walk([], OUTSIDE)| == 1 && AllChunks(Walk([], OUTSIDE), blockSize) == [OUTSIDE_CHUNK]
    ensures Names(OUTSIDE) == ["a"]
  {
    var info := FileInfo(["a"], SymbolicLink, "..", 0, []);
    assert OUTSIDE[1..] == [] && [] + ["a"] == ["a"];
    assert Walk([], OUTSIDE) == [info] && [info][1..] == [];
    assert ChunksOf(info, blockSize) == [OUTSIDE_CHUNK];
  }

  lemma OutsideReceived(host: Host, cfg: Config)
    requires cfg.topDirs == ["a"]
    ensures
      var step := Receive(Operations(host), cfg, Fresh(map[], 1), OUTSIDE_CHUNK);
      && step.fault.None? && step.st.current.Some? && step.st.current.value.path == ["a"]
      && step.st.fs == map[["a"] := FsLink("..")]
  {
    assert JoinPath(["a"]) == "a" && cfg.topDirs[0] <= "a";
    OrdinaryAdds(host, map[], ["a"]);
  }

  lemma OutsideKept(host: Host, st: State<Folder>)
    requires host.resolve(map[["a"] := FsLink("..")], ["a"]) == Some([".."])
    requires st.fs == map[["a"] := FsLink("..")] && st.current.Some? && st.current.value.path == ["a"]
    ensures CleanCurrent(Operations(host), st) == st
  {
    var p := ["a"];
    assert Parent(p) == [] && Last(p) == "a" && [] + ["a"] == p;
    assert Next(host, [], "a") == p && LinkAt(st.fs, p);
    assert Place(host, st.fs, p) == Follow(host, st.fs, p) == Some([".."]);
  }

  /** It happens: a link that leads out of the save folder is the last thing to come, and is not removed. */
  lemma LinkIsLeft(host: Host, preserve: bool, blockSize: nat)
    requires RemovesAsItCan(host) && blockSize > 0
    requires host.resolve(map[["a"] := FsLink("..")], ["a"]) == Some([".."])
    ensures AllChunks(Walk([], OUTSIDE), blockSize) == [OUTSIDE_CHUNK]
    ensures Cancelled(host, preserve, map[], OUTSIDE, blockSize, 1).st.fs == map[["a"] := FsLink("..")]
  {
    var ops, cfg := Operations(host), Config(["a"], preserve);
    var none: Folder := map[];
    OutsideChunks(blockSize);
    assert Removes(none, ["a"], host.removeAny(none, ["a"]));
    assert host.removeAny(none, ["a"]) == none;
    assert CleanExisting(ops, none, ["a"]) == CleanExisting(ops, none, ["a"][1..]) == none;
    assert Arriving([OUTSIDE_CHUNK])[..1] == [Some(OUTSIDE_CHUNK)];
    ReceiveOne(ops, cfg, Fresh(none, 1), OUTSIDE_CHUNK);
    OutsideReceived(host, cfg);
    OutsideKept(host, Receive(ops, cfg, Fresh(none, 1), OUTSIDE_CHUNK).st);
  }
}
