/** What the sender's order of listing means for the permission pass at the other end. */
module SentOrder {
  import opened Options
  import opened FileTree
  import opened FileSender
  import opened ReceiverModel
  import opened PermissionOrder
  import opened RoundTrip

  /** Every chunk is for one of the listed items. */
  ghost predicate ChunkListed(infos: seq<FileInfo>, stream: seq<Option<Chunk>>, i: nat) {
    i < |stream| && stream[i].Some? && exists k :: 0 <= k < |infos| && infos[k].path == stream[i].value.path
  }

  lemma {:induction false} ChunksAreListed(infos: seq<FileInfo>, blockSize: nat, i: nat)
    requires blockSize > 0 && i < |AllChunks(infos, blockSize)|
    ensures ChunkListed(infos, Arriving(AllChunks(infos, blockSize)), i)
    decreases |infos|
  {
    var here := ChunksOf(infos[0], blockSize);
    if i < |here| {
      assert AllChunks(infos, blockSize)[i] == here[i];
    } else {
      var rest := AllChunks(infos[1..], blockSize);
      assert AllChunks(infos, blockSize)[i] == rest[i - |here|];
      ChunksAreListed(infos[1..], blockSize, i - |here|);
      var k :| 0 <= k < |infos[1..]| && infos[1..][k].path == rest[i - |here|].path;
      assert infos[k + 1] == infos[1..][k];
    }
  }

  /** No item lies below a later one. */
  ghost predicate OuterFirst(infos: seq<FileInfo>) {
    forall i, j | 0 <= i < j < |infos| :: !(infos[j].path < infos[i].path)
  }

  lemma WalkIsOuterFirst(forest: Forest)
    requires WellNamed(forest)
    ensures OuterFirst(Walk([], forest)) && DistinctPaths(Walk([], forest))
  {
    var infos := Walk([], forest);
    WalkDistinct([], forest);
    WalkParentsFirst([], forest);
    forall i, j | 0 <= i < j < |infos| ensures !(infos[j].path < infos[i].path) {
      var n := |infos[j].path|;
      WalkBelow([], forest, j);
      assert 0 < n < |infos[i].path| ==> ParentListed(infos, i, n);
    }
  }

  /** The chunks of one more item, which no earlier one lies below, keep the order. */
  lemma OneMoreInOrder(stream: seq<Option<Chunk>>, more: seq<Option<Chunk>>, path: Path)
    requires AllArrive(stream) && AllArrive(more) && PreOrder(stream) && Contiguous(stream)
    requires forall i | 0 <= i < |more| :: more[i].value.path == path
    requires forall i | 0 <= i < |stream| :: stream[i].value.path != path && !(path < stream[i].value.path)
    ensures PreOrder(stream + more) && Contiguous(stream + more)
  {
  }

  lemma {:induction false} ListInOrder(infos: seq<FileInfo>, blockSize: nat)
    requires blockSize > 0 && DistinctPaths(infos) && OuterFirst(infos)
    ensures
      var stream := Arriving(AllChunks(infos, blockSize));
      AllArrive(stream) && PreOrder(stream) && Contiguous(stream)
    decreases |infos|
  {
    if infos != [] {
      var front, last := infos[..|infos| - 1], infos[|infos| - 1];
      ListInOrder(front, blockSize);
      var stream := Arriving(AllChunks(front, blockSize));
      forall i | 0 <= i < |stream|
        ensures stream[i].value.path != last.path && !(last.path < stream[i].value.path)
      {
        ChunksAreListed(front, blockSize, i);
        var k :| 0 <= k < |front| && front[k].path == stream[i].value.path;
        assert infos[k] == front[k];
      }
      ArrivingSnoc(infos, blockSize);
      OneMoreInOrder(stream, Arriving(ChunksOf(last, blockSize)), last.path);
    }
  }

  /** What is sent is in pre-order, and the chunks of each path are together. */
  lemma SentInOrder(forest: Forest, blockSize: nat)
    requires WellNamed(forest) && blockSize > 0
    ensures
      var stream := Arriving(AllChunks(Walk([], forest), blockSize));
      AllArrive(stream) && PreOrder(stream) && Contiguous(stream)
  {
    WalkIsOuterFirst(forest);
    ListInOrder(Walk([], forest), blockSize);
  }

  /**
    Hence, for any tree sent and any file system it is received on: the receiver's
    last calls are of chmod, from the innermost folders outwards and each once.
   */
  lemma SentFoldersInnermostFirst<F>(ops: Fs<F>, cfg: Config, fs: F, total: nat, forest: Forest, blockSize: nat)
    requires WellNamed(forest) && blockSize > 0 && cfg.preservePerms
    requires ReceiveAll(ops, cfg, Fresh(fs, total), Arriving(AllChunks(Walk([], forest), blockSize))).fault.None?
    ensures
      var stream := Arriving(AllChunks(Walk([], forest), blockSize));
      var received := Close(ops, cfg, ReceiveAll(ops, cfg, Fresh(fs, total), stream).st).log;
      var finished := Finish(ops, cfg, ReceiveAll(ops, cfg, Fresh(fs, total), stream).st).log;
      && AllArrive(stream) && received <= finished
      && var calls := finished[|received|..];
         && AreCalls(calls, FolderModes(stream))
         && forall a, b | 0 <= a < b < |calls| :: calls[a].path != calls[b].path && !(calls[a].path < calls[b].path)
  {
    SentInOrder(forest, blockSize);
    PermissionsComeLast(ops, cfg, fs, total, Arriving(AllChunks(Walk([], forest), blockSize)));
  }
}
