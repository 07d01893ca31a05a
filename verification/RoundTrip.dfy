/**
  The end-to-end result: what the sender lists, chunks and compresses, the
  receiver rebuilds, entry for entry, in a save folder whose permissions bite.
 */
module RoundTrip {
  import opened Octets
  import opened Options
  import opened FileTree
  import opened FileSender
  import opened ReceiverModel
  import opened FileReceiver
  import opened SaveFolder

  function Arriving(chunks: seq<Chunk>): (stream: seq<Option<Chunk>>)
    ensures |stream| == |chunks|
    ensures forall i | 0 <= i < |chunks| :: stream[i] == Some(chunks[i])
  {
    seq(|chunks|, i requires 0 <= i < |chunks| => Some(chunks[i]))
  }

  /** What an item becomes as soon as its last chunk has been dealt with. */
  function Placed(host: Host, preserve: bool, info: FileInfo): FsEntry {
    match info.fileType
    case Directory => FsDir(host.dirMode)
    case SymbolicLink => FsLink(info.target)
    case _ => FsFile(info.bytes, if preserve && info.mode > 0 then info.mode else host.fileMode)
  }

  function Deferred(preserve: bool, info: FileInfo): seq<(Path, nat)> {
    if preserve && info.mode > 0 && info.fileType == Directory then [(info.path, info.mode)] else []
  }

  function Laid(host: Host, preserve: bool, fs: Folder, infos: seq<FileInfo>): Folder
    decreases |infos|
  {
    if infos == [] then fs
    else
      var last := |infos| - 1;
      Laid(host, preserve, fs, infos[..last])[infos[last].path := Placed(host, preserve, infos[last])]
  }

  function AllDeferred(preserve: bool, infos: seq<FileInfo>): seq<(Path, nat)>
    decreases |infos|
  {
    if infos == [] then []
    else
      var last := |infos| - 1;
      AllDeferred(preserve, infos[..last]) + Deferred(preserve, infos[last])
  }

  // ----- One item -----

  /** One more block of a file that is open. */
  ghost predicate Open(st: State<Folder>, info: FileInfo) {
    && info.fileType == Regular && st.remaining > 0
    && st.current == Some(Current(info.path, Regular, info.mode, true, true))
    && info.path in st.fs && st.fs[info.path].FsFile?
    && info.path != [] && Ordinary(info.path) && Reachable(st.fs, info.path)
  }

  function Longer(fs: Folder, p: Path, more: Bytes): Folder
    requires p in fs && fs[p].FsFile?
  {
    fs[p := FsFile(fs[p].bytes + more, fs[p].mode)]
  }

  lemma BlockReceived(host: Host, cfg: Config, st: State<Folder>, info: FileInfo, data: Bytes)
    requires Open(st, info)
    ensures
      var step := Receive(Operations(host), cfg, st, ChunkOf(info, data));
      && step == Step(st.(fs := Longer(st.fs, info.path, data), log := step.st.log), None)
      && Open(step.st, info)
  {
    var e := st.fs[info.path];
    OrdinaryChanges(host, st.fs, info.path);
    KeepsReachable(st.fs, info.path, FsFile(e.bytes + data, e.mode));
    assert e.bytes + [] == e.bytes && st.fs[info.path := e] == st.fs;
  }

  lemma LongerTwice(fs: Folder, p: Path, more: Bytes, rest: Bytes)
    requires p in fs && fs[p].FsFile?
    ensures Longer(Longer(fs, p, more), p, rest) == Longer(fs, p, more + rest)
    ensures Longer(fs, p, []) == fs
  {
    assert fs[p].bytes + more + rest == fs[p].bytes + (more + rest);
    assert fs[p].bytes + [] == fs[p].bytes && fs[p := fs[p]] == fs;
  }

  lemma {:induction false} BlocksReceived(host: Host, cfg: Config, st: State<Folder>, info: FileInfo,
                                          blocks: seq<Bytes>)
    requires Open(st, info)
    ensures
      var step := ReceiveAll(Operations(host), cfg, st, Arriving(BlockChunks(info, blocks)));
      step == Step(st.(fs := Longer(st.fs, info.path, Joined(blocks)), log := step.st.log), None)
    decreases |blocks|
  {
    var stream := Arriving(BlockChunks(info, blocks));
    if blocks == [] {
      LongerTwice(st.fs, info.path, [], []);
      assert stream == [] && Joined(blocks) == [];
    } else {
      BlockReceived(host, cfg, st, info, blocks[0]);
      var next := Receive(Operations(host), cfg, st, ChunkOf(info, blocks[0])).st;
      BlocksReceived(host, cfg, next, info, blocks[1..]);
      assert stream[1..] == Arriving(BlockChunks(info, blocks[1..]));
      LongerTwice(st.fs, info.path, blocks[0], Joined(blocks[1..]));
    }
  }

  /** What is at the path does not matter for the way to it. */
  lemma KeepsReachable(fs: Folder, p: Path, e: FsEntry)
    requires Reachable(fs, p)
    ensures Reachable(fs[p := e], p)
  {
    forall n {:trigger SearchableAt(fs[p := e], p[..n])} | 0 < n < |p| ensures SearchableAt(fs[p := e], p[..n]) {
      assert SearchableAt(fs, p[..n]);
    }
  }

  /** The save folder is ready for one more item. */
  ghost predicate ReadyFor(host: Host, cfg: Config, st: State<Folder>, info: FileInfo) {
    var closed := Close(Operations(host), cfg, st);
    && (st.current.Some? ==> st.current.value.hasFile && st.current.value.path != info.path)
    && closed.remaining > 0 && info.fileType != Other && Descended(cfg, info.path)
    && OrdinaryHole(closed.fs, info.path)
  }

  ghost predicate Settled(host: Host, cfg: Config, before: State<Folder>, after: State<Folder>, info: FileInfo) {
    var was, now := Close(Operations(host), cfg, before), Close(Operations(host), cfg, after);
    && after.current.Some? && after.current.value.hasFile && after.current.value.path == info.path
    && now.fs == was.fs[info.path := Placed(host, cfg.preservePerms, info)]
    && now.perms == was.perms + Deferred(cfg.preservePerms, info)
    && now.remaining == was.remaining - 1
  }

  lemma ItemMade(host: Host, cfg: Config, st: State<Folder>, info: FileInfo)
    requires ReadyFor(host, cfg, st, info) && info.fileType in {Directory, SymbolicLink}
    ensures
      var closed := Close(Operations(host), cfg, st);
      var step := Receive(Operations(host), cfg, st, ChunkOf(info, []));
      && step.fault.None?
      && step.st == closed.(current := Some(Current(info.path, info.fileType, info.mode, false, true)),
                            fs := closed.fs[info.path := Placed(host, cfg.preservePerms, info)], log := step.st.log)
  {
    OrdinaryAdds(host, Close(Operations(host), cfg, st).fs, info.path);
  }

  lemma ItemClosed(host: Host, cfg: Config, closed: State<Folder>, st: State<Folder>, info: FileInfo)
    requires info.fileType in {Directory, SymbolicLink}
    requires st == closed.(current := Some(Current(info.path, info.fileType, info.mode, false, true)),
                           fs := closed.fs[info.path := Placed(host, cfg.preservePerms, info)], log := st.log)
    ensures
      var now := Close(Operations(host), cfg, st);
      && now.fs == st.fs && now.perms == closed.perms + Deferred(cfg.preservePerms, info)
      && now.remaining == closed.remaining - 1
  {
  }

  lemma ItemSettled(host: Host, cfg: Config, st: State<Folder>, info: FileInfo)
    requires ReadyFor(host, cfg, st, info) && info.fileType in {Directory, SymbolicLink}
    ensures
      var step := Receive(Operations(host), cfg, st, ChunkOf(info, []));
      step.fault.None? && Settled(host, cfg, st, step.st, info)
  {
    ItemMade(host, cfg, st, info);
    var made := Receive(Operations(host), cfg, st, ChunkOf(info, [])).st;
    ItemClosed(host, cfg, Close(Operations(host), cfg, st), made, info);
  }

  /** The state a regular file's first chunk leaves. */
  lemma FileOpened(host: Host, cfg: Config, st: State<Folder>, info: FileInfo, data: Bytes)
    requires ReadyFor(host, cfg, st, info) && info.fileType == Regular
    ensures
      var closed := Close(Operations(host), cfg, st);
      var step := Receive(Operations(host), cfg, st, ChunkOf(info, data));
      && step.fault.None?
      && step.st == closed.(current := Some(Current(info.path, Regular, info.mode, true, true)),
                            fs := closed.fs[info.path := FsFile(data, host.fileMode)], log := step.st.log)
  {
    var closed := Close(Operations(host), cfg, st);
    var fs := closed.fs[info.path := FsFile([], host.fileMode)];
    OrdinaryAdds(host, closed.fs, info.path);
    KeepsReachable(closed.fs, info.path, FsFile([], host.fileMode));
    OrdinaryChanges(host, fs, info.path);
    assert [] + data == data;
    assert closed.fs[info.path := FsFile([], host.fileMode)][info.path := FsFile(data, host.fileMode)]
        == closed.fs[info.path := FsFile(data, host.fileMode)];
  }

  /** The state all of the file's chunks leave. */
  lemma FileFilled(host: Host, cfg: Config, st: State<Folder>, info: FileInfo, blockSize: nat)
    requires ReadyFor(host, cfg, st, info) && info.fileType == Regular && blockSize > 0
    ensures
      var closed := Close(Operations(host), cfg, st);
      var step := ReceiveAll(Operations(host), cfg, st, Arriving(ChunksOf(info, blockSize)));
      && step.fault.None?
      && step.st == closed.(current := Some(Current(info.path, Regular, info.mode, true, true)),
                            fs := closed.fs[info.path := FsFile(info.bytes, host.fileMode)], log := step.st.log)
  {
    var closed, blocks := Close(Operations(host), cfg, st), Blocks(info.bytes, blockSize);
    var stream := Arriving(BlockChunks(info, blocks));
    FileOpened(host, cfg, st, info, blocks[0]);
    var begun := Receive(Operations(host), cfg, st, ChunkOf(info, blocks[0])).st;
    KeepsReachable(closed.fs, info.path, FsFile(blocks[0], host.fileMode));
    BlocksReceived(host, cfg, begun, info, blocks[1..]);
    assert stream[1..] == Arriving(BlockChunks(info, blocks[1..]));
    BlocksJoin(info.bytes, blockSize);
    WholeFile(closed.fs, info.path, blocks[0], Joined(blocks[1..]), host.fileMode);
  }

  lemma WholeFile(fs: Folder, p: Path, first: Bytes, rest: Bytes, mode: nat)
    ensures Longer(fs[p := FsFile(first, mode)], p, rest) == fs[p := FsFile(first + rest, mode)]
  {
  }

  lemma FileReceived(host: Host, cfg: Config, st: State<Folder>, info: FileInfo, blockSize: nat)
    requires ReadyFor(host, cfg, st, info) && info.fileType == Regular && blockSize > 0
    ensures
      var step := ReceiveAll(Operations(host), cfg, st, Arriving(ChunksOf(info, blockSize)));
      step.fault.None? && Settled(host, cfg, st, step.st, info)
  {
    FileFilled(host, cfg, st, info, blockSize);
    var st' := ReceiveAll(Operations(host), cfg, st, Arriving(ChunksOf(info, blockSize))).st;
    FileClosed(host, cfg, Close(Operations(host), cfg, st), st', info);
  }

  lemma FileClosed(host: Host, cfg: Config, closed: State<Folder>, st: State<Folder>, info: FileInfo)
    requires info.fileType == Regular && OrdinaryHole(closed.fs, info.path)
    requires st == closed.(current := Some(Current(info.path, Regular, info.mode, true, true)),
                           fs := closed.fs[info.path := FsFile(info.bytes, host.fileMode)], log := st.log)
    ensures
      var now := Close(Operations(host), cfg, st);
      && now.fs == closed.fs[info.path := Placed(host, cfg.preservePerms, info)]
      && now.perms == closed.perms && now.remaining == closed.remaining - 1
  {
    KeepsReachable(closed.fs, info.path, FsFile(info.bytes, host.fileMode));
    OrdinaryChanges(host, st.fs, info.path);
  }

  lemma ItemReceived(host: Host, cfg: Config, st: State<Folder>, info: FileInfo, blockSize: nat)
    requires ReadyFor(host, cfg, st, info) && blockSize > 0
    ensures
      var step := ReceiveAll(Operations(host), cfg, st, Arriving(ChunksOf(info, blockSize)));
      step.fault.None? && Settled(host, cfg, st, step.st, info)
  {
    if info.fileType == Regular {
      FileReceived(host, cfg, st, info, blockSize);
    } else {
      assert Arriving(ChunksOf(info, blockSize)) == [Some(ChunkOf(info, []))];
      ReceiveOne(Operations(host), cfg, st, ChunkOf(info, []));
      ItemSettled(host, cfg, st, info);
    }
  }

  // ----- The whole list -----

  lemma {:induction false} LaidAt(host: Host, preserve: bool, fs: Folder, infos: seq<FileInfo>, q: Path)
    requires DistinctPaths(infos)
    ensures forall i | 0 <= i < |infos| && infos[i].path == q ::
              q in Laid(host, preserve, fs, infos)
              && Laid(host, preserve, fs, infos)[q] == Placed(host, preserve, infos[i])
    ensures (forall i | 0 <= i < |infos| :: infos[i].path != q) ==>
              (q in Laid(host, preserve, fs, infos) <==> q in fs)
              && (q in fs ==> Laid(host, preserve, fs, infos)[q] == fs[q])
    decreases |infos|
  {
    if infos != [] {
      var front := infos[..|infos| - 1];
      LaidAt(host, preserve, fs, front, q);
      assert forall i | 0 <= i < |front| :: front[i] == infos[i];
    }
  }

  /** What every item of a walk satisfies with respect to a cleaned folder. */
  ghost predicate Landing(cfg: Config, fs: Folder, info: FileInfo) {
    && info.fileType != Other && info.path != []
    && (forall i | 0 <= i < |info.path| :: ValidName(info.path[i]))
    && Descended(cfg, info.path)
    && (forall q | q in fs :: q == [] || q[0] != info.path[0])
  }

  ghost predicate Landings(cfg: Config, fs: Folder, infos: seq<FileInfo>) {
    && DistinctPaths(infos) && ParentsFirst(infos, 0)
    && forall i | 0 <= i < |infos| :: Landing(cfg, fs, infos[i])
  }

  lemma LandingsFront(cfg: Config, fs: Folder, infos: seq<FileInfo>)
    requires Landings(cfg, fs, infos) && infos != []
    ensures Landings(cfg, fs, infos[..|infos| - 1])
  {
    var front := infos[..|infos| - 1];
    forall i, n | 0 <= i < |front| && 0 < n < |front[i].path| ensures ParentListed(front, i, n) {
      assert ParentListed(infos, i, n);
      var j :| 0 <= j < i && infos[j].path == infos[i].path[..n] && infos[j].fileType == Directory;
      assert front[j] == infos[j];
    }
  }

  ghost predicate FolderLaid(host: Host, fs: Folder, p: Path) {
    p in fs && fs[p] == FsDir(host.dirMode)
  }

  /** On the way to the last item there are only folders, all with the mode of new folders. */
  lemma WayIsLaid(host: Host, cfg: Config, fs: Folder, infos: seq<FileInfo>, n: nat)
    requires Landings(cfg, fs, infos) && infos != []
    requires 0 < n < |infos[|infos| - 1].path|
    ensures FolderLaid(host, Laid(host, cfg.preservePerms, fs, infos[..|infos| - 1]), infos[|infos| - 1].path[..n])
  {
    var last := |infos| - 1;
    var front, p := infos[..last], infos[last].path;
    LandingsFront(cfg, fs, infos);
    assert ParentListed(infos, last, n);
    var j :| 0 <= j < last && infos[j].path == p[..n] && infos[j].fileType == Directory;
    assert front[j] == infos[j];
    LaidAt(host, cfg.preservePerms, fs, front, p[..n]);
  }

  lemma NextCanLand(host: Host, cfg: Config, fs: Folder, infos: seq<FileInfo>)
    requires Landings(cfg, fs, infos) && infos != []
    requires Searchable(host.dirMode) && Writable(host.dirMode)
    ensures
      var p := infos[|infos| - 1].path;
      var laid := Laid(host, cfg.preservePerms, fs, infos[..|infos| - 1]);
      OrdinaryHole(laid, p)
  {
    var last := |infos| - 1;
    var p := infos[last].path;
    var front := infos[..last];
    var laid := Laid(host, cfg.preservePerms, fs, front);
    LandingsFront(cfg, fs, infos);
    assert Landing(cfg, fs, infos[last]);
    LaidAt(host, cfg.preservePerms, fs, front, p);
    assert p !in laid by {
      assert forall i | 0 <= i < |front| :: front[i] == infos[i];
    }
    forall n {:trigger p[..n]} | 0 < n < |p| ensures FolderLaid(host, laid, p[..n]) {
      WayIsLaid(host, cfg, fs, infos, n);
    }
    assert Reachable(laid, p);
    assert |p| > 1 ==> FolderLaid(host, laid, p[..|p| - 1]);
    assert Ordinary(p) by {
      assert forall i | 0 <= i < |p| :: ValidName(p[i]);
    }
  }

  lemma {:induction false} ChunksConcat(a: seq<FileInfo>, b: seq<FileInfo>, blockSize: nat)
    requires blockSize > 0
    ensures AllChunks(a + b, blockSize) == AllChunks(a, blockSize) + AllChunks(b, blockSize)
    decreases |a|
  {
    if a == [] {
      assert a + b == b;
    } else {
      assert (a + b)[0] == a[0] && (a + b)[1..] == a[1..] + b;
      ChunksConcat(a[1..], b, blockSize);
    }
  }

  lemma ChunksSnoc(infos: seq<FileInfo>, blockSize: nat)
    requires infos != [] && blockSize > 0
    ensures AllChunks(infos, blockSize) ==
            AllChunks(infos[..|infos| - 1], blockSize) + ChunksOf(infos[|infos| - 1], blockSize)
  {
    var front, last := infos[..|infos| - 1], infos[|infos| - 1];
    assert infos == front + [last];
    ChunksConcat(front, [last], blockSize);
    assert [last][1..] == [];
  }

  /** The state once the items so far have been received. */
  ghost predicate HasReceived(host: Host, cfg: Config, st: State<Folder>, fs: Folder, total: nat,
                              infos: seq<FileInfo>) {
    var closed := Close(Operations(host), cfg, st);
    && (if infos == [] then st.current.None?
        else st.current.Some? && st.current.value.hasFile && st.current.value.path == infos[|infos| - 1].path)
    && closed.fs == Laid(host, cfg.preservePerms, fs, infos)
    && closed.perms == AllDeferred(cfg.preservePerms, infos)
    && closed.remaining == total - |infos|
  }

  lemma ArrivingSnoc(infos: seq<FileInfo>, blockSize: nat)
    requires infos != [] && blockSize > 0
    ensures Arriving(AllChunks(infos, blockSize))
         == Arriving(AllChunks(infos[..|infos| - 1], blockSize)) + Arriving(ChunksOf(infos[|infos| - 1], blockSize))
  {
    ChunksSnoc(infos, blockSize);
  }

  /** Receiving a list is receiving all but its last item, then the last. */
  lemma LastReceived<F>(ops: Fs<F>, cfg: Config, st: State<F>, infos: seq<FileInfo>, blockSize: nat)
    requires infos != [] && blockSize > 0
    ensures
      var step := ReceiveAll(ops, cfg, st, Arriving(AllChunks(infos[..|infos| - 1], blockSize)));
      ReceiveAll(ops, cfg, st, Arriving(AllChunks(infos, blockSize)))
      == if step.fault.Some? then step
         else ReceiveAll(ops, cfg, step.st, Arriving(ChunksOf(infos[|infos| - 1], blockSize)))
  {
    ArrivingSnoc(infos, blockSize);
    ReceiveSplit(ops, cfg, st, Arriving(AllChunks(infos[..|infos| - 1], blockSize)),
                 Arriving(ChunksOf(infos[|infos| - 1], blockSize)));
  }

  lemma {:induction false} ListReceived(host: Host, cfg: Config, fs: Folder, total: nat, infos: seq<FileInfo>,
                                        blockSize: nat)
    requires Landings(cfg, fs, infos) && |infos| <= total && blockSize > 0
    requires Searchable(host.dirMode) && Writable(host.dirMode)
    ensures
      var step := ReceiveAll(Operations(host), cfg, Fresh(fs, total), Arriving(AllChunks(infos, blockSize)));
      step.fault.None? && HasReceived(host, cfg, step.st, fs, total, infos)
    decreases |infos|
  {
    if infos != [] {
      var front := infos[..|infos| - 1];
      LandingsFront(cfg, fs, infos);
      ListReceived(host, cfg, fs, total, front, blockSize);
      var st := ReceiveAll(Operations(host), cfg, Fresh(fs, total), Arriving(AllChunks(front, blockSize))).st;
      NextReceived(host, cfg, st, fs, total, infos, blockSize);
      LastReceived(Operations(host), cfg, Fresh(fs, total), infos, blockSize);
    }
  }

  lemma NextReceived(host: Host, cfg: Config, st: State<Folder>, fs: Folder, total: nat, infos: seq<FileInfo>,
                     blockSize: nat)
    requires Landings(cfg, fs, infos) && infos != [] && |infos| <= total && blockSize > 0
    requires Searchable(host.dirMode) && Writable(host.dirMode)
    requires HasReceived(host, cfg, st, fs, total, infos[..|infos| - 1])
    ensures
      var step := ReceiveAll(Operations(host), cfg, st, Arriving(ChunksOf(infos[|infos| - 1], blockSize)));
      step.fault.None? && HasReceived(host, cfg, step.st, fs, total, infos)
  {
    var last := |infos| - 1;
    NextCanLand(host, cfg, fs, infos);
    assert ReadyFor(host, cfg, st, infos[last]) by {
      assert Landing(cfg, fs, infos[last]);
      assert last > 0 ==> infos[..last][last - 1] == infos[last - 1];
    }
    ItemReceived(host, cfg, st, infos[last], blockSize);
  }

  // ----- The permission pass -----

  /** No folder twice, and none above an earlier one. */
  ghost predicate InnerLast(modes: seq<(Path, nat)>) {
    forall a, b | 0 <= a < b < |modes| :: modes[a].0 != modes[b].0 && !(modes[b].0 < modes[a].0)
  }

  ghost predicate CanChange(fs: Folder, p: Path) {
    p != [] && Ordinary(p) && FolderAt(fs, p) && Reachable(fs, p)
  }

  /** The pass may begin: its folders are all there, outer ones first. */
  ghost predicate PassReady(fs: Folder, modes: seq<(Path, nat)>) {
    InnerLast(modes) && forall k | 0 <= k < |modes| :: CanChange(fs, modes[k].0)
  }

  /** The state after the first step of the pass, which is for the last folder. */
  function Popped(host: Host, st: State<Folder>): State<Folder>
    requires st.perms != []
  {
    var last := |st.perms| - 1;
    ApplyChmod(Operations(host), st.(perms := st.perms[..last]), st.perms[last].0, st.perms[last].1)
  }

  lemma LastRestored(host: Host, st: State<Folder>)
    requires st.perms != [] && PassReady(st.fs, st.perms)
    ensures
      var (path, mode) := st.perms[|st.perms| - 1];
      var next := Popped(host, st);
      && path in st.fs && next.fs == st.fs[path := FsDir(mode)]
      && next.perms == st.perms[..|st.perms| - 1] && PassReady(next.fs, next.perms)
  {
    var last := |st.perms| - 1;
    var (path, mode) := st.perms[last];
    var next := Popped(host, st);
    assert CanChange(st.fs, st.perms[last].0);
    OrdinaryChanges(host, st.fs, path);
    forall k | 0 <= k < last ensures CanChange(next.fs, next.perms[k].0) {
      assert CanChange(st.fs, st.perms[k].0);
      StillReachable(st.fs, path, mode, st.perms[k].0);
    }
  }

  /** Working from the end, the pass reaches every folder, whatever the modes it sets. */
  lemma {:induction false} PassRestores(host: Host, st: State<Folder>, q: Path)
    requires PassReady(st.fs, st.perms)
    ensures
      var after := ApplyFolderPermissions(Operations(host), st).fs;
      && (q in after <==> q in st.fs)
      && (forall k | 0 <= k < |st.perms| && st.perms[k].0 == q :: q in after && after[q] == FsDir(st.perms[k].1))
      && (q in st.fs && (forall k | 0 <= k < |st.perms| :: st.perms[k].0 != q) ==> after[q] == st.fs[q])
    decreases |st.perms|
  {
    if st.perms != [] {
      var next := Popped(host, st);
      LastRestored(host, st);
      PassRestores(host, next, q);
      assert forall k | 0 <= k < |next.perms| :: next.perms[k] == st.perms[k];
    }
  }

  lemma StillReachable(fs: Folder, path: Path, mode: nat, p: Path)
    requires CanChange(fs, p) && p != path && !(path < p)
    ensures CanChange(fs[path := FsDir(mode)], p)
  {
    var fs' := fs[path := FsDir(mode)];
    forall n {:trigger SearchableAt(fs', p[..n])} | 0 < n < |p| ensures SearchableAt(fs', p[..n]) {
      assert SearchableAt(fs, p[..n]);
      assert p[..n] < p;
    }
  }

  lemma {:induction false} DeferredAre(preserve: bool, infos: seq<FileInfo>, entry: (Path, nat))
    ensures entry in AllDeferred(preserve, infos) <==>
            exists i :: 0 <= i < |infos| && entry in Deferred(preserve, infos[i])
    decreases |infos|
  {
    if infos != [] {
      var last := |infos| - 1;
      var front := infos[..last];
      DeferredAre(preserve, front, entry);
      assert forall i | 0 <= i < last :: front[i] == infos[i];
      if entry in Deferred(preserve, infos[last]) {
      } else if entry in AllDeferred(preserve, infos) {
        assert entry in AllDeferred(preserve, front);
      }
    }
  }

  lemma DeferredFrom(preserve: bool, infos: seq<FileInfo>, k: nat) returns (i: nat)
    requires k < |AllDeferred(preserve, infos)|
    ensures i < |infos| && AllDeferred(preserve, infos)[k] in Deferred(preserve, infos[i])
  {
    DeferredAre(preserve, infos, AllDeferred(preserve, infos)[k]);
    i :| 0 <= i < |infos| && AllDeferred(preserve, infos)[k] in Deferred(preserve, infos[i]);
  }

  lemma {:induction false} DeferredInnerLast(cfg: Config, fs: Folder, infos: seq<FileInfo>)
    requires Landings(cfg, fs, infos)
    ensures InnerLast(AllDeferred(cfg.preservePerms, infos))
    decreases |infos|
  {
    if infos != [] {
      var last := |infos| - 1;
      var modes, before := AllDeferred(cfg.preservePerms, infos), AllDeferred(cfg.preservePerms, infos[..last]);
      LandingsFront(cfg, fs, infos);
      DeferredInnerLast(cfg, fs, infos[..last]);
      forall a, b | 0 <= a < b < |modes| ensures modes[a].0 != modes[b].0 && !(modes[b].0 < modes[a].0) {
        assert modes[a] == before[a];
        if b == |before| {
          var i := DeferredFrom(cfg.preservePerms, infos[..last], a);
          LastIsNotAbove(cfg, fs, infos, i);
        } else {
          assert modes[b] == before[b];
        }
      }
    }
  }

  lemma LastIsNotAbove(cfg: Config, fs: Folder, infos: seq<FileInfo>, i: nat)
    requires Landings(cfg, fs, infos) && i < |infos| - 1
    ensures infos[i].path != infos[|infos| - 1].path && !(infos[|infos| - 1].path < infos[i].path)
  {
    var n := |infos[|infos| - 1].path|;
    assert Landing(cfg, fs, infos[|infos| - 1]);
    assert n < |infos[i].path| ==> ParentListed(infos, i, n);
  }

  lemma LaidFolderCanChange(host: Host, cfg: Config, fs: Folder, infos: seq<FileInfo>, i: nat)
    requires Landings(cfg, fs, infos) && i < |infos| && infos[i].fileType == Directory && Searchable(host.dirMode)
    ensures CanChange(Laid(host, cfg.preservePerms, fs, infos), infos[i].path)
  {
    var laid := Laid(host, cfg.preservePerms, fs, infos);
    var p := infos[i].path;
    LaidAt(host, cfg.preservePerms, fs, infos, p);
    assert Ordinary(p) by {
      assert Landing(cfg, fs, infos[i]);
    }
    forall n {:trigger SearchableAt(laid, p[..n])} | 0 < n < |p| ensures SearchableAt(laid, p[..n]) {
      assert ParentListed(infos, i, n);
      var j :| 0 <= j < i && infos[j].path == p[..n] && infos[j].fileType == Directory;
      LaidAt(host, cfg.preservePerms, fs, infos, p[..n]);
    }
  }

  lemma PassIsReady(host: Host, cfg: Config, fs: Folder, infos: seq<FileInfo>)
    requires Landings(cfg, fs, infos) && cfg.preservePerms && Searchable(host.dirMode)
    ensures PassReady(Laid(host, true, fs, infos), AllDeferred(true, infos))
  {
    var laid, modes := Laid(host, true, fs, infos), AllDeferred(true, infos);
    DeferredInnerLast(cfg, fs, infos);
    forall k | 0 <= k < |modes| ensures CanChange(laid, modes[k].0) {
      var i := DeferredFrom(true, infos, k);
      LaidFolderCanChange(host, cfg, fs, infos, i);
    }
  }

  /** The mode put aside for a path is that of the item with this path. */
  lemma DeferredAt(infos: seq<FileInfo>, i: nat)
    requires DistinctPaths(infos) && i < |infos|
    ensures
      var modes := AllDeferred(true, infos);
      if Deferred(true, infos[i]) != [] then exists k :: 0 <= k < |modes| && modes[k] == (infos[i].path, infos[i].mode)
      else forall k | 0 <= k < |modes| :: modes[k].0 != infos[i].path
  {
    var modes := AllDeferred(true, infos);
    if Deferred(true, infos[i]) != [] {
      assert (infos[i].path, infos[i].mode) in Deferred(true, infos[i]);
      DeferredAre(true, infos, (infos[i].path, infos[i].mode));
    } else {
      forall k | 0 <= k < |modes| ensures modes[k].0 != infos[i].path {
        var j := DeferredFrom(true, infos, k);
        assert modes[k] == (infos[j].path, infos[j].mode);
      }
    }
  }

  function ModeFor(preserve: bool, mode: nat, otherwise: nat): nat {
    if preserve && mode > 0 then mode else otherwise
  }

  /** The entry a listed item is to become. */
  function Final(host: Host, preserve: bool, info: FileInfo): FsEntry {
    match info.fileType
    case Directory => FsDir(ModeFor(preserve, info.mode, host.dirMode))
    case SymbolicLink => FsLink(info.target)
    case _ => FsFile(info.bytes, ModeFor(preserve, info.mode, host.fileMode))
  }

  lemma FinalOrPlaced(host: Host, info: FileInfo)
    ensures
      if Deferred(true, info) != []
      then Placed(host, true, info) == FsDir(host.dirMode) && Final(host, true, info) == FsDir(info.mode)
      else Final(host, true, info) == Placed(host, true, info)
  {
  }

  /** A folder whose mode was put aside gets it in the pass. */
  lemma DeferredFinished(host: Host, st: State<Folder>, infos: seq<FileInfo>, i: nat)
    requires DistinctPaths(infos) && i < |infos| && PassReady(st.fs, st.perms)
    requires st.perms == AllDeferred(true, infos) && Deferred(true, infos[i]) != []
    requires infos[i].path in st.fs && st.fs[infos[i].path] == FsDir(host.dirMode)
    ensures
      var after := ApplyFolderPermissions(Operations(host), st).fs;
      infos[i].path in after && after[infos[i].path] == FsDir(infos[i].mode)
  {
    PassRestores(host, st, infos[i].path);
    DeferredAt(infos, i);
    var k :| 0 <= k < |st.perms| && st.perms[k] == (infos[i].path, infos[i].mode);
  }

  /** The pass does not touch an item whose mode was not put aside. */
  lemma OthersFinished(host: Host, st: State<Folder>, infos: seq<FileInfo>, i: nat)
    requires DistinctPaths(infos) && i < |infos| && PassReady(st.fs, st.perms)
    requires st.perms == AllDeferred(true, infos) && Deferred(true, infos[i]) == []
    requires infos[i].path in st.fs
    ensures
      var after := ApplyFolderPermissions(Operations(host), st).fs;
      infos[i].path in after && after[infos[i].path] == st.fs[infos[i].path]
  {
    PassRestores(host, st, infos[i].path);
    DeferredAt(infos, i);
  }

  lemma ListedFinished(host: Host, st: State<Folder>, fs: Folder, infos: seq<FileInfo>, i: nat)
    requires DistinctPaths(infos) && i < |infos| && PassReady(st.fs, st.perms)
    requires st.fs == Laid(host, true, fs, infos) && st.perms == AllDeferred(true, infos)
    ensures
      var after := ApplyFolderPermissions(Operations(host), st).fs;
      infos[i].path in after && after[infos[i].path] == Final(host, true, infos[i])
  {
    LaidAt(host, true, fs, infos, infos[i].path);
    FinalOrPlaced(host, infos[i]);
    if Deferred(true, infos[i]) != [] {
      DeferredFinished(host, st, infos, i);
    } else {
      OthersFinished(host, st, infos, i);
    }
  }

  lemma UnlistedFinished(host: Host, st: State<Folder>, fs: Folder, infos: seq<FileInfo>, q: Path)
    requires DistinctPaths(infos) && PassReady(st.fs, st.perms) && forall i | 0 <= i < |infos| :: infos[i].path != q
    requires st.fs == Laid(host, true, fs, infos) && st.perms == AllDeferred(true, infos)
    ensures
      var after := ApplyFolderPermissions(Operations(host), st).fs;
      (q in after <==> q in fs) && (q in fs ==> after[q] == fs[q])
  {
    LaidAt(host, true, fs, infos, q);
    PassRestores(host, st, q);
    forall k | 0 <= k < |st.perms| ensures st.perms[k].0 != q {
      var i := DeferredFrom(true, infos, k);
    }
  }

  /** One path, compared with the list. */
  ghost predicate AsListed(host: Host, preserve: bool, fs: Folder, infos: seq<FileInfo>, after: Folder, q: Path) {
    && (forall i | 0 <= i < |infos| && infos[i].path == q :: q in after && after[q] == Final(host, preserve, infos[i]))
    && ((forall i | 0 <= i < |infos| :: infos[i].path != q) ==>
          (q in after <==> q in fs) && (q in fs ==> after[q] == fs[q]))
  }

  lemma PassFinished(host: Host, st: State<Folder>, fs: Folder, infos: seq<FileInfo>, q: Path)
    requires DistinctPaths(infos) && PassReady(st.fs, st.perms)
    requires st.fs == Laid(host, true, fs, infos) && st.perms == AllDeferred(true, infos)
    ensures AsListed(host, true, fs, infos, ApplyFolderPermissions(Operations(host), st).fs, q)
  {
    var after := ApplyFolderPermissions(Operations(host), st).fs;
    forall i | 0 <= i < |infos| && infos[i].path == q ensures q in after && after[q] == Final(host, true, infos[i]) {
      ListedFinished(host, st, fs, infos, i);
    }
    if forall i | 0 <= i < |infos| :: infos[i].path != q {
      UnlistedFinished(host, st, fs, infos, q);
    }
  }

  lemma ListFinished(host: Host, cfg: Config, st: State<Folder>, fs: Folder, infos: seq<FileInfo>, q: Path)
    requires Landings(cfg, fs, infos) && HasReceived(host, cfg, st, fs, |infos|, infos) && Searchable(host.dirMode)
    ensures Finish(Operations(host), cfg, st).remaining == 0
    ensures AsListed(host, cfg.preservePerms, fs, infos, Finish(Operations(host), cfg, st).fs, q)
  {
    if cfg.preservePerms {
      PassIsReady(host, cfg, fs, infos);
      PassFinished(host, Close(Operations(host), cfg, st), fs, infos, q);
    } else {
      LaidAt(host, false, fs, infos, q);
    }
  }

  // ----- The theorem -----

  /** Everything under these names can be removed: a condition on the folder that can be looked up beforehand. */
  ghost predicate AllRemovable(fs: Folder, names: seq<Name>) {
    forall i | 0 <= i < |names| :: Removable(fs, [names[i]])
  }

  lemma Under(name: Name, q: Path)
    ensures [name] <= q <==> q != [] && q[0] == name
  {
  }

  /** Removing one name leaves the others as removable as they were. */
  lemma StillRemovable(fs: Folder, name: Name, fs': Folder, other: Name)
    requires Removes(fs, [name], fs') && Removable(fs, [name]) && Removable(fs, [other])
    ensures Removable(fs', [other])
  {
    forall q | q in fs' && [other] <= q ensures Clearable(fs', q) {
      assert Clearable(fs, q);
      if r :| r in fs' && Holds(fs', q, r) {
        assert Holds(fs, q, r);
      }
    }
  }

  lemma {:induction false} Cleaned(host: Host, fs: Folder, names: seq<Name>, q: Path)
    requires RemovesAsItCan(host) && AllRemovable(fs, names) && Ordinary(names)
    ensures
      var fs' := CleanExisting(Operations(host), fs, names);
      (q in fs' <==> q in fs && (q == [] || q[0] !in names)) && (q in fs' ==> fs'[q] == fs[q])
    decreases |names|
  {
    if names != [] {
      var rest := host.removeAny(fs, [names[0]]);
      assert names[0] in names;
      assert Removes(fs, [names[0]], rest) && Removable(fs, [names[0]]);
      forall i | 0 <= i < |names[1..]| ensures Removable(rest, [names[1..][i]]) {
        assert names[1..][i] == names[i + 1];
        StillRemovable(fs, names[0], rest, names[i + 1]);
      }
      Cleaned(host, rest, names[1..], q);
      Under(names[0], q);
      assert q != [] ==> (q[0] in names <==> q[0] == names[0] || q[0] in names[1..]);
    }
  }

  lemma {:induction false} LookupValid(es: Forest, p: Path)
    requires WellNamed(es) && Lookup(es, p).Some?
    ensures forall i | 0 <= i < |p| :: ValidName(p[i])
    ensures p[0] in Names(es)
    decreases |p|, |es|
  {
    WellNamedRest(es);
    if es[0].name != p[0] {
      LookupValid(es[1..], p);
      assert forall i | 0 <= i < |es| - 1 :: Names(es[1..])[i] == Names(es)[i + 1];
    } else {
      assert Names(es)[0] == p[0];
      if |p| > 1 {
        LookupValid(es[0].node.children, p[1..]);
        assert forall i | 0 < i < |p| :: p[i] == p[1..][i - 1];
      }
    }
  }

  lemma NamesAreOrdinary(forest: Forest)
    requires WellNamed(forest)
    ensures Ordinary(Names(forest))
  {
    forall name | name in Names(forest) ensures name != ".." {
      var i :| 0 <= i < |Names(forest)| && Names(forest)[i] == name;
      assert ValidName(forest[i].name);
    }
  }

  lemma WalkLands(host: Host, preserve: bool, fs0: Folder, forest: Forest)
    requires WellNamed(forest) && RemovesAsItCan(host) && AllRemovable(fs0, Names(forest))
    ensures
      var cfg := Config(Names(forest), preserve);
      Landings(cfg, CleanExisting(Operations(host), fs0, cfg.topDirs), Walk([], forest))
  {
    var infos, cfg := Walk([], forest), Config(Names(forest), preserve);
    var fs := CleanExisting(Operations(host), fs0, cfg.topDirs);
    WalkDistinct([], forest);
    WalkParentsFirst([], forest);
    NamesAreOrdinary(forest);
    forall i | 0 <= i < |infos| ensures Landing(cfg, fs, infos[i]) {
      WalkIsLookup([], forest, infos[i]);
      var p := infos[i].path;
      assert p[0..] == p;
      LookupValid(forest, p);
      var k :| 0 <= k < |cfg.topDirs| && cfg.topDirs[k] == p[0];
      assert cfg.topDirs[k] <= JoinPath(p);
      forall q | q in fs ensures q == [] || q[0] != p[0] {
        Cleaned(host, fs0, cfg.topDirs, q);
      }
    }
  }

  /** The entry a node of the sender's tree is to become. */
  function Restored(host: Host, preserve: bool, node: Node): FsEntry {
    match node
    case Dir(mode, _) => FsDir(ModeFor(preserve, mode, host.dirMode))
    case File(mode, bytes) => FsFile(bytes, ModeFor(preserve, mode, host.fileMode))
    case Link(_, target) => FsLink(target)
  }

  /** One path of the save folder after the transfer: part of the tree that was sent, or untouched. */
  ghost predicate Rebuilt(host: Host, preserve: bool, forest: Forest, before: Folder, after: Folder, q: Path) {
    if q != [] && q[0] in Names(forest) then
      && (q in after <==> Lookup(forest, q).Some?)
      && (q in after ==> after[q] == Restored(host, preserve, Lookup(forest, q).value))
    else
      && (q in after <==> q in before)
      && (q in after ==> after[q] == before[q])
  }

  /** One transfer of a tree, seen from outside. */
  function Received(host: Host, preserve: bool, fs0: Folder, forest: Forest, blockSize: nat): Outcome<Folder>
    requires blockSize > 0
  {
    StartTransfer(Operations(host), Config(Names(forest), preserve), fs0, |Walk([], forest)|,
                  Arriving(AllChunks(Walk([], forest), blockSize)))
  }

  ghost predicate ComesThrough(host: Host, preserve: bool, fs0: Folder, forest: Forest, blockSize: nat)
    requires blockSize > 0
  {
    var outcome := Received(host, preserve, fs0, forest, blockSize);
    outcome.status == FINISHED && forall q :: Rebuilt(host, preserve, forest, fs0, outcome.st.fs, q)
  }

  /**
    Transfer round trip. For any tree with distinct sibling names, any block
    size and any save folder in which what has the sent names can be removed,
    the receiver ends FINISHED and the save folder holds the tree: exactly its
    folders, files and links, with their bytes, targets and modes; whatever has
    another top-level name is as it was. The modes sent may be anything, even
    ones that close a folder.
   */
  lemma RebuildsTree(host: Host, preserve: bool, fs0: Folder, forest: Forest, blockSize: nat)
    requires WellNamed(forest) && blockSize > 0 && Searchable(host.dirMode) && Writable(host.dirMode)
    requires RemovesAsItCan(host) && AllRemovable(fs0, Names(forest))
    ensures ComesThrough(host, preserve, fs0, forest, blockSize)
  {
    var infos, cfg := Walk([], forest), Config(Names(forest), preserve);
    var fs := CleanExisting(Operations(host), fs0, cfg.topDirs);
    WalkLands(host, preserve, fs0, forest);
    ListReceived(host, cfg, fs, |infos|, infos, blockSize);
    var st := ReceiveAll(Operations(host), cfg, Fresh(fs, |infos|), Arriving(AllChunks(infos, blockSize))).st;
    ListFinished(host, cfg, st, fs, infos, []);
    forall q ensures Rebuilt(host, preserve, forest, fs0, Finish(Operations(host), cfg, st).fs, q) {
      RebuildsPath(host, cfg, fs0, forest, st, q);
    }
  }

  /** The list and the tree name the same paths, with the same contents. */
  lemma ListIsTree(host: Host, preserve: bool, fs: Folder, forest: Forest, after: Folder, q: Path)
    requires WellNamed(forest) && AsListed(host, preserve, fs, Walk([], forest), after, q)
    ensures
      match Lookup(forest, q)
      case Some(node) => q in after && after[q] == Restored(host, preserve, node)
      case None => (q in after <==> q in fs) && (q in fs ==> after[q] == fs[q])
  {
    var infos := Walk([], forest);
    if Lookup(forest, q).Some? {
      var info := InfoOf(q, Lookup(forest, q).value);
      assert q[0..] == q;
      WalkIsLookup([], forest, info);
      var i :| 0 <= i < |infos| && infos[i] == info;
    } else {
      forall i | 0 <= i < |infos| ensures infos[i].path != q {
        WalkIsLookup([], forest, infos[i]);
        assert infos[i].path[0..] == infos[i].path;
      }
    }
  }

  lemma RebuildsPath(host: Host, cfg: Config, fs0: Folder, forest: Forest, st: State<Folder>, q: Path)
    requires WellNamed(forest) && Searchable(host.dirMode) && cfg.topDirs == Names(forest)
    requires RemovesAsItCan(host) && AllRemovable(fs0, cfg.topDirs)
    requires
      var fs := CleanExisting(Operations(host), fs0, cfg.topDirs);
      Landings(cfg, fs, Walk([], forest)) && HasReceived(host, cfg, st, fs, |Walk([], forest)|, Walk([], forest))
    ensures Rebuilt(host, cfg.preservePerms, forest, fs0, Finish(Operations(host), cfg, st).fs, q)
  {
    var fs := CleanExisting(Operations(host), fs0, cfg.topDirs);
    NamesAreOrdinary(forest);
    Cleaned(host, fs0, cfg.topDirs, q);
    ListFinished(host, cfg, st, fs, Walk([], forest), q);
    ListIsTree(host, cfg.preservePerms, fs, forest, Finish(Operations(host), cfg, st).fs, q);
    if Lookup(forest, q).Some? {
      LookupValid(forest, q);
    }
  }

  /** Compression on one side and decompression on the other, or neither. */
  method Transport(codec: Codec, useCompression: bool, chunks: seq<Chunk>) returns (stream: seq<Option<Chunk>>)
    requires useCompression ==> Lossless(codec)
    ensures stream == Arriving(chunks)
  {
    if !useCompression {
      return Arriving(chunks);
    }
    var wire := Compressor(codec, chunks);
    stream := Decompressor(codec, wire);
    forall i | 0 <= i < |chunks| ensures stream[i] == Some(chunks[i]) {
      InflateDeflate(codec, chunks[i]);
    }
    assert stream == Arriving(chunks);
  }

  /** The sender's part: listing and chunking. */
  method Send(forest: Forest, blockSize: nat) returns (chunks: seq<Chunk>, total: nat, names: seq<Name>)
    requires blockSize > 0
    ensures chunks == AllChunks(Walk([], forest), blockSize) && total == |Walk([], forest)| && names == Names(forest)
  {
    var sending := new SendOp();
    sending.GatherFileInfo(forest);
    var infos := sending.resolvedFiles;
    assert infos == [] + Walk([], forest) == Walk([], forest);
    chunks := ReadChunks(infos, blockSize);
    total, names := sending.totalCount, sending.topDirBasenames;
  }

  /** The whole pipeline of both machines, run step by step. */
  method Transfer(codec: Codec, useCompression: bool, host: Host, preserve: bool, blockSize: nat, fs0: Folder,
                  forest: Forest)
    returns (status: Status, saved: Folder)
    requires blockSize > 0 && (useCompression ==> Lossless(codec))
    ensures
      var outcome := Received(host, preserve, fs0, forest, blockSize);
      status == outcome.status && saved == outcome.st.fs
    ensures WellNamed(forest) && Searchable(host.dirMode) && Writable(host.dirMode)
            && RemovesAsItCan(host) && AllRemovable(fs0, Names(forest)) ==>
              status == FINISHED && forall q :: Rebuilt(host, preserve, forest, fs0, saved, q)
  {
    var chunks, total, names := Send(forest, blockSize);
    var stream := Transport(codec, useCompression, chunks);
    var receiver;
    status, receiver := StartTransferOp(Operations(host), Config(names, preserve), fs0, total, stream, false);
    saved := receiver.fs;
    ghost var rebuilds := WellNamed(forest) && Searchable(host.dirMode) && Writable(host.dirMode)
                          && RemovesAsItCan(host) && AllRemovable(fs0, Names(forest));
    if rebuilds {
      RebuildsTree(host, preserve, fs0, forest, blockSize);
    }
  }
}
