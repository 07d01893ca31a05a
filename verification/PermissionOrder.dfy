/**
  The final permission pass, for any stream of chunks and any file system:
  which folders it changes, in which order, and that nothing is written
  after it has begun.
 */
module PermissionOrder {
  import opened Options
  import opened FileTree
  import opened FileSender
  import opened ReceiverModel

  ghost predicate AllArrive(stream: seq<Option<Chunk>>) {
    forall i | 0 <= i < |stream| :: stream[i].Some?
  }

  predicate StartsRun(stream: seq<Option<Chunk>>, i: nat)
    requires i < |stream| && stream[i].Some? && (i > 0 ==> stream[i - 1].Some?)
  {
    i == 0 || stream[i].value.path != stream[i - 1].value.path
  }

  predicate IsFolderMode(chunk: Chunk) {
    chunk.mode > 0 && chunk.fileType != Regular && chunk.fileType != SymbolicLink
  }

  /** What close_current_file puts aside, run after run, if permissions are preserved. */
  function FolderModes(stream: seq<Option<Chunk>>): seq<(Path, nat)>
    requires AllArrive(stream)
    decreases |stream|
  {
    if stream == [] then []
    else
      var last := |stream| - 1;
      var chunk := stream[last].value;
      FolderModes(stream[..last]) +
        (if StartsRun(stream, last) && IsFolderMode(chunk) then [(chunk.path, chunk.mode)] else [])
  }

  /** A folder's mode is put aside exactly when a run of chunks starts with it. */
  ghost predicate ModeSentAt(stream: seq<Option<Chunk>>, entry: (Path, nat), i: nat)
    requires AllArrive(stream) && i < |stream|
  {
    StartsRun(stream, i) && IsFolderMode(stream[i].value) && entry == (stream[i].value.path, stream[i].value.mode)
  }

  lemma {:induction false} FolderModesAre(stream: seq<Option<Chunk>>, entry: (Path, nat))
    requires AllArrive(stream)
    ensures entry in FolderModes(stream) <==> exists i :: 0 <= i < |stream| && ModeSentAt(stream, entry, i)
    decreases |stream|
  {
    if stream != [] {
      var last := |stream| - 1;
      var front := stream[..last];
      FolderModesAre(front, entry);
      forall i | 0 <= i < last ensures ModeSentAt(front, entry, i) == ModeSentAt(stream, entry, i) {
      }
      assert entry in FolderModes(stream) <==> entry in FolderModes(front) || ModeSentAt(stream, entry, last);
    }
  }

  lemma FolderModesPath(stream: seq<Option<Chunk>>, a: nat) returns (i: nat)
    requires AllArrive(stream) && a < |FolderModes(stream)|
    ensures i < |stream| && FolderModes(stream)[a].0 == stream[i].value.path
  {
    FolderModesAre(stream, FolderModes(stream)[a]);
    i :| 0 <= i < |stream| && ModeSentAt(stream, FolderModes(stream)[a], i);
  }

  /** No chunk is for a folder above that of an earlier chunk. */
  ghost predicate PreOrder(stream: seq<Option<Chunk>>)
    requires AllArrive(stream)
  {
    forall i, j | 0 <= i < j < |stream| :: !(stream[j].value.path < stream[i].value.path)
  }

  /** The chunks of one path follow each other. */
  ghost predicate Contiguous(stream: seq<Option<Chunk>>)
    requires AllArrive(stream)
  {
    forall i, j | 0 <= i < j < |stream| && stream[i].value.path == stream[j].value.path ::
      stream[j - 1].value.path == stream[j].value.path
  }

  lemma {:induction false} FoldersInOrder(stream: seq<Option<Chunk>>)
    requires AllArrive(stream)
    ensures PreOrder(stream) ==>
              forall a, b | 0 <= a < b < |FolderModes(stream)| :: !(FolderModes(stream)[b].0 < FolderModes(stream)[a].0)
    ensures Contiguous(stream) ==>
              forall a, b | 0 <= a < b < |FolderModes(stream)| :: FolderModes(stream)[a].0 != FolderModes(stream)[b].0
    decreases |stream|
  {
    if stream != [] {
      var last := |stream| - 1;
      var front := stream[..last];
      FoldersInOrder(front);
      forall a, b | 0 <= a < b < |FolderModes(stream)|
        ensures PreOrder(stream) ==> !(FolderModes(stream)[b].0 < FolderModes(stream)[a].0)
        ensures Contiguous(stream) ==> FolderModes(stream)[a].0 != FolderModes(stream)[b].0
      {
        assert FolderModes(stream)[a] == FolderModes(front)[a];
        var i := FolderModesPath(front, a);
        assert stream[i] == front[i];
      }
    }
  }

  // ----- What the receiver does -----

  /** The folders put aside once the current file is closed. */
  ghost predicate Deferring<F>(cfg: Config, st: State<F>, stream: seq<Option<Chunk>>)
    requires AllArrive(stream)
  {
    if stream == [] then st.current.None? && st.perms == []
    else
      && st.current.Some? && st.current.value.hasFile
      && st.current.value.path == stream[|stream| - 1].value.path
      && st.perms + Aside(cfg, st.current.value) == if cfg.preservePerms then FolderModes(stream) else []
  }

  lemma {:induction false} ReceiverDefers<F>(ops: Fs<F>, cfg: Config, fs: F, total: nat, stream: seq<Option<Chunk>>)
    requires AllArrive(stream)
    requires ReceiveAll(ops, cfg, Fresh(fs, total), stream).fault.None?
    ensures Deferring(cfg, ReceiveAll(ops, cfg, Fresh(fs, total), stream).st, stream)
    decreases |stream|
  {
    if stream != [] {
      var last := |stream| - 1;
      var front := stream[..last];
      assert stream == front + [stream[last]];
      ReceiveSplit(ops, cfg, Fresh(fs, total), front, [stream[last]]);
      var step := ReceiveAll(ops, cfg, Fresh(fs, total), front);
      ReceiverDefers(ops, cfg, fs, total, front);
      ReceiveOne(ops, cfg, step.st, stream[last].value);
      OneDefers(ops, cfg, step.st, front, stream[last]);
    }
  }

  /** What the current file adds to the folders put aside when it is closed. */
  function Aside(cfg: Config, c: Current): seq<(Path, nat)> {
    if cfg.preservePerms && c.mode > 0 && c.fileType != Regular && c.fileType != SymbolicLink
    then [(c.path, c.mode)] else []
  }

  /** Within a run nothing changes; a new run closes the last file and becomes current. */
  lemma OneReceived<F>(ops: Fs<F>, cfg: Config, st: State<F>, chunk: Chunk)
    requires st.current.Some? ==> st.current.value.hasFile
    requires Receive(ops, cfg, st, chunk).fault.None?
    ensures
      var now := Receive(ops, cfg, st, chunk).st;
      && now.current.Some? && now.current.value.hasFile && now.current.value.path == chunk.path
      && if st.current.Some? && st.current.value.path == chunk.path then
           now.perms == st.perms && Aside(cfg, now.current.value) == Aside(cfg, st.current.value)
         else
           && now.perms == st.perms + (if st.current.Some? then Aside(cfg, st.current.value) else [])
           && Aside(cfg, now.current.value) ==
                if cfg.preservePerms && IsFolderMode(chunk) then [(chunk.path, chunk.mode)] else []
  {
  }

  lemma OneDefers<F>(ops: Fs<F>, cfg: Config, st: State<F>, front: seq<Option<Chunk>>, next: Option<Chunk>)
    requires AllArrive(front) && next.Some? && Deferring(cfg, st, front)
    requires Receive(ops, cfg, st, next.value).fault.None?
    ensures Deferring(cfg, Receive(ops, cfg, st, next.value).st, front + [next])
  {
    var stream := front + [next];
    assert stream[..|stream| - 1] == front;
    assert front != [] ==> stream[|stream| - 2] == front[|front| - 1];
    OneReceived(ops, cfg, st, next.value);
  }

  /** The events of a pass over the folders put aside: from the last to the first. */
  ghost predicate AreCalls(events: seq<Event>, modes: seq<(Path, nat)>) {
    && |events| == |modes|
    && forall i | 0 <= i < |modes| :: IsCall(events[i], modes[|modes| - 1 - i])
  }

  predicate IsCall(e: Event, entry: (Path, nat)) {
    e.Chmod? && e.path == entry.0 && e.mode == entry.1
  }

  lemma {:induction false} PassCalls<F>(ops: Fs<F>, st: State<F>) returns (calls: seq<Event>)
    ensures ApplyFolderPermissions(ops, st).log == st.log + calls && AreCalls(calls, st.perms)
    decreases |st.perms|
  {
    if st.perms == [] {
      calls := [];
    } else {
      var last := |st.perms| - 1;
      var popped := st.(perms := st.perms[..last]);
      var next := ApplyChmod(ops, popped, st.perms[last].0, st.perms[last].1);
      var rest := PassCalls(ops, next);
      calls := [next.log[|st.log|]] + rest;
    }
  }

  /** The calls come in the opposite order. */
  lemma CallsInOrder(calls: seq<Event>, modes: seq<(Path, nat)>)
    requires AreCalls(calls, modes)
    ensures (forall a, b | 0 <= a < b < |modes| :: !(modes[b].0 < modes[a].0)) ==>
              forall a, b | 0 <= a < b < |calls| :: !(calls[a].path < calls[b].path)
    ensures (forall a, b | 0 <= a < b < |modes| :: modes[a].0 != modes[b].0) ==>
              forall a, b | 0 <= a < b < |calls| :: calls[a].path != calls[b].path
  {
    var n := |modes|;
    forall a, b | 0 <= a < b < n
      ensures calls[a].path == modes[n - 1 - a].0 && calls[b].path == modes[n - 1 - b].0
    {
      assert IsCall(calls[a], modes[n - 1 - a]) && IsCall(calls[b], modes[n - 1 - b]);
    }
  }

  lemma PassFollows<F>(ops: Fs<F>, cfg: Config, fs: F, total: nat, stream: seq<Option<Chunk>>)
    returns (calls: seq<Event>)
    requires AllArrive(stream) && cfg.preservePerms
    requires ReceiveAll(ops, cfg, Fresh(fs, total), stream).fault.None?
    ensures
      var st := ReceiveAll(ops, cfg, Fresh(fs, total), stream).st;
      Finish(ops, cfg, st).log == Close(ops, cfg, st).log + calls && AreCalls(calls, FolderModes(stream))
  {
    ReceiverDefers(ops, cfg, fs, total, stream);
    var received := Close(ops, cfg, ReceiveAll(ops, cfg, Fresh(fs, total), stream).st);
    assert received.perms == FolderModes(stream);
    calls := PassCalls(ops, received);
  }

  /**
    Permission order. Once a stream has been received, the last things the
    receiver does are calls of chmod: one for each folder whose mode was sent,
    and nothing else. If the stream was pre-order, no folder comes before one
    below it; if the chunks of each path were together, no folder comes twice.
   */
  lemma PermissionsComeLast<F>(ops: Fs<F>, cfg: Config, fs: F, total: nat, stream: seq<Option<Chunk>>)
    requires AllArrive(stream) && cfg.preservePerms
    requires ReceiveAll(ops, cfg, Fresh(fs, total), stream).fault.None?
    ensures
      var received := Close(ops, cfg, ReceiveAll(ops, cfg, Fresh(fs, total), stream).st).log;
      var finished := Finish(ops, cfg, ReceiveAll(ops, cfg, Fresh(fs, total), stream).st).log;
      && received <= finished
      && var calls := finished[|received|..];
         && AreCalls(calls, FolderModes(stream))
         && (PreOrder(stream) ==> forall a, b | 0 <= a < b < |calls| :: !(calls[a].path < calls[b].path))
         && (Contiguous(stream) ==> forall a, b | 0 <= a < b < |calls| :: calls[a].path != calls[b].path)
  {
    var calls := PassFollows(ops, cfg, fs, total, stream);
    FoldersInOrder(stream);
    CallsInOrder(calls, FolderModes(stream));
  }
}
