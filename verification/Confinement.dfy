/** Where a receiver acts, for any stream of chunks and any file system. */
module Confinement {
  import opened Options
  import opened FileTree
  import opened FileSender
  import opened ReceiverModel
  import opened PermissionOrder

  /** The receiver's state once the first k chunks have been received. */
  function After<F>(ops: Fs<F>, cfg: Config, fs: F, total: nat, stream: seq<Option<Chunk>>, k: nat): Step<F>
    requires k <= |stream|
  {
    ReceiveAll(ops, cfg, Fresh(fs, total), stream[..k])
  }

  /** Chunk k began a run for this path, and on the file system it then found the path passed both checks. */
  ghost predicate CheckedAt<F>(ops: Fs<F>, cfg: Config, fs: F, total: nat, stream: seq<Option<Chunk>>, k: nat,
                               p: Path) {
    && k < |stream| && stream[k].Some? && stream[k].value.path == p
    && var before := After(ops, cfg, fs, total, stream, k);
       && before.fault.None?
       && (before.st.current.None? || before.st.current.value.path != p)
       && Descended(cfg, p) && ops.safe(Close(ops, cfg, before.st).fs, p)
  }

  ghost predicate Checked<F>(ops: Fs<F>, cfg: Config, fs: F, total: nat, stream: seq<Option<Chunk>>, p: Path) {
    exists k :: CheckedAt(ops, cfg, fs, total, stream, k, p)
  }

  lemma CheckedStays<F>(ops: Fs<F>, cfg: Config, fs: F, total: nat, front: seq<Option<Chunk>>, next: Option<Chunk>,
                        p: Path)
    requires Checked(ops, cfg, fs, total, front, p)
    ensures Checked(ops, cfg, fs, total, front + [next], p)
  {
    var k: nat :| CheckedAt(ops, cfg, fs, total, front, k, p);
    assert (front + [next])[..k] == front[..k];
    assert CheckedAt(ops, cfg, fs, total, front + [next], k, p);
  }

  /** What is done with paths, other than the removal after a failure. */
  ghost predicate ActsChecked<F>(ops: Fs<F>, cfg: Config, fs: F, total: nat, stream: seq<Option<Chunk>>,
                                 log: seq<Event>) {
    forall i | 0 <= i < |log| && !log[i].Removed? :: Checked(ops, cfg, fs, total, stream, log[i].path)
  }

  ghost predicate Confined<F>(ops: Fs<F>, cfg: Config, fs: F, total: nat, stream: seq<Option<Chunk>>, st: State<F>) {
    && ActsChecked(ops, cfg, fs, total, stream, st.log)
    && (forall i | 0 <= i < |st.perms| :: Checked(ops, cfg, fs, total, stream, st.perms[i].0))
    && (st.current.Some? && st.current.value.hasFile ==> Checked(ops, cfg, fs, total, stream, st.current.value.path))
  }

  lemma ConfinedStays<F>(ops: Fs<F>, cfg: Config, fs: F, total: nat, front: seq<Option<Chunk>>, next: Option<Chunk>,
                         st: State<F>)
    requires Confined(ops, cfg, fs, total, front, st)
    ensures Confined(ops, cfg, fs, total, front + [next], st)
  {
    forall i | 0 <= i < |st.log| && !st.log[i].Removed?
      ensures Checked(ops, cfg, fs, total, front + [next], st.log[i].path)
    {
      CheckedStays(ops, cfg, fs, total, front, next, st.log[i].path);
    }
    forall i | 0 <= i < |st.perms| ensures Checked(ops, cfg, fs, total, front + [next], st.perms[i].0) {
      CheckedStays(ops, cfg, fs, total, front, next, st.perms[i].0);
    }
    if st.current.Some? && st.current.value.hasFile {
      CheckedStays(ops, cfg, fs, total, front, next, st.current.value.path);
    }
  }

  lemma CloseIsConfined<F>(ops: Fs<F>, cfg: Config, fs: F, total: nat, stream: seq<Option<Chunk>>, st: State<F>)
    requires Confined(ops, cfg, fs, total, stream, st)
    ensures Confined(ops, cfg, fs, total, stream, Close(ops, cfg, st))
  {
  }

  lemma FillIsConfined<F>(ops: Fs<F>, cfg: Config, fs: F, total: nat, stream: seq<Option<Chunk>>,
                          st: State<F>, c: Current, chunk: Chunk)
    requires Confined(ops, cfg, fs, total, stream, st) && st.current == Some(c) && c.hasFile
    ensures Confined(ops, cfg, fs, total, stream, Fill(ops, st, c, chunk).st)
    ensures Fill(ops, st, c, chunk).st.current.Some? && Fill(ops, st, c, chunk).st.current.value.hasFile
  {
  }

  /** One chunk more, after any beginning of the stream that was received. */
  lemma ChunkIsConfined<F>(ops: Fs<F>, cfg: Config, fs: F, total: nat, front: seq<Option<Chunk>>, chunk: Chunk)
    requires
      var before := ReceiveAll(ops, cfg, Fresh(fs, total), front);
      && before.fault.None? && Confined(ops, cfg, fs, total, front, before.st)
      && (before.st.current.Some? ==> before.st.current.value.hasFile)
    ensures
      var step := Receive(ops, cfg, ReceiveAll(ops, cfg, Fresh(fs, total), front).st, chunk);
      && Confined(ops, cfg, fs, total, front + [Some(chunk)], step.st)
      && (step.fault.None? && step.st.current.Some? ==> step.st.current.value.hasFile)
  {
    var st, stream := ReceiveAll(ops, cfg, Fresh(fs, total), front).st, front + [Some(chunk)];
    ConfinedStays(ops, cfg, fs, total, front, Some(chunk), st);
    CloseIsConfined(ops, cfg, fs, total, stream, st);
    var isNew := st.current.None? || st.current.value.path != chunk.path;
    var st1 := if isNew
               then Close(ops, cfg, st).(current := Some(Current(chunk.path, chunk.fileType, chunk.mode, false, false)))
               else st;
    var refused := (isNew && !Descended(cfg, chunk.path)) || st1.remaining == 0
                   || (!st1.current.value.hasFile && !ops.safe(st1.fs, chunk.path));
    if !refused {
      if isNew {
        assert stream[..|front|] == front && stream[|front|] == Some(chunk);
        assert CheckedAt(ops, cfg, fs, total, stream, |front|, chunk.path);
      }
      var c := st1.current.value.(hasFile := true);
      FillIsConfined(ops, cfg, fs, total, stream, st1.(current := Some(c)), c, chunk);
    }
  }

  lemma {:induction false} StreamIsConfined<F>(ops: Fs<F>, cfg: Config, fs: F, total: nat, stream: seq<Option<Chunk>>)
    ensures
      var step := ReceiveAll(ops, cfg, Fresh(fs, total), stream);
      && Confined(ops, cfg, fs, total, stream, step.st)
      && (step.fault.None? && step.st.current.Some? ==> step.st.current.value.hasFile)
    decreases |stream|
  {
    if stream != [] {
      var front, next := stream[..|stream| - 1], stream[|stream| - 1];
      assert stream == front + [next];
      StreamIsConfined(ops, cfg, fs, total, front);
      var before := ReceiveAll(ops, cfg, Fresh(fs, total), front);
      ReceiveSplit(ops, cfg, Fresh(fs, total), front, [next]);
      if before.fault.Some? || next.None? {
        ConfinedStays(ops, cfg, fs, total, front, next, before.st);
      } else {
        ReceiveOne(ops, cfg, before.st, next.value);
        ChunkIsConfined(ops, cfg, fs, total, front, next.value);
      }
    }
  }

  lemma {:induction false} PassIsConfined<F>(ops: Fs<F>, cfg: Config, fs: F, total: nat, stream: seq<Option<Chunk>>,
                                             st: State<F>)
    requires Confined(ops, cfg, fs, total, stream, st)
    ensures Confined(ops, cfg, fs, total, stream, ApplyFolderPermissions(ops, st))
    decreases |st.perms|
  {
    if st.perms != [] {
      var last := |st.perms| - 1;
      var popped := st.(perms := st.perms[..last]);
      PassIsConfined(ops, cfg, fs, total, stream, ApplyChmod(ops, popped, st.perms[last].0, st.perms[last].1));
    }
  }

  /**
    Confinement: whatever a stream says and however the operation ends,
    everything it makes, writes or changes the mode of has a path that begins
    with an announced name and that passed the path check on the file system
    its run of chunks began with.
   */
  lemma OnlyCheckedPaths<F>(ops: Fs<F>, cfg: Config, fs: F, total: nat, stream: seq<Option<Chunk>>)
    ensures
      var cleaned := CleanExisting(ops, fs, cfg.topDirs);
      && ActsChecked(ops, cfg, cleaned, total, stream, StartTransfer(ops, cfg, fs, total, stream).st.log)
      && ActsChecked(ops, cfg, cleaned, total, stream, CancelTransfer(ops, cfg, fs, total, stream).st.log)
  {
    var cleaned := CleanExisting(ops, fs, cfg.topDirs);
    StreamIsConfined(ops, cfg, cleaned, total, stream);
    var step := ReceiveAll(ops, cfg, Fresh(cleaned, total), stream);
    CloseIsConfined(ops, cfg, cleaned, total, stream, step.st);
    if step.fault.None? && cfg.preservePerms {
      PassIsConfined(ops, cfg, cleaned, total, stream, Close(ops, cfg, step.st));
    }
  }

  /** Whatever was done to the file system has been added to the log. */
  ghost predicate Logged<F>(before: State<F>, after: State<F>) {
    before.log <= after.log && (after.log == before.log ==> after.fs == before.fs)
  }

  lemma CloseIsLogged<F>(ops: Fs<F>, cfg: Config, st: State<F>)
    ensures Logged(st, Close(ops, cfg, st))
  {
  }

  lemma FillIsLogged<F>(ops: Fs<F>, st: State<F>, c: Current, chunk: Chunk)
    ensures Logged(st, Fill(ops, st, c, chunk).st)
  {
  }

  /** Nothing is done for a chunk, or in removing an item, that the log does not hold. */
  lemma NothingUnlogged<F>(ops: Fs<F>, cfg: Config, st: State<F>, chunk: Chunk)
    ensures Logged(st, Receive(ops, cfg, st, chunk).st) && Logged(st, CleanCurrent(ops, st))
  {
    CloseIsLogged(ops, cfg, st);
    var isNew := st.current.None? || st.current.value.path != chunk.path;
    var st1 := if isNew
               then Close(ops, cfg, st).(current := Some(Current(chunk.path, chunk.fileType, chunk.mode, false, false)))
               else st;
    assert Logged(st, st1);
    var c := st1.current.value.(hasFile := true);
    FillIsLogged(ops, st1.(current := Some(c)), c, chunk);
  }

  lemma {:induction false} PassIsLogged<F>(ops: Fs<F>, st: State<F>)
    ensures
      var after := ApplyFolderPermissions(ops, st);
      Logged(st, after) && |after.log| == |st.log| + |st.perms|
    decreases |st.perms|
  {
    if st.perms != [] {
      var last := |st.perms| - 1;
      var popped := st.(perms := st.perms[..last]);
      PassIsLogged(ops, ApplyChmod(ops, popped, st.perms[last].0, st.perms[last].1));
    }
  }

  // ----- What is removed after a failure -----

  ghost predicate NoRemoval(log: seq<Event>) { forall i | 0 <= i < |log| :: !log[i].Removed? }

  lemma ChunkRemovesNothing<F>(ops: Fs<F>, cfg: Config, st: State<F>, chunk: Chunk)
    requires NoRemoval(st.log)
    ensures NoRemoval(Receive(ops, cfg, st, chunk).st.log)
    ensures Receive(ops, cfg, st, chunk).st.current.Some?
    ensures Receive(ops, cfg, st, chunk).st.current.value.path == chunk.path
  {
  }

  /** The path the receiver is at once these chunks have come. */
  function LastPath(stream: seq<Option<Chunk>>): Option<Path>
    decreases |stream|
  {
    if stream == [] then None
    else
      var last := stream[|stream| - 1];
      if last.Some? then Some(last.value.path) else LastPath(stream[..|stream| - 1])
  }

  /** A beginning of a stream that is received, except perhaps for its last chunk. */
  ghost predicate Comes<F>(ops: Fs<F>, cfg: Config, st: State<F>, stream: seq<Option<Chunk>>) {
    stream != [] ==> ReceiveAll(ops, cfg, st, stream[..|stream| - 1]).fault.None?
  }

  lemma {:induction false} ReceivesBeforeRemoving<F>(ops: Fs<F>, cfg: Config, fs: F, total: nat,
                                                     stream: seq<Option<Chunk>>)
    requires Comes(ops, cfg, Fresh(fs, total), stream)
    ensures
      var st := ReceiveAll(ops, cfg, Fresh(fs, total), stream).st;
      NoRemoval(st.log) && LastPath(stream) == if st.current.None? then None else Some(st.current.value.path)
    decreases |stream|
  {
    if stream != [] {
      var front, last := stream[..|stream| - 1], stream[|stream| - 1];
      assert stream == front + [last];
      ReceiveSplit(ops, cfg, Fresh(fs, total), front, [last]);
      if front != [] {
        var before := front[..|front| - 1];
        assert front == before + [front[|front| - 1]];
        ReceiveSplit(ops, cfg, Fresh(fs, total), before, [front[|front| - 1]]);
      }
      ReceivesBeforeRemoving(ops, cfg, fs, total, front);
      var st := ReceiveAll(ops, cfg, Fresh(fs, total), front).st;
      if last.Some? {
        ReceiveOne(ops, cfg, st, last.value);
        ChunkRemovesNothing(ops, cfg, st, last.value);
      }
    }
  }

  lemma PassRemovesNothing<F>(ops: Fs<F>, cfg: Config, st: State<F>)
    requires NoRemoval(st.log)
    ensures NoRemoval(Finish(ops, cfg, st).log)
  {
    if cfg.preservePerms {
      var calls := PassCalls(ops, Close(ops, cfg, st));
      forall i | 0 <= i < |calls| ensures !calls[i].Removed? {
        assert IsCall(calls[i], Close(ops, cfg, st).perms[|calls| - 1 - i]);
      }
    }
  }

  ghost predicate RemovesUnannounced(cfg: Config, log: seq<Event>) {
    exists i :: 0 <= i < |log| && log[i].Removed? && log[i].name !in cfg.topDirs
  }

  /** The path the receiver is at is safe but does not lead into anything that was announced. */
  predicate Astray<F>(ops: Fs<F>, cfg: Config, fs: F, at: Option<Path>) {
    at.Some? && at.value != [] && at.value[0] !in cfg.topDirs && ops.safe(fs, at.value)
  }

  lemma CleanUpRemoves<F>(ops: Fs<F>, cfg: Config, st: State<F>)
    requires NoRemoval(st.log)
    ensures
      RemovesUnannounced(cfg, CleanCurrent(ops, st).log)
      <==> Astray(ops, cfg, st.fs, if st.current.None? then None else Some(st.current.value.path))
  {
    var log := CleanCurrent(ops, st).log;
    if st.current.Some? && Astray(ops, cfg, st.fs, Some(st.current.value.path)) {
      assert log[|st.log|].Removed? && log[|st.log|].name !in cfg.topDirs;
    }
  }

  /**
    When more is removed than was announced: exactly if the transfer is refused,
    or cancelled, at a safe path whose first name is not one of the announced
    ones. It is enough for that that the path only begins like an announced
    name, or that it is refused because it does not. A transfer that is not
    refused removes nothing after the cleaning it begins with.
   */
  lemma RemovesUnannouncedIffAstray<F>(ops: Fs<F>, cfg: Config, fs: F, total: nat,
                                       stream: seq<Option<Chunk>>, rest: seq<Option<Chunk>>)
    requires Comes(ops, cfg, Fresh(CleanExisting(ops, fs, cfg.topDirs), total), stream)
    ensures
      var step := ReceiveAll(ops, cfg, Fresh(CleanExisting(ops, fs, cfg.topDirs), total), stream);
      var astray := Astray(ops, cfg, step.st.fs, LastPath(stream));
      && (RemovesUnannounced(cfg, CancelTransfer(ops, cfg, fs, total, stream).st.log) <==> astray)
      && if step.fault.Some?
         then RemovesUnannounced(cfg, StartTransfer(ops, cfg, fs, total, stream + rest).st.log) <==> astray
         else NoRemoval(StartTransfer(ops, cfg, fs, total, stream).st.log)
  {
    var start := Fresh(CleanExisting(ops, fs, cfg.topDirs), total);
    var step := ReceiveAll(ops, cfg, start, stream);
    ReceivesBeforeRemoving(ops, cfg, start.fs, total, stream);
    CleanUpRemoves(ops, cfg, step.st);
    if step.fault.Some? {
      ReceiveSplit(ops, cfg, start, stream, rest);
    } else {
      PassRemovesNothing(ops, cfg, step.st);
    }
  }
}
