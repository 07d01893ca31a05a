/**
  The receiver's side of a transfer, for any file system. One value, `State`,
  holds what the receiver object holds; the functions say what each of its
  methods does to it, and the class below does it field by field.
 */
module ReceiverModel {
  import opened Octets
  import opened Options
  import opened FileTree
  import opened FileSender

  datatype Fault =
    | NotDescended
    | CountExceeded
    | UnsafePath
    | IoError
    | BadData

  /** What the receiver asks of the file system and the path checks. */
  datatype Fs<!F> = Fs(
    safe: (F, Path) -> bool,
    throughLink: (F, Path) -> bool,
    makedirs: (F, Path) -> Option<F>,
    symlink: (F, Path, string) -> Option<F>,
    create: (F, Path) -> Option<F>,
    write: (F, Path, Bytes) -> Option<F>,
    chmod: (F, Path, nat) -> Option<F>,
    remove: (F, Path) -> F)

  datatype Config = Config(topDirs: seq<Name>, preservePerms: bool)

  /** What was done, in order; a change of mode remembers whether its path led through a link just then. */
  datatype Event =
    | Made(path: Path)
    | Wrote(path: Path)
    | Chmod(path: Path, mode: nat, link: bool)
    | Removed(name: Name)

  /** A file being received: current_path and the fields set with it. */
  datatype Current = Current(path: Path, fileType: FileType, mode: nat, streaming: bool, hasFile: bool)

  datatype State<!F> = State(
    fs: F,
    current: Option<Current>,
    perms: seq<(Path, nat)>,
    remaining: int,
    log: seq<Event>)

  datatype Step<!F> = Step(st: State<F>, fault: Option<Fault>)

  function JoinPath(p: Path): string {
    if p == [] then "" else if |p| == 1 then p[0] else p[0] + "/" + JoinPath(p[1..])
  }

  predicate Descended(cfg: Config, p: Path) {
    exists i | 0 <= i < |cfg.topDirs| :: cfg.topDirs[i] <= JoinPath(p)
  }

  /** os.chmod, whose failure is only reported; the log keeps the call. */
  function ApplyChmod<F>(ops: Fs<F>, st: State<F>, path: Path, mode: nat): State<F> {
    var changed := ops.chmod(st.fs, path, mode);
    st.(fs := if changed.Some? then changed.value else st.fs,
            log := st.log + [Chmod(path, mode, ops.throughLink(st.fs, path))])
  }

  /** Restoring modes: files at once, folders once everything is written, links never. */
  function SettleMode<F>(ops: Fs<F>, cfg: Config, st: State<F>, c: Current): State<F> {
    if !cfg.preservePerms || c.mode == 0 || c.fileType == SymbolicLink then st
    else if c.fileType == Regular then ApplyChmod(ops, st, c.path, c.mode)
    else st.(perms := st.perms + [(c.path, c.mode)])
  }

  function Close<F>(ops: Fs<F>, cfg: Config, st: State<F>): State<F> {
    if st.current.None? || !st.current.value.hasFile then st
    else
      var settled := SettleMode(ops, cfg, st, st.current.value);
      settled.(current := None, remaining := st.remaining - 1)
  }

  function Fill<F>(ops: Fs<F>, st: State<F>, c: Current, chunk: Chunk): Step<F> {
    match chunk.fileType
    case Directory =>
      (match ops.makedirs(st.fs, c.path)
       case None => Step(st, Some(IoError))
       case Some(fs) => Step(st.(fs := fs, log := st.log + [Made(c.path)]), None))
    case SymbolicLink =>
      (match ops.symlink(st.fs, c.path, chunk.target)
       case None => Step(st, Some(IoError))
       case Some(fs) => Step(st.(fs := fs, log := st.log + [Made(c.path)]), None))
    case _ =>
      var created := if c.streaming then Some(st.fs) else ops.create(st.fs, c.path);
      if created.None? then Step(st, Some(IoError))
      else
        var log' := if c.streaming then st.log else st.log + [Made(c.path)];
        var st' := st.(fs := created.value, current := Some(c.(streaming := true)), log := log');
        if chunk.data == [] then Step(st', None)
        else
          match ops.write(st'.fs, c.path, chunk.data)
          case None => Step(st', Some(IoError))
          case Some(fs) => Step(st'.(fs := fs, log := st'.log + [Wrote(c.path)]), None)
  }

  /** receive_data: one chunk. */
  function Receive<F>(ops: Fs<F>, cfg: Config, st: State<F>, chunk: Chunk): Step<F> {
    var isNew := st.current.None? || st.current.value.path != chunk.path;
    var st1 := if isNew
               then Close(ops, cfg, st).(current := Some(Current(chunk.path, chunk.fileType, chunk.mode, false, false)))
               else st;
    if isNew && !Descended(cfg, chunk.path) then Step(st1, Some(NotDescended))
    else if st1.remaining == 0 then Step(st1, Some(CountExceeded))
    else if !st1.current.value.hasFile && !ops.safe(st1.fs, chunk.path) then Step(st1, Some(UnsafePath))
    else
      var c := st1.current.value.(hasFile := true);
      Fill(ops, st1.(current := Some(c)), c, chunk)
  }

  /** The loop over the stream; a chunk that does not arrive intact ends it. */
  function ReceiveAll<F>(ops: Fs<F>, cfg: Config, st: State<F>, stream: seq<Option<Chunk>>): Step<F>
    decreases |stream|
  {
    if stream == [] then Step(st, None)
    else if stream[0].None? then Step(st, Some(BadData))
    else
      var step := Receive(ops, cfg, st, stream[0].value);
      if step.fault.Some? then step else ReceiveAll(ops, cfg, step.st, stream[1..])
  }

  /** apply_folder_permissions: from the last folder added to the first. */
  function ApplyFolderPermissions<F>(ops: Fs<F>, st: State<F>): (r: State<F>)
    ensures r.perms == [] && r.remaining == st.remaining && r.current == st.current
    decreases |st.perms|
  {
    if st.perms == [] then st
    else
      var (path, mode) := st.perms[|st.perms| - 1];
      var popped := st.(perms := st.perms[..|st.perms| - 1]);
      ApplyFolderPermissions(ops, ApplyChmod(ops, popped, path, mode))
  }

  function Finish<F>(ops: Fs<F>, cfg: Config, st: State<F>): State<F> {
    var closed := Close(ops, cfg, st);
    if cfg.preservePerms then ApplyFolderPermissions(ops, closed) else closed
  }

  function CleanExisting<F>(ops: Fs<F>, fs: F, names: seq<Name>): F {
    if names == [] then fs else CleanExisting(ops, ops.remove(fs, [names[0]]), names[1..])
  }

  datatype Status = TRANSFERRING | FINISHED | FINISHED_WARNING | FAILED

  datatype Outcome<!F> = Outcome(st: State<F>, status: Status)

  function Fresh<F>(fs: F, total: nat): State<F> { State(fs, None, [], total, []) }

  /** clean_current_top_dir_file: the top-level item of the current path goes, if that path is safe. */
  function CleanCurrent<F>(ops: Fs<F>, st: State<F>): State<F> {
    if st.current.None? || st.current.value.path == [] || !ops.safe(st.fs, st.current.value.path) then st
    else
      var top := st.current.value.path[0];
      st.(fs := ops.remove(st.fs, [top]), log := st.log + [Removed(top)])
  }

  /** start_transfer_op for a fresh op that expects `total` files. */
  function StartTransfer<F>(ops: Fs<F>, cfg: Config, fs: F, total: nat, stream: seq<Option<Chunk>>): Outcome<F> {
    var step := ReceiveAll(ops, cfg, Fresh(CleanExisting(ops, fs, cfg.topDirs), total), stream);
    if step.fault.Some? then Outcome(CleanCurrent(ops, step.st), FAILED)
    else
      var st := Finish(ops, cfg, step.st);
      Outcome(st, if st.remaining > 0 then FINISHED_WARNING else FINISHED)
  }

  /** The same when the call is cancelled after these chunks: cleaned up, but no status is set here. */
  function CancelTransfer<F>(ops: Fs<F>, cfg: Config, fs: F, total: nat, stream: seq<Option<Chunk>>): Outcome<F> {
    var step := ReceiveAll(ops, cfg, Fresh(CleanExisting(ops, fs, cfg.topDirs), total), stream);
    Outcome(CleanCurrent(ops, step.st), if step.fault.Some? then FAILED else TRANSFERRING)
  }

  // ----- The count of files -----

  /** The number of maximal runs of chunks with equal paths. */
  function Runs(stream: seq<Option<Chunk>>): nat
    requires forall i | 0 <= i < |stream| :: stream[i].Some?
    decreases |stream|
  {
    if stream == [] then 0
    else
      var last := |stream| - 1;
      Runs(stream[..last]) + (if last > 0 && stream[last].value.path == stream[last - 1].value.path then 0 else 1)
  }

  lemma {:induction false} ReceiveSplit<F>(ops: Fs<F>, cfg: Config, st: State<F>, a: seq<Option<Chunk>>,
                                           b: seq<Option<Chunk>>)
    ensures ReceiveAll(ops, cfg, st, a + b) ==
            var step := ReceiveAll(ops, cfg, st, a);
            if step.fault.Some? then step else ReceiveAll(ops, cfg, step.st, b)
    decreases |a|
  {
    if a == [] {
      assert a + b == b;
    } else {
      assert (a + b)[0] == a[0] && (a + b)[1..] == a[1..] + b;
      if a[0].Some? {
        var step := Receive(ops, cfg, st, a[0].value);
        if step.fault.None? { ReceiveSplit(ops, cfg, step.st, a[1..], b); }
      }
    }
  }

  ghost predicate Counting<F>(st: State<F>, total: int, stream: seq<Option<Chunk>>)
    requires forall i | 0 <= i < |stream| :: stream[i].Some?
  {
    if stream == [] then st.current.None? && st.remaining == total
    else
      && st.current.Some? && st.current.value.hasFile
      && st.current.value.path == stream[|stream| - 1].value.path
      && st.remaining == total - (Runs(stream) - 1) > 0
  }

  /** The receiver's counter follows the number of runs, whatever the chunks are. */
  lemma {:induction false} CountFollowsRuns<F>(ops: Fs<F>, cfg: Config, fs: F, total: nat, stream: seq<Option<Chunk>>)
    requires forall i | 0 <= i < |stream| :: stream[i].Some?
    ensures
      var step := ReceiveAll(ops, cfg, Fresh(fs, total), stream);
      && (step.fault.None? ==> Counting(step.st, total, stream))
      && (step.fault == Some(CountExceeded) ==> Runs(stream) > total)
      && (step.fault.None? ==> Runs(stream) <= total)
      && step.st.remaining >= 0
    decreases |stream|
  {
    if stream != [] {
      var last := |stream| - 1;
      var front := stream[..last];
      assert stream == front + [stream[last]];
      CountFollowsRuns(ops, cfg, fs, total, front);
      ReceiveSplit(ops, cfg, Fresh(fs, total), front, [stream[last]]);
      var step := ReceiveAll(ops, cfg, Fresh(fs, total), front);
      RunsGrow(stream, last);
      if step.fault.None? {
        ReceiveOne(ops, cfg, step.st, stream[last].value);
        OneCount(ops, cfg, step.st, stream[last].value);
      }
    }
  }

  lemma RunsGrow(stream: seq<Option<Chunk>>, k: nat)
    requires k <= |stream| && forall i | 0 <= i < |stream| :: stream[i].Some?
    ensures Runs(stream[..k]) <= Runs(stream)
    decreases |stream|
  {
    if k < |stream| {
      RunsGrow(stream[..|stream| - 1], k);
      assert stream[..|stream| - 1][..k] == stream[..k];
    } else {
      assert stream[..k] == stream;
    }
  }

  lemma ReceiveOne<F>(ops: Fs<F>, cfg: Config, st: State<F>, chunk: Chunk)
    ensures ReceiveAll(ops, cfg, st, [Some(chunk)]) == Receive(ops, cfg, st, chunk)
  {
    var step := Receive(ops, cfg, st, chunk);
    assert ReceiveAll(ops, cfg, step.st, [Some(chunk)][1..]) == Step(step.st, None);
  }

  lemma OneCount<F>(ops: Fs<F>, cfg: Config, st: State<F>, chunk: Chunk)
    requires st.remaining >= 0 && (st.current.Some? ==> st.current.value.hasFile && st.remaining > 0)
    ensures
      var step := Receive(ops, cfg, st, chunk);
      var same := st.current.Some? && st.current.value.path == chunk.path;
      var left := if same || st.current.None? then st.remaining else st.remaining - 1;
      && step.st.remaining == left
      && (step.fault == Some(CountExceeded) ==> left == 0)
      && (step.fault.None? ==> left > 0 && step.st.current.Some? && step.st.current.value.hasFile
                               && step.st.current.value.path == chunk.path)
  {
  }

  /**
    Count theorem, for any stream of chunks and any file system: the counter is
    never negative; if nothing else goes wrong, the stream is refused exactly
    when it has more runs than files were announced, and a stream that is not
    refused ends FINISHED exactly when the two numbers are equal.
   */
  lemma CountTheorem<F>(ops: Fs<F>, cfg: Config, fs: F, total: nat, stream: seq<Option<Chunk>>)
    requires forall i | 0 <= i < |stream| :: stream[i].Some?
    ensures
      var fault := ReceiveAll(ops, cfg, Fresh(CleanExisting(ops, fs, cfg.topDirs), total), stream).fault;
      var outcome := StartTransfer(ops, cfg, fs, total, stream);
      && outcome.st.remaining >= 0
      && (fault.None? || fault == Some(CountExceeded) ==> (fault.None? <==> Runs(stream) <= total))
      && (fault.None? ==> (outcome.status == FINISHED <==> Runs(stream) == total))
      && (fault.None? ==> (outcome.status == FINISHED_WARNING <==> Runs(stream) < total))
      && (outcome.status == FAILED <==> fault.Some?)
  {
    CountFollowsRuns(ops, cfg, CleanExisting(ops, fs, cfg.topDirs), total, stream);
  }

  /** A chunk that begins one file too many and descends as it should is refused for that, be its path safe or not. */
  lemma SurplusIsCounted<F>(ops: Fs<F>, cfg: Config, fs: F, total: nat, front: seq<Option<Chunk>>, chunk: Chunk)
    requires forall i | 0 <= i < |front| :: front[i].Some?
    requires ReceiveAll(ops, cfg, Fresh(fs, total), front).fault.None? && Runs(front) == total
    requires Descended(cfg, chunk.path) && (front != [] ==> front[|front| - 1].value.path != chunk.path)
    ensures ReceiveAll(ops, cfg, Fresh(fs, total), front + [Some(chunk)]).fault == Some(CountExceeded)
  {
    var st := ReceiveAll(ops, cfg, Fresh(fs, total), front).st;
    CountFollowsRuns(ops, cfg, fs, total, front);
    ReceiveSplit(ops, cfg, Fresh(fs, total), front, [Some(chunk)]);
    ReceiveOne(ops, cfg, st, chunk);
  }

  /**
    A call that is cancelled never counts as finished, however many files have
    come: it keeps the status it has, unless it had failed before. Its count is
    that of the runs closed by then.
   */
  lemma CancelledIsUnfinished<F>(ops: Fs<F>, cfg: Config, fs: F, total: nat, stream: seq<Option<Chunk>>)
    requires forall i | 0 <= i < |stream| :: stream[i].Some?
    ensures
      var fault := ReceiveAll(ops, cfg, Fresh(CleanExisting(ops, fs, cfg.topDirs), total), stream).fault;
      var outcome := CancelTransfer(ops, cfg, fs, total, stream);
      && (fault.None? ==> outcome.status == TRANSFERRING)
      && (fault.Some? ==> outcome.status == FAILED)
      && (fault.None? && stream != [] ==> outcome.st.remaining == total - (Runs(stream) - 1) > 0)
  {
    CountFollowsRuns(ops, cfg, CleanExisting(ops, fs, cfg.topDirs), total, stream);
  }
}

/** The receiver object, and the operation that drives it. */
module FileReceiver {
  import opened Options
  import opened FileTree
  import opened FileSender
  import opened ReceiverModel

  class Receiver<F> {
    const ops: Fs<F>
    const cfg: Config
    var fs: F
    var currentPath: Option<Path>
    var currentHasFile: bool
    var currentType: FileType
    var currentStream: bool
    var currentMode: nat
    var folderPermissionChangeList: seq<(Path, nat)>
    var remainingCount: int
    ghost var log: seq<Event>

    ghost predicate Valid()
      reads this
    {
      (currentStream ==> currentHasFile) && (currentHasFile ==> currentPath.Some?)
    }

    ghost function S(): State<F>
      reads this
    {
      State(fs,
            if currentPath.None? then None
            else Some(Current(currentPath.value, currentType, currentMode, currentStream, currentHasFile)),
            folderPermissionChangeList, remainingCount, log)
    }

    constructor (ops: Fs<F>, cfg: Config, fs: F, total: nat)
      ensures Valid() && S() == Fresh(fs, total) && this.ops == ops && this.cfg == cfg
    {
      this.ops, this.cfg, this.fs := ops, cfg, fs;
      currentPath, currentHasFile, currentType, currentStream, currentMode := None, false, Other, false, 0;
      folderPermissionChangeList, remainingCount := [], total;
      log := [];
    }

    /** os.chmod; a failure is only logged. */
    method Chmod(path: Path, mode: nat)
      requires Valid()
      modifies `fs, `log
      ensures Valid() && S() == ApplyChmod(ops, old(S()), path, mode)
    {
      log := log + [Event.Chmod(path, mode, ops.throughLink(fs, path))];
      match ops.chmod(fs, path, mode)
      case None =>
      case Some(fs') =>
        fs := fs';
    }

    method CloseCurrentFile()
      requires Valid()
      modifies this
      ensures Valid() && S() == Close(ops, cfg, old(S()))
    {
      if !currentHasFile {
        return;
      }
      if currentStream {
        currentStream := false;
      }
      if cfg.preservePerms && currentMode > 0 && currentType != SymbolicLink {
        if currentType == Regular {
          Chmod(currentPath.value, currentMode);
        } else {
          folderPermissionChangeList := folderPermissionChangeList + [(currentPath.value, currentMode)];
        }
      }
      currentType, currentMode, currentPath, currentHasFile := Other, 0, None, false;
      remainingCount := remainingCount - 1;
    }

    method ReceiveData(s: Chunk) returns (fault: Option<Fault>)
      requires Valid()
      modifies this
      ensures Valid() && Step(S(), fault) == Receive(ops, cfg, old(S()), s)
    {
      var path := s.path;
      if currentPath != Some(path) {
        CloseCurrentFile();
        currentPath, currentMode, currentType := Some(path), s.mode, s.fileType;
        currentHasFile, currentStream := false, false;
        var descended := IsDescended(path);
        if !descended {
          return Some(NotDescended);
        }
      }
      if remainingCount == 0 {
        return Some(CountExceeded);
      }
      if !currentHasFile {
        if !ops.safe(fs, path) {
          return Some(UnsafePath);
        }
        currentHasFile := true;
      }
      fault := FillCurrent(path, s);
    }

    method IsDescended(path: Path) returns (b: bool)
      ensures b <==> Descended(cfg, path)
    {
      var i := 0;
      while i < |cfg.topDirs|
        invariant i <= |cfg.topDirs|
        invariant forall j | 0 <= j < i :: !(cfg.topDirs[j] <= JoinPath(path))
      {
        if cfg.topDirs[i] <= JoinPath(path) {
          return true;
        }
        i := i + 1;
      }
      return false;
    }

    /** The part of receive_data that touches the file system. */
    method FillCurrent(path: Path, s: Chunk) returns (fault: Option<Fault>)
      requires Valid() && currentHasFile && currentPath == Some(path)
      modifies `fs, `currentStream, `log
      ensures Valid() && Step(S(), fault) == Fill(ops, old(S()), old(S()).current.value, s)
    {
      if s.fileType == Directory {
        match ops.makedirs(fs, path) {
          case None => return Some(IoError);
          case Some(fs') => fs, log := fs', log + [Made(path)];
        }
      } else if s.fileType == SymbolicLink {
        match ops.symlink(fs, path, s.target) {
          case None => return Some(IoError);
          case Some(fs') => fs, log := fs', log + [Made(path)];
        }
      } else {
        if !currentStream {
          match ops.create(fs, path) {
            case None => return Some(IoError);
            case Some(fs') => fs, log, currentStream := fs', log + [Made(path)], true;
          }
        }
        if s.data == [] {
          return None;
        }
        match ops.write(fs, path, s.data) {
          case None => return Some(IoError);
          case Some(fs') => fs, log := fs', log + [Wrote(path)];
        }
      }
      return None;
    }

    method DoApplyFolderPermissions()
      requires Valid()
      modifies `fs, `log, `folderPermissionChangeList
      ensures Valid() && S() == if cfg.preservePerms then ApplyFolderPermissions(ops, old(S())) else old(S())
    {
      if cfg.preservePerms {
        while folderPermissionChangeList != []
          invariant Valid() && ApplyFolderPermissions(ops, S()) == ApplyFolderPermissions(ops, old(S()))
          decreases |folderPermissionChangeList|
        {
          var n := |folderPermissionChangeList|;
          var (path, mode) := folderPermissionChangeList[n - 1];
          folderPermissionChangeList := folderPermissionChangeList[..n - 1];
          Chmod(path, mode);
        }
      }
    }

    /** The loop over the stream; a chunk that cannot be decoded ends it like a fault. */
    method ReceiveStream(stream: seq<Option<Chunk>>) returns (fault: Option<Fault>)
      requires Valid()
      modifies this
      ensures Valid() && Step(S(), fault) == ReceiveAll(ops, cfg, old(S()), stream)
    {
      fault := None;
      var i := 0;
      assert stream[0..] == stream;
      while i < |stream| && fault.None?
        invariant i <= |stream| && Valid()
        invariant ReceiveAll(ops, cfg, old(S()), stream) ==
                  if fault.Some? then Step(S(), fault) else ReceiveAll(ops, cfg, S(), stream[i..])
        decreases |stream| - i, if fault.None? then 1 else 0
      {
        assert stream[i..][0] == stream[i] && stream[i..][1..] == stream[i + 1..];
        fault := Some(BadData);
        if stream[i].Some? {
          fault := ReceiveData(stream[i].value);
        }
        i := i + 1;
      }
    }

    method ReceiveFinished()
      requires Valid()
      modifies this
      ensures Valid() && S() == Finish(ops, cfg, old(S()))
    {
      CloseCurrentFile();
      DoApplyFolderPermissions();
    }

    method CleanCurrentTopDirFile()
      requires Valid()
      modifies `fs, `log
      ensures Valid() && S() == CleanCurrent(ops, old(S()))
    {
      if currentPath.Some? && currentPath.value != [] && ops.safe(fs, currentPath.value) {
        var top := currentPath.value[0];
        fs, log := ops.remove(fs, [top]), log + [Removed(top)];
      }
    }
  }

  method CleanExistingFiles<F>(ops: Fs<F>, fs: F, names: seq<Name>) returns (fs': F)
    ensures fs' == CleanExisting(ops, fs, names)
  {
    fs' := fs;
    var i := 0;
    assert names[0..] == names;
    while i < |names|
      invariant i <= |names|
      invariant CleanExisting(ops, fs', names[i..]) == CleanExisting(ops, fs, names)
    {
      assert names[i..][1..] == names[i + 1..];
      fs' := ops.remove(fs', [names[i]]);
      i := i + 1;
    }
  }

  /** Runs one fresh receive operation over its stream, which may end by being cancelled, and settles its status. */
  method StartTransferOp<F>(ops: Fs<F>, cfg: Config, fs: F, total: nat, stream: seq<Option<Chunk>>, cancelled: bool)
    returns (status: Status, receiver: Receiver<F>)
    ensures fresh(receiver) && receiver.Valid()
    ensures Outcome(receiver.S(), status) ==
            if cancelled then CancelTransfer(ops, cfg, fs, total, stream)
            else StartTransfer(ops, cfg, fs, total, stream)
  {
    status := TRANSFERRING;
    var cleaned := CleanExistingFiles(ops, fs, cfg.topDirs);
    receiver := new Receiver(ops, cfg, cleaned, total);
    var fault := receiver.ReceiveStream(stream);
    if fault.Some? || cancelled {
      receiver.CleanCurrentTopDirFile();
      status := if fault.Some? then FAILED else status;
    } else {
      receiver.ReceiveFinished();
      status := if receiver.remainingCount > 0 then FINISHED_WARNING else FINISHED;
    }
  }
}
