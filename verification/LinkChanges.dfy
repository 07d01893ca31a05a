/**
  When a receiver changes a mode through a link. The path check is made once,
  when a run of chunks begins, and lets pass what leads inside by way of links;
  what the run, or a later one, puts in the place of a link or of a file is not
  looked at again.
 */
module LinkChanges {
  import opened Options
  import opened FileTree
  import opened FileSender
  import opened ReceiverModel
  import opened Confinement
  import opened PermissionOrder
  import opened SaveFolder

  // ----- Links and folders stay -----

  ghost predicate SameLinks(fs: Folder, fs': Folder) { forall q :: LinkAt(fs', q) <==> LinkAt(fs, q) }

  lemma ChmodKeepsLinks(host: Host, st: State<Folder>, p: Path, mode: nat)
    ensures SameLinks(st.fs, ApplyChmod(Operations(host), st, p, mode).fs)
  {
  }

  lemma CloseKeepsLinks(host: Host, cfg: Config, st: State<Folder>)
    ensures SameLinks(st.fs, Close(Operations(host), cfg, st).fs)
  {
    if st.current.Some? {
      ChmodKeepsLinks(host, st, st.current.value.path, st.current.value.mode);
    }
  }

  lemma {:induction false} MakeDirsKeepsLinks(host: Host, fs: Folder, p: Path)
    requires MakeDirs(host, fs, p).Some?
    ensures SameLinks(fs, MakeDirs(host, fs, p).value)
    decreases |p|
  {
    if p != [] && !IsFolder(host, fs, p) {
      MakeDirsKeepsLinks(host, fs, Parent(p));
    }
  }

  /** A chunk that passes the checks makes the link it is for, and touches no other. */
  lemma FillLinks(host: Host, st: State<Folder>, c: Current, chunk: Chunk, q: Path)
    requires c.path == chunk.path && Fill(Operations(host), st, c, chunk).fault.None?
    ensures
      LinkAt(Fill(Operations(host), st, c, chunk).st.fs, q)
      <==> LinkAt(st.fs, q) || (chunk.fileType == SymbolicLink && Spot(host, st.fs, chunk.path) == Some(q))
  {
    if chunk.fileType == Directory {
      MakeDirsKeepsLinks(host, st.fs, c.path);
    }
  }

  /** Before its end, the path meets a link. */
  ghost predicate LinkAbove(host: Host, fs: Folder, p: Path) {
    exists n {:trigger LinkAt(fs, Plain(host, p[..n]))} | 0 < n < |p| :: LinkAt(fs, Plain(host, p[..n]))
  }

  predicate IsOpen(fs: Folder, q: Path) { q == [] || FolderAt(fs, q) }

  /** On the way to the path, taken as it stands, there are only folders. */
  ghost predicate WayOpen(host: Host, fs: Folder, p: Path) {
    forall n {:trigger IsOpen(fs, Plain(host, p[..n]))} | 0 < n < |p| :: IsOpen(fs, Plain(host, p[..n]))
  }

  lemma OpenWayHasNoLink(host: Host, fs: Folder, p: Path)
    requires WayOpen(host, fs, p)
    ensures !LinkAbove(host, fs, p)
  {
    forall n {:trigger LinkAt(fs, Plain(host, p[..n]))} | 0 < n < |p| ensures !LinkAt(fs, Plain(host, p[..n])) {
      assert IsOpen(fs, Plain(host, p[..n]));
    }
  }

  lemma NoLinkAboveSpot(host: Host, fs: Folder, p: Path)
    requires p != [] && Last(p) != ".." && !LinkAbove(host, fs, p)
    ensures Spot(host, fs, p) == Some(Plain(host, p))
  {
    var up := Parent(p);
    forall n {:trigger LinkAt(fs, Plain(host, up[..n]))} | 0 < n <= |up| ensures !LinkAt(fs, Plain(host, up[..n])) {
      assert up[..n] == p[..n];
    }
    PlaceIsPlain(host, fs, up);
  }

  lemma PassableIsOpen(host: Host, fs: Folder, p: Path)
    requires Passable(host, fs, p) && !LinkAbove(host, fs, p)
    ensures WayOpen(host, fs, p)
  {
    forall n {:trigger IsOpen(fs, Plain(host, p[..n]))} | 0 < n < |p| ensures IsOpen(fs, Plain(host, p[..n])) {
      var up := p[..n];
      forall k {:trigger LinkAt(fs, Plain(host, up[..k]))} | 0 < k <= n ensures !LinkAt(fs, Plain(host, up[..k])) {
        assert up[..k] == p[..k] && !LinkAt(fs, Plain(host, p[..k]));
      }
      PlaceIsPlain(host, fs, up);
      assert Passed(host, fs, p[..n]);
    }
  }

  lemma FillKeepsWay(host: Host, st: State<Folder>, c: Current, chunk: Chunk, p: Path)
    requires WayOpen(host, st.fs, p)
    ensures WayOpen(host, Fill(Operations(host), st, c, chunk).st.fs, p)
  {
    var fs := Fill(Operations(host), st, c, chunk).st.fs;
    forall n {:trigger IsOpen(fs, Plain(host, p[..n]))} | 0 < n < |p| ensures IsOpen(fs, Plain(host, p[..n])) {
      assert IsOpen(st.fs, Plain(host, p[..n]));
      if Plain(host, p[..n]) != [] { FillKeepsFolder(host, st, c, chunk, Plain(host, p[..n])); }
    }
  }

  /** Which links there are decides what a path meets. */
  lemma SameWay(host: Host, fs: Folder, fs': Folder, p: Path)
    requires SameLinks(fs, fs')
    ensures ThroughLink(host, fs', p) <==> ThroughLink(host, fs, p)
    ensures LinkAbove(host, fs', p) <==> LinkAbove(host, fs, p)
  {
  }

  lemma AboveOrAtEnd(host: Host, fs: Folder, p: Path)
    requires p != []
    ensures ThroughLink(host, fs, p) <==> LinkAbove(host, fs, p) || LinkAt(fs, Plain(host, p))
  {
    assert p[..|p|] == p;
    if n :| 0 < n <= |p| && LinkAt(fs, Plain(host, p[..n])) {
      assert n == |p| ==> p[..n] == p;
    }
  }

  // ----- Runs -----

  /** Where the last run of chunks began. */
  function RunStart(stream: seq<Option<Chunk>>): (c: nat)
    requires AllArrive(stream) && stream != []
    ensures c < |stream| && StartsRun(stream, c)
    ensures forall k | c < k < |stream| :: !StartsRun(stream, k)
    ensures forall k | c <= k < |stream| :: stream[k].value.path == stream[c].value.path
    decreases |stream|
  {
    var last := |stream| - 1;
    if StartsRun(stream, last) then last
    else
      var front := stream[..last];
      var c := RunStart(front);
      assert forall k | 0 <= k < last :: front[k] == stream[k] && StartsRun(front, k) == StartsRun(stream, k);
      c
  }

  ghost predicate SameRun(stream: seq<Option<Chunk>>, i: nat, j: nat)
    requires AllArrive(stream) && i <= j < |stream|
  {
    forall k | i <= k <= j :: stream[k].value.path == stream[i].value.path
  }

  /** Within the run that chunk i begins, chunk j puts a link in the place of its file. */
  ghost predicate ReplacedAt(stream: seq<Option<Chunk>>, i: nat, j: nat)
    requires AllArrive(stream)
  {
    i < j < |stream| && SameRun(stream, i, j) && stream[j].value.fileType == SymbolicLink
  }

  ghost predicate Replaced(stream: seq<Option<Chunk>>, i: nat)
    requires AllArrive(stream)
  {
    exists j :: ReplacedAt(stream, i, j)
  }

  ghost predicate Followed(log: seq<Event>) { exists n :: 0 <= n < |log| && log[n].Chmod? && log[n].link }

  lemma FollowedSum(a: seq<Event>, b: seq<Event>)
    ensures Followed(a + b) <==> Followed(a) || Followed(b)
  {
    if n :| 0 <= n < |a| && a[n].Chmod? && a[n].link {
      assert (a + b)[n] == a[n];
    }
    if n :| 0 <= n < |b| && b[n].Chmod? && b[n].link {
      assert (a + b)[|a| + n] == b[n];
    }
  }

  // ----- Where links are put -----

  /** A stream, and what it is received with: the folder is the one that cleaning has left. */
  datatype Receipt = Receipt(host: Host, cfg: Config, fs: Folder, total: nat, stream: seq<Option<Chunk>>)
  {
    function Result(): Step<Folder> { ReceiveAll(Operations(host), cfg, Fresh(fs, total), stream) }

    function First(k: nat): Receipt
      requires k <= |stream|
    {
      this.(stream := stream[..k])
    }
  }

  function Began(host: Host, cfg: Config, st: State<Folder>, chunk: Chunk): State<Folder> {
    if st.current.Some? && st.current.value.path == chunk.path then st
    else
      Close(Operations(host), cfg, st)
        .(current := Some(Current(chunk.path, chunk.fileType, chunk.mode, false, false)))
  }

  /** The link that chunk j brings is put at this place. */
  ghost predicate PlacedAt(r: Receipt, j: nat, q: Path)
    requires AllArrive(r.stream) && j < |r.stream|
  {
    var chunk := r.stream[j].value;
    && chunk.fileType == SymbolicLink
    && Spot(r.host, Began(r.host, r.cfg, r.First(j).Result().st, chunk).fs, chunk.path) == Some(q)
  }

  /** When chunk k comes there is a link here: from the beginning, or put here since. */
  ghost predicate WasLink(r: Receipt, k: nat, q: Path)
    requires AllArrive(r.stream) && k <= |r.stream|
  {
    LinkAt(r.fs, q) || exists j :: 0 <= j < k && PlacedAt(r, j, q)
  }

  /** The path of chunk i leads through a link that is there when it comes. */
  ghost predicate LinkAboveAt(r: Receipt, i: nat)
    requires AllArrive(r.stream) && i < |r.stream|
  {
    var p := r.stream[i].value.path;
    exists n {:trigger WasLink(r, i, Plain(r.host, p[..n]))} | 0 < n < |p| :: WasLink(r, i, Plain(r.host, p[..n]))
  }

  /** A file whose mode is to be restored lies beyond a link, or is replaced by one within its run. */
  ghost predicate FileStrays(r: Receipt, i: nat)
    requires AllArrive(r.stream) && i < |r.stream|
  {
    && r.cfg.preservePerms && StartsRun(r.stream, i)
    && r.stream[i].value.fileType == Regular && r.stream[i].value.mode > 0
    && (LinkAboveAt(r, i) || Replaced(r.stream, i))
  }

  /** It has happened in a run that began before chunk c. */
  ghost predicate FileStrayed(r: Receipt, c: nat)
    requires AllArrive(r.stream) && c <= |r.stream|
  {
    exists i: nat :: i < c && FileStrays(r, i)
  }

  /** Something else whose mode is to be restored has a path that leads to or through a link in the end. */
  ghost predicate OtherStrays(r: Receipt, i: nat)
    requires AllArrive(r.stream) && i < |r.stream|
  {
    var chunk := r.stream[i].value;
    && r.cfg.preservePerms && StartsRun(r.stream, i) && IsFolderMode(chunk)
    && exists n {:trigger WasLink(r, |r.stream|, Plain(r.host, chunk.path[..n]))} | 0 < n <= |chunk.path| ::
         WasLink(r, |r.stream|, Plain(r.host, chunk.path[..n]))
  }

  // ----- One chunk more -----

  function More(r: Receipt, chunk: Chunk): Receipt { r.(stream := r.stream + [Some(chunk)]) }

  lemma PlacedKeeps(r: Receipt, chunk: Chunk, j: nat, q: Path)
    requires AllArrive(r.stream) && j < |r.stream|
    ensures PlacedAt(More(r, chunk), j, q) == PlacedAt(r, j, q)
  {
    assert More(r, chunk).stream[..j] == r.stream[..j];
  }

  lemma WasLinkKeeps(r: Receipt, chunk: Chunk, k: nat, q: Path)
    requires AllArrive(r.stream) && k <= |r.stream|
    ensures WasLink(More(r, chunk), k, q) <==> WasLink(r, k, q)
  {
    forall j | 0 <= j < k ensures PlacedAt(More(r, chunk), j, q) == PlacedAt(r, j, q) {
      PlacedKeeps(r, chunk, j, q);
    }
  }

  lemma WasLinkGrows(r: Receipt, chunk: Chunk, q: Path)
    requires AllArrive(r.stream)
    ensures WasLink(More(r, chunk), |r.stream| + 1, q) <==>
            WasLink(r, |r.stream|, q) || PlacedAt(More(r, chunk), |r.stream|, q)
  {
    WasLinkKeeps(r, chunk, |r.stream|, q);
  }

  lemma AboveKeeps(r: Receipt, chunk: Chunk, i: nat)
    requires AllArrive(r.stream) && i < |r.stream|
    ensures LinkAboveAt(More(r, chunk), i) <==> LinkAboveAt(r, i)
  {
    var more, p := More(r, chunk), r.stream[i].value.path;
    assert more.stream[i] == r.stream[i];
    forall n | 0 < n < |p| ensures WasLink(more, i, Plain(r.host, p[..n])) <==> WasLink(r, i, Plain(r.host, p[..n])) {
      WasLinkKeeps(r, chunk, i, Plain(r.host, p[..n]));
    }
    if n :| 0 < n < |p| && WasLink(r, i, Plain(r.host, p[..n])) {
      assert WasLink(more, i, Plain(r.host, p[..n]));
    }
    if n :| 0 < n < |p| && WasLink(more, i, Plain(r.host, p[..n])) {
      assert WasLink(r, i, Plain(r.host, p[..n]));
    }
  }

  /** A run that is over is not replaced in any more. */
  lemma ReplacedSettles(stream: seq<Option<Chunk>>, chunk: Chunk, i: nat, c: nat)
    requires AllArrive(stream) && i < c <= |stream| && StartsRun(stream + [Some(chunk)], c)
    ensures Replaced(stream + [Some(chunk)], i) <==> Replaced(stream, i)
  {
    var more := stream + [Some(chunk)];
    if Replaced(stream, i) {
      var j: nat :| ReplacedAt(stream, i, j);
      assert ReplacedAt(more, i, j);
    }
    if Replaced(more, i) {
      var j: nat :| ReplacedAt(more, i, j);
      assert j < c;
      assert SameRun(stream, i, j) by {
        forall k | i <= k <= j ensures stream[k].value.path == stream[i].value.path {
          assert more[k].value.path == more[i].value.path;
        }
      }
      assert ReplacedAt(stream, i, j);
    }
  }

  lemma StrayedSettles(r: Receipt, chunk: Chunk, c: nat)
    requires AllArrive(r.stream) && c <= |r.stream| && StartsRun(More(r, chunk).stream, c)
    ensures FileStrayed(More(r, chunk), c) <==> FileStrayed(r, c)
  {
    forall i: nat | i < c ensures FileStrays(More(r, chunk), i) <==> FileStrays(r, i) {
      AboveKeeps(r, chunk, i);
      ReplacedSettles(r.stream, chunk, i, c);
    }
  }

  // ----- What the receiver keeps -----

  /** The links are those there were and those that were put: none ever goes again. */
  ghost predicate LinksAre(r: Receipt, fs: Folder)
    requires AllArrive(r.stream)
  {
    forall q :: LinkAt(fs, q) <==> WasLink(r, |r.stream|, q)
  }

  /** The way to the current file, if it is one whose mode is restored as soon as it is closed. */
  ghost predicate FileIs(r: Receipt, fs: Folder, c: nat)
    requires AllArrive(r.stream) && c < |r.stream|
  {
    var p := r.stream[c].value.path;
    && p != [] && Last(p) != ".."
    && (LinkAbove(r.host, fs, p) <==> LinkAboveAt(r, c))
    && (!LinkAbove(r.host, fs, p) ==>
          WayOpen(r.host, fs, p) && (LinkAt(fs, Plain(r.host, p)) <==> Replaced(r.stream, c)))
  }

  ghost predicate CurrentIs(r: Receipt, st: State<Folder>)
    requires AllArrive(r.stream) && r.stream != []
  {
    var first := r.stream[RunStart(r.stream)].value;
    && st.current.Some?
    && var c := st.current.value;
       && c.hasFile && c.path == first.path && c.fileType == first.fileType && c.mode == first.mode
       && (first.fileType == Regular ==> FileIs(r, st.fs, RunStart(r.stream)))
  }

  ghost predicate Tracked(r: Receipt, st: State<Folder>)
    requires AllArrive(r.stream)
  {
    && LinksAre(r, st.fs)
    && if r.stream == [] then st.current.None? && st.log == []
       else CurrentIs(r, st) && (Followed(st.log) <==> FileStrayed(r, RunStart(r.stream)))
  }

  lemma LastRunOrBefore(r: Receipt)
    requires AllArrive(r.stream) && r.stream != []
    ensures FileStrayed(r, |r.stream|) <==>
            FileStrayed(r, RunStart(r.stream)) || FileStrays(r, RunStart(r.stream))
  {
    var c := RunStart(r.stream);
    if FileStrayed(r, |r.stream|) {
      var i: nat :| i < |r.stream| && FileStrays(r, i);
      StrayedBefore(r, i);
    }
    if FileStrayed(r, c) {
      var i: nat :| i < c && FileStrays(r, i);
    }
  }

  lemma StrayedBefore(r: Receipt, i: nat)
    requires AllArrive(r.stream) && i < |r.stream| && FileStrays(r, i)
    ensures i == RunStart(r.stream) || FileStrayed(r, RunStart(r.stream))
  {
    assert i <= RunStart(r.stream);
  }

  lemma FileMeetsLink(r: Receipt, fs: Folder, c: nat)
    requires AllArrive(r.stream) && c < |r.stream| && FileIs(r, fs, c)
    ensures
      ThroughLink(r.host, fs, r.stream[c].value.path) ==> LinkAboveAt(r, c) || Replaced(r.stream, c)
    ensures LinkAboveAt(r, c) ==> ThroughLink(r.host, fs, r.stream[c].value.path)
    ensures Replaced(r.stream, c) ==> ThroughLink(r.host, fs, r.stream[c].value.path)
  {
    AboveOrAtEnd(r.host, fs, r.stream[c].value.path);
  }

  /** Closing the current file changes its mode through a link exactly if its run has strayed. */
  lemma CloseFollows(r: Receipt, st: State<Folder>)
    requires AllArrive(r.stream) && r.stream != [] && Tracked(r, st)
    ensures Followed(Close(Operations(r.host), r.cfg, st).log) <==> FileStrayed(r, |r.stream|)
  {
    var c := RunStart(r.stream);
    var first := r.stream[c].value;
    var restores := r.cfg.preservePerms && first.mode > 0 && first.fileType == Regular;
    var added := if restores then [Chmod(first.path, first.mode, ThroughLink(r.host, st.fs, first.path))] else [];
    assert Close(Operations(r.host), r.cfg, st).log == st.log + added;
    FollowedSum(st.log, added);
    LastRunOrBefore(r);
    if restores {
      FileMeetsLink(r, st.fs, c);
      assert Followed(added) <==> added[0].link;
    }
  }

  /** Receiving a chunk without fault is beginning a run, if it is a new one, and then filling. */
  lemma ReceiveIsFill(host: Host, cfg: Config, st: State<Folder>, chunk: Chunk)
    requires Receive(Operations(host), cfg, st, chunk).fault.None?
    ensures
      var st1 := Began(host, cfg, st, chunk);
      var c := st1.current.value.(hasFile := true);
      && c.path == chunk.path
      && Receive(Operations(host), cfg, st, chunk) == Fill(Operations(host), st1.(current := Some(c)), c, chunk)
  {
  }

  lemma LinksGrow(r: Receipt, st: State<Folder>, chunk: Chunk)
    requires AllArrive(r.stream) && LinksAre(r, st.fs) && r.Result().st == st
    requires Receive(Operations(r.host), r.cfg, st, chunk).fault.None?
    ensures LinksAre(More(r, chunk), Receive(Operations(r.host), r.cfg, st, chunk).st.fs)
  {
    var more, fs := More(r, chunk), Receive(Operations(r.host), r.cfg, st, chunk).st.fs;
    assert more.stream[..|r.stream|] == r.stream;
    ReceiveIsFill(r.host, r.cfg, st, chunk);
    CloseKeepsLinks(r.host, r.cfg, st);
    var st1 := Began(r.host, r.cfg, st, chunk);
    var c := st1.current.value.(hasFile := true);
    forall q ensures LinkAt(fs, q) <==> WasLink(more, |more.stream|, q) {
      FillLinks(r.host, st1.(current := Some(c)), c, chunk, q);
      WasLinkGrows(r, chunk, q);
    }
  }

  /** Filling changes no mode, whether it succeeds or not. */
  lemma FillFollowsNothing(host: Host, st: State<Folder>, c: Current, chunk: Chunk)
    ensures Followed(Fill(Operations(host), st, c, chunk).st.log) <==> Followed(st.log)
  {
    var log := Fill(Operations(host), st, c, chunk).st.log;
    var added := log[|st.log|..];
    assert log == st.log + added && forall n | 0 <= n < |added| :: !added[n].Chmod?;
    FollowedSum(st.log, added);
  }

  lemma FillKeepsRun(host: Host, st: State<Folder>, c: Current, chunk: Chunk)
    requires st.current == Some(c) && Fill(Operations(host), st, c, chunk).fault.None?
    ensures
      var now := Fill(Operations(host), st, c, chunk).st.current;
      now.Some? && now.value.(streaming := c.streaming) == c
  {
  }

  lemma SameRunFile(r: Receipt, st: State<Folder>, chunk: Chunk)
    requires AllArrive(r.stream) && r.stream != [] && r.Result().st == st
    requires CurrentIs(r, st) && LinksAre(r, st.fs) && st.current.value.path == chunk.path
    requires r.stream[RunStart(r.stream)].value.fileType == Regular
    requires Receive(Operations(r.host), r.cfg, st, chunk).fault.None?
    ensures FileIs(More(r, chunk), Receive(Operations(r.host), r.cfg, st, chunk).st.fs, RunStart(r.stream))
  {
    var more, fs := More(r, chunk), Receive(Operations(r.host), r.cfg, st, chunk).st.fs;
    var c, p := RunStart(r.stream), chunk.path;
    ReceiveIsFill(r.host, r.cfg, st, chunk);
    AboveKeeps(r, chunk, c);
    var links := st.current.value;
    assert st.(current := Some(links)) == st;
    if LinkAbove(r.host, st.fs, p) {
      FillKeepsLinks(r.host, st, links, chunk);
      var n :| 0 < n < |p| && LinkAt(st.fs, Plain(r.host, p[..n]));
      assert LinkAt(fs, Plain(r.host, p[..n]));
    } else {
      FillKeepsWay(r.host, st, links, chunk, p);
      OpenWayHasNoLink(r.host, fs, p);
      NoLinkAboveSpot(r.host, st.fs, p);
      FillLinks(r.host, st, links, chunk, Plain(r.host, p));
      ReplacedGrows(r.stream, chunk);
    }
  }

  lemma FillKeepsLinks(host: Host, st: State<Folder>, c: Current, chunk: Chunk)
    requires c.path == chunk.path && Fill(Operations(host), st, c, chunk).fault.None?
    ensures forall q :: LinkAt(st.fs, q) ==> LinkAt(Fill(Operations(host), st, c, chunk).st.fs, q)
  {
    forall q | LinkAt(st.fs, q) ensures LinkAt(Fill(Operations(host), st, c, chunk).st.fs, q) {
      FillLinks(host, st, c, chunk, q);
    }
  }

  /** One chunk more of the run that is on. */
  lemma ReplacedGrows(stream: seq<Option<Chunk>>, chunk: Chunk)
    requires AllArrive(stream) && stream != [] && chunk.path == stream[RunStart(stream)].value.path
    ensures
      Replaced(stream + [Some(chunk)], RunStart(stream))
      <==> Replaced(stream, RunStart(stream)) || chunk.fileType == SymbolicLink
  {
    var more, c := stream + [Some(chunk)], RunStart(stream);
    if Replaced(stream, c) {
      var j: nat :| ReplacedAt(stream, c, j);
      assert ReplacedAt(more, c, j);
    }
    if chunk.fileType == SymbolicLink {
      assert ReplacedAt(more, c, |stream|);
    }
    if Replaced(more, c) {
      var j: nat :| ReplacedAt(more, c, j);
      if j < |stream| {
        assert SameRun(stream, c, j) by {
          forall k | c <= k <= j ensures stream[k].value.path == stream[c].value.path {
            assert more[k].value.path == more[c].value.path;
          }
        }
        assert ReplacedAt(stream, c, j);
      }
    }
  }

  lemma NewRunFile(r: Receipt, st: State<Folder>, chunk: Chunk)
    requires AllArrive(r.stream) && LinksAre(r, st.fs) && r.Result().st == st && chunk.fileType == Regular
    requires st.current.Some? ==> st.current.value.path != chunk.path
    requires Receive(Operations(r.host), r.cfg, st, chunk).fault.None?
    ensures FileIs(More(r, chunk), Receive(Operations(r.host), r.cfg, st, chunk).st.fs, |r.stream|)
  {
    var more, fs := More(r, chunk), Receive(Operations(r.host), r.cfg, st, chunk).st.fs;
    var closed, p := Close(Operations(r.host), r.cfg, st), chunk.path;
    CloseKeepsLinks(r.host, r.cfg, st);
    ReceiveIsFill(r.host, r.cfg, st, chunk);
    assert more.stream[|r.stream|] == Some(chunk);
    NewFileFilled(r.host, closed, chunk);
    AboveNow(r, closed.fs, chunk);
    forall j | ReplacedAt(more.stream, |r.stream|, j) ensures false {
    }
  }

  /** A new run for a file creates it, where nothing was and on a way that the path itself names or that has a link. */
  lemma NewFileFilled(host: Host, closed: State<Folder>, chunk: Chunk)
    requires chunk.fileType == Regular
    requires
      var c := Current(chunk.path, Regular, chunk.mode, false, true);
      Fill(Operations(host), closed.(current := Some(c)), c, chunk).fault.None?
    ensures
      var c := Current(chunk.path, Regular, chunk.mode, false, true);
      var fs := Fill(Operations(host), closed.(current := Some(c)), c, chunk).st.fs;
      && chunk.path != [] && Last(chunk.path) != ".."
      && (LinkAbove(host, fs, chunk.path) <==> LinkAbove(host, closed.fs, chunk.path))
      && (!LinkAbove(host, fs, chunk.path) ==>
            WayOpen(host, fs, chunk.path) && !LinkAt(fs, Plain(host, chunk.path)))
  {
    var c := Current(chunk.path, Regular, chunk.mode, false, true);
    var st := closed.(current := Some(c));
    var fs := Fill(Operations(host), st, c, chunk).st.fs;
    forall q ensures LinkAt(fs, q) <==> LinkAt(st.fs, q) {
      FillLinks(host, st, c, chunk, q);
    }
    SameWay(host, st.fs, fs, chunk.path);
    if !LinkAbove(host, fs, chunk.path) {
      PassableIsOpen(host, st.fs, chunk.path);
      NoLinkAboveSpot(host, st.fs, chunk.path);
      FillKeepsWay(host, st, c, chunk, chunk.path);
    }
  }

  lemma AboveNow(r: Receipt, fs: Folder, chunk: Chunk)
    requires AllArrive(r.stream) && LinksAre(r, fs)
    ensures LinkAbove(r.host, fs, chunk.path) <==> LinkAboveAt(More(r, chunk), |r.stream|)
  {
    var more, p, k := More(r, chunk), chunk.path, |r.stream|;
    forall n | 0 < n < |p| ensures WasLink(more, k, Plain(r.host, p[..n])) <==> LinkAt(fs, Plain(r.host, p[..n])) {
      WasLinkKeeps(r, chunk, k, Plain(r.host, p[..n]));
    }
    assert more.stream[k].value.path == p;
    if n :| 0 < n < |p| && LinkAt(fs, Plain(r.host, p[..n])) {
      assert WasLink(more, k, Plain(r.host, p[..n]));
    }
    if n :| 0 < n < |p| && WasLink(more, k, Plain(r.host, p[..n])) {
      assert LinkAt(fs, Plain(r.host, p[..n]));
    }
  }

  lemma SameRunTracked(r: Receipt, st: State<Folder>, chunk: Chunk)
    requires AllArrive(r.stream) && r.stream != [] && Tracked(r, st) && r.Result().st == st
    requires st.current.value.path == chunk.path && Receive(Operations(r.host), r.cfg, st, chunk).fault.None?
    ensures Tracked(More(r, chunk), Receive(Operations(r.host), r.cfg, st, chunk).st)
  {
    var more := More(r, chunk);
    assert more.stream[..|r.stream|] == r.stream;
    assert RunStart(more.stream) == RunStart(r.stream);
    LinksGrow(r, st, chunk);
    ReceiveIsFill(r.host, r.cfg, st, chunk);
    assert st.(current := Some(st.current.value)) == st;
    FillFollowsNothing(r.host, st, st.current.value, chunk);
    FillKeepsRun(r.host, st, st.current.value, chunk);
    if r.stream[RunStart(r.stream)].value.fileType == Regular { SameRunFile(r, st, chunk); }
    StrayedSettles(r, chunk, RunStart(r.stream));
  }

  lemma NewRunTracked(r: Receipt, st: State<Folder>, chunk: Chunk)
    requires AllArrive(r.stream) && Tracked(r, st) && r.Result().st == st
    requires r.stream != [] ==> st.current.value.path != chunk.path
    requires Receive(Operations(r.host), r.cfg, st, chunk).fault.None?
    ensures Tracked(More(r, chunk), Receive(Operations(r.host), r.cfg, st, chunk).st)
  {
    var more, closed := More(r, chunk), Close(Operations(r.host), r.cfg, st);
    assert StartsRun(more.stream, |r.stream|) && RunStart(more.stream) == |r.stream|;
    LinksGrow(r, st, chunk);
    ReceiveIsFill(r.host, r.cfg, st, chunk);
    var c := Current(chunk.path, chunk.fileType, chunk.mode, false, true);
    FillFollowsNothing(r.host, closed.(current := Some(c)), c, chunk);
    FillKeepsRun(r.host, closed.(current := Some(c)), c, chunk);
    if chunk.fileType == Regular { NewRunFile(r, st, chunk); }
    if r.stream != [] { CloseFollows(r, st); }
    StrayedSettles(r, chunk, |r.stream|);
  }

  // ----- The whole stream -----

  /**
    At every point of a stream: the links are those there were and those that
    were put, the file at hand has only folders on its way unless there was a
    link, and a mode has been changed through a link exactly if a run has strayed.
   */
  lemma {:induction false} StreamTracked(r: Receipt)
    requires AllArrive(r.stream) && r.Result().fault.None?
    ensures Tracked(r, r.Result().st)
    decreases |r.stream|
  {
    if r.stream != [] {
      var last := r.stream[|r.stream| - 1];
      var front := r.First(|r.stream| - 1);
      assert r.stream == front.stream + [last];
      ReceiveSplit(Operations(r.host), r.cfg, Fresh(r.fs, r.total), front.stream, [last]);
      StreamTracked(front);
      var st := front.Result().st;
      ReceiveOne(Operations(r.host), r.cfg, st, last.value);
      assert r == More(front, last.value);
      if front.stream != [] && st.current.value.path == last.value.path {
        SameRunTracked(front, st, last.value);
      } else {
        NewRunTracked(front, st, last.value);
      }
    }
  }

  /** One of the modes put aside is for a path that meets a link. */
  ghost predicate AsideMeets(host: Host, fs: Folder, modes: seq<(Path, nat)>) {
    exists k :: 0 <= k < |modes| && ThroughLink(host, fs, modes[k].0)
  }

  lemma AsideMeetsLast(host: Host, fs: Folder, fs': Folder, modes: seq<(Path, nat)>)
    requires modes != [] && SameLinks(fs, fs')
    ensures AsideMeets(host, fs, modes) <==>
            AsideMeets(host, fs', modes[..|modes| - 1]) || ThroughLink(host, fs, modes[|modes| - 1].0)
  {
    var last := |modes| - 1;
    forall k | 0 <= k < last ensures ThroughLink(host, fs', modes[..last][k].0) <==> ThroughLink(host, fs, modes[k].0) {
      SameWay(host, fs, fs', modes[k].0);
    }
    if AsideMeets(host, fs, modes) {
      var k :| 0 <= k < |modes| && ThroughLink(host, fs, modes[k].0);
      assert k < last ==> ThroughLink(host, fs', modes[..last][k].0);
    }
    if AsideMeets(host, fs', modes[..last]) {
      var k :| 0 <= k < last && ThroughLink(host, fs', modes[..last][k].0);
      assert ThroughLink(host, fs, modes[k].0);
    }
  }

  lemma OneMeets(host: Host, st: State<Folder>, p: Path, mode: nat)
    ensures
      var next := ApplyChmod(Operations(host), st, p, mode);
      && next.perms == st.perms && SameLinks(st.fs, next.fs)
      && (Followed(next.log) <==> Followed(st.log) || ThroughLink(host, st.fs, p))
  {
    var call := Event.Chmod(p, mode, ThroughLink(host, st.fs, p));
    FollowedSum(st.log, [call]);
    assert Followed([call]) <==> [call][0].link;
    ChmodKeepsLinks(host, st, p, mode);
  }

  /** The pass over the modes put aside changes one through a link exactly if its path meets one. */
  lemma {:induction false} PassMeets(host: Host, st: State<Folder>)
    ensures
      Followed(ApplyFolderPermissions(Operations(host), st).log)
      <==> Followed(st.log) || AsideMeets(host, st.fs, st.perms)
    decreases |st.perms|
  {
    if st.perms != [] {
      var last := |st.perms| - 1;
      var popped := st.(perms := st.perms[..last]);
      var next := ApplyChmod(Operations(host), popped, st.perms[last].0, st.perms[last].1);
      OneMeets(host, popped, st.perms[last].0, st.perms[last].1);
      PassMeets(host, next);
      AsideMeetsLast(host, st.fs, next.fs, st.perms);
    }
  }

  /** The paths of the modes put aside, at the end. */
  lemma AsideStrays(r: Receipt, fs: Folder)
    requires AllArrive(r.stream) && r.cfg.preservePerms && LinksAre(r, fs)
    ensures AsideMeets(r.host, fs, FolderModes(r.stream)) <==> exists i :: 0 <= i < |r.stream| && OtherStrays(r, i)
  {
    var modes := FolderModes(r.stream);
    if k :| 0 <= k < |modes| && ThroughLink(r.host, fs, modes[k].0) {
      FolderModesAre(r.stream, modes[k]);
      var i: nat :| i < |r.stream| && ModeSentAt(r.stream, modes[k], i);
      MeetsIsStrays(r, fs, i);
      assert OtherStrays(r, i);
    }
    if i: nat :| i < |r.stream| && OtherStrays(r, i) {
      var entry := (r.stream[i].value.path, r.stream[i].value.mode);
      assert ModeSentAt(r.stream, entry, i);
      FolderModesAre(r.stream, entry);
      var k :| 0 <= k < |modes| && modes[k] == entry;
      MeetsIsStrays(r, fs, i);
      assert ThroughLink(r.host, fs, modes[k].0);
    }
  }

  lemma MeetsIsStrays(r: Receipt, fs: Folder, i: nat)
    requires AllArrive(r.stream) && LinksAre(r, fs) && i < |r.stream|
    requires r.cfg.preservePerms && StartsRun(r.stream, i) && IsFolderMode(r.stream[i].value)
    ensures ThroughLink(r.host, fs, r.stream[i].value.path) <==> OtherStrays(r, i)
  {
    var p := r.stream[i].value.path;
    if n :| 0 < n <= |p| && LinkAt(fs, Plain(r.host, p[..n])) {
      assert WasLink(r, |r.stream|, Plain(r.host, p[..n]));
    }
    if n :| 0 < n <= |p| && WasLink(r, |r.stream|, Plain(r.host, p[..n])) {
      assert LinkAt(fs, Plain(r.host, p[..n]));
    }
  }

  /** The stream leads a mode that is to be restored through a link. */
  ghost predicate Strays(r: Receipt)
    requires AllArrive(r.stream)
  {
    FileStrayed(r, |r.stream|) || exists i :: 0 <= i < |r.stream| && OtherStrays(r, i)
  }

  lemma FinishFollows(r: Receipt, st: State<Folder>)
    requires AllArrive(r.stream) && Tracked(r, st)
    requires r.cfg.preservePerms ==> Close(Operations(r.host), r.cfg, st).perms == FolderModes(r.stream)
    ensures Followed(Finish(Operations(r.host), r.cfg, st).log) <==> Strays(r)
  {
    var closed := Close(Operations(r.host), r.cfg, st);
    if r.stream != [] { CloseFollows(r, st); }
    if r.cfg.preservePerms {
      PassMeets(r.host, closed);
      CloseKeepsLinks(r.host, r.cfg, st);
      AsideStrays(r, closed.fs);
    }
  }

  function Cleaned(host: Host, cfg: Config, fs: Folder, total: nat, stream: seq<Option<Chunk>>): Receipt {
    Receipt(host, cfg, CleanExisting(Operations(host), fs, cfg.topDirs), total, stream)
  }

  /**
    For any stream that is received without a fault, into any file system and on
    any machine: a mode is changed through a link exactly if the stream leads it
    there. For a file that is if there is a link on its way when its run begins,
    or a link takes its place within the run; for anything else, if there is a
    link on the way or at the end of its path once everything has come.
   */
  lemma FollowsIffStrays(host: Host, cfg: Config, fs: Folder, total: nat, stream: seq<Option<Chunk>>)
    requires AllArrive(stream) && Cleaned(host, cfg, fs, total, stream).Result().fault.None?
    ensures Followed(StartTransfer(Operations(host), cfg, fs, total, stream).st.log)
            <==> Strays(Cleaned(host, cfg, fs, total, stream))
  {
    var r := Cleaned(host, cfg, fs, total, stream);
    StreamTracked(r);
    ReceiverDefers(Operations(host), cfg, r.fs, total, stream);
    FinishFollows(r, r.Result().st);
  }

  // ----- A stream that is refused or cancelled -----

  /** The runs that are closed when a chunk comes next, intact or not. */
  function ClosedBefore(front: seq<Option<Chunk>>, next: Option<Chunk>): (c: nat)
    requires AllArrive(front)
    ensures c <= |front|
  {
    if front == [] then 0
    else if next.Some? && next.value.path != front[|front| - 1].value.path then |front|
    else RunStart(front)
  }

  lemma RefusedChunk(host: Host, cfg: Config, st: State<Folder>, chunk: Chunk)
    requires Receive(Operations(host), cfg, st, chunk).fault.Some?
    requires st.current.Some? ==> st.current.value.hasFile
    ensures
      var same := st.current.Some? && st.current.value.path == chunk.path;
      Followed(Receive(Operations(host), cfg, st, chunk).st.log)
      <==> Followed(if same then st.log else Close(Operations(host), cfg, st).log)
  {
    var st1 := Began(host, cfg, st, chunk);
    var c := st1.current.value.(hasFile := true);
    FillFollowsNothing(host, st1.(current := Some(c)), c, chunk);
  }

  lemma CleanUpFollowsNothing(host: Host, st: State<Folder>)
    ensures Followed(CleanCurrent(Operations(host), st).log) <==> Followed(st.log)
  {
    var after := CleanCurrent(Operations(host), st).log;
    FollowedSum(st.log, after[|st.log|..]);
    assert after == st.log + after[|st.log|..];
  }

  /**
    The same for a stream of which a beginning is received and the next chunk is
    refused or does not arrive, whether the call is cancelled after that or not:
    what counts are the runs closed by then.
   */
  lemma RefusedFollowsIffStrays(host: Host, cfg: Config, fs: Folder, total: nat,
                                front: seq<Option<Chunk>>, next: Option<Chunk>, rest: seq<Option<Chunk>>)
    requires AllArrive(front) && Cleaned(host, cfg, fs, total, front).Result().fault.None?
    requires Cleaned(host, cfg, fs, total, front + [next]).Result().fault.Some?
    ensures
      var strays := FileStrayed(Cleaned(host, cfg, fs, total, front), ClosedBefore(front, next));
      && (Followed(StartTransfer(Operations(host), cfg, fs, total, front + [next] + rest).st.log) <==> strays)
      && (Followed(CancelTransfer(Operations(host), cfg, fs, total, front + [next] + rest).st.log) <==> strays)
  {
    var ops, r := Operations(host), Cleaned(host, cfg, fs, total, front);
    var start, st := Fresh(r.fs, total), r.Result().st;
    StreamTracked(r);
    ReceiveSplit(ops, cfg, start, front, [next]);
    ReceiveSplit(ops, cfg, start, front + [next], rest);
    CleanUpFollowsNothing(host, ReceiveAll(ops, cfg, start, front + [next]).st);
    if front != [] { CloseFollows(r, st); }
    if next.Some? {
      ReceiveOne(ops, cfg, st, next.value);
      RefusedChunk(host, cfg, st, next.value);
    }
  }

  /** And for a call that is cancelled after chunks that were all received: the last run is not closed any more. */
  lemma CancelledFollowsIffStrays(host: Host, cfg: Config, fs: Folder, total: nat, stream: seq<Option<Chunk>>)
    requires AllArrive(stream) && Cleaned(host, cfg, fs, total, stream).Result().fault.None?
    ensures Followed(CancelTransfer(Operations(host), cfg, fs, total, stream).st.log)
            <==> FileStrayed(Cleaned(host, cfg, fs, total, stream), ClosedBefore(stream, None))
  {
    var r := Cleaned(host, cfg, fs, total, stream);
    StreamTracked(r);
    CleanUpFollowsNothing(host, r.Result().st);
  }
}
