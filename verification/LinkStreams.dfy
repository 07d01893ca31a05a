/**
  Streams that bring links: when the places where these are put can be read off
  the stream, and two streams that have a mode changed through a link.
 */
module LinkStreams {
  import opened Options
  import opened FileTree
  import opened FileSender
  import opened ReceiverModel
  import opened PermissionOrder
  import opened SaveFolder
  import opened LinkChanges

  // ----- Links put where they are sent -----

  ghost predicate SentAt(r: Receipt, j: nat, q: Path)
    requires AllArrive(r.stream) && j < |r.stream|
  {
    r.stream[j].value.fileType == SymbolicLink && Plain(r.host, r.stream[j].value.path) == q
  }

  ghost predicate WasSent(r: Receipt, k: nat, q: Path)
    requires AllArrive(r.stream) && k <= |r.stream|
  {
    LinkAt(r.fs, q) || exists j :: 0 <= j < k && SentAt(r, j, q)
  }

  /** No link is sent below one that was there or was sent before: this needs only the stream and the folder. */
  ghost predicate NoLinkBelowLink(r: Receipt)
    requires AllArrive(r.stream)
  {
    forall j, n {:trigger r.stream[j].value.path[..n]}
      | 0 <= j < |r.stream| && r.stream[j].value.fileType == SymbolicLink && 0 < n < |r.stream[j].value.path| ::
      !WasSent(r, j, Plain(r.host, r.stream[j].value.path[..n]))
  }

  lemma ChunkReceived(r: Receipt, j: nat)
    requires AllArrive(r.stream) && j < |r.stream| && r.Result().fault.None?
    ensures r.First(j).Result().fault.None?
    ensures Receive(Operations(r.host), r.cfg, r.First(j).Result().st, r.stream[j].value).fault.None?
  {
    var ops, start := Operations(r.host), Fresh(r.fs, r.total);
    assert r.stream == r.stream[..j] + r.stream[j..];
    ReceiveSplit(ops, r.cfg, start, r.stream[..j], r.stream[j..]);
    assert r.stream[j..] == [r.stream[j]] + r.stream[j + 1..];
    ReceiveSplit(ops, r.cfg, r.First(j).Result().st, [r.stream[j]], r.stream[j + 1..]);
    ReceiveOne(ops, r.cfg, r.First(j).Result().st, r.stream[j].value);
  }

  lemma EarlierPlaced(r: Receipt, j: nat, k: nat, q: Path)
    requires AllArrive(r.stream) && k < j <= |r.stream|
    ensures PlacedAt(r.First(j), k, q) == PlacedAt(r, k, q)
  {
    assert r.stream[..j][..k] == r.stream[..k];
  }

  lemma {:induction false} PlacedAsSent(r: Receipt, j: nat, q: Path)
    requires AllArrive(r.stream) && r.Result().fault.None? && NoLinkBelowLink(r) && j < |r.stream|
    ensures PlacedAt(r, j, q) <==> SentAt(r, j, q)
    decreases j
  {
    var chunk, front := r.stream[j].value, r.First(j);
    if chunk.fileType == SymbolicLink {
      ChunkReceived(r, j);
      var st := front.Result().st;
      var fs := Began(r.host, r.cfg, st, chunk).fs;
      ReceiveIsFill(r.host, r.cfg, st, chunk);
      StreamTracked(front);
      CloseKeepsLinks(r.host, r.cfg, st);
      forall n {:trigger LinkAt(fs, Plain(r.host, chunk.path[..n]))} | 0 < n < |chunk.path|
        ensures !LinkAt(fs, Plain(r.host, chunk.path[..n]))
      {
        var x := Plain(r.host, chunk.path[..n]);
        assert !WasSent(r, j, Plain(r.host, r.stream[j].value.path[..n]));
        forall k | 0 <= k < j ensures !PlacedAt(front, k, x) {
          PlacedAsSent(r, k, x);
          EarlierPlaced(r, j, k, x);
        }
        assert !WasLink(front, |front.stream|, x);
      }
      assert !LinkAbove(r.host, fs, chunk.path);
      NoLinkAboveSpot(r.host, fs, chunk.path);
    }
  }

  /** In such a stream, the links there are when a chunk comes are those that were there or were sent before. */
  lemma LinksAsSent(r: Receipt, k: nat, q: Path)
    requires AllArrive(r.stream) && r.Result().fault.None? && NoLinkBelowLink(r) && k <= |r.stream|
    ensures WasLink(r, k, q) <==> WasSent(r, k, q)
  {
    forall j | 0 <= j < k ensures PlacedAt(r, j, q) <==> SentAt(r, j, q) {
      PlacedAsSent(r, j, q);
    }
  }

  // ----- It happens -----

  lemma {:induction false} EmptyStaysEmpty(host: Host, names: seq<Name>)
    requires RemovesAsItCan(host) && Ordinary(names)
    ensures CleanExisting(Operations(host), map[], names) == map[]
    decreases |names|
  {
    if names != [] {
      assert names[0] in names;
      assert Removes(map[], [names[0]], host.removeAny(map[], [names[0]]));
      assert host.removeAny(map[], [names[0]]) == map[];
      EmptyStaysEmpty(host, names[1..]);
    }
  }

  function FileThenLink(mode: nat, target: string): seq<Option<Chunk>> {
    [Some(Chunk(["x"], Regular, "", [], mode)), Some(Chunk(["x"], SymbolicLink, target, [], 0))]
  }

  lemma FileThenLinkReceived(host: Host, cfg: Config, mode: nat, target: string)
    requires cfg.topDirs == ["x"]
    ensures
      ReceiveAll(Operations(host), cfg, Fresh(map[], 1), FileThenLink(mode, target))
      == Step(State(map[["x"] := FsLink(target)], Some(Current(["x"], Regular, mode, true, true)), [], 1,
                    [Made(["x"]), Made(["x"])]), None)
  {
    var ops, stream := Operations(host), FileThenLink(mode, target);
    var file := map[["x"] := FsFile([], host.fileMode)];
    assert JoinPath(["x"]) == "x" && cfg.topDirs[0] <= JoinPath(["x"]);
    OrdinaryAdds(host, map[], ["x"]);
    var first := Receive(ops, cfg, Fresh(map[], 1), stream[0].value);
    assert first == Step(State(file, Some(Current(["x"], Regular, mode, true, true)), [], 1, [Made(["x"])]), None);
    OrdinarySpot(host, file, ["x"]);
    assert file[["x"] := FsLink(target)] == map[["x"] := FsLink(target)];
    assert MakeLink(host, file, ["x"], target) == Some(map[["x"] := FsLink(target)]);
    assert stream[1..] == [stream[1]];
    ReceiveOne(ops, cfg, first.st, stream[1].value);
  }

  /**
    A file sent with a mode and then, as its next chunk, a link: the transfer
    ends well, and the mode has been given to whatever the link leads to.
   */
  lemma ModeThroughLink(host: Host, mode: nat, target: string)
    requires RemovesAsItCan(host) && mode > 0
    ensures
      var outcome := StartTransfer(Operations(host), Config(["x"], true), map[], 1, FileThenLink(mode, target));
      && outcome.status == FINISHED
      && outcome.st.log == [Made(["x"]), Made(["x"]), Event.Chmod(["x"], mode, true)]
      && outcome.st.fs == Changed(host, map[["x"] := FsLink(target)], ["x"], mode)
  {
    var ops, cfg := Operations(host), Config(["x"], true);
    EmptyStaysEmpty(host, ["x"]);
    FileThenLinkReceived(host, cfg, mode, target);
    ClosedThroughLink(host, cfg, ReceiveAll(ops, cfg, Fresh(map[], 1), FileThenLink(mode, target)).st, mode);
  }

  lemma ClosedThroughLink(host: Host, cfg: Config, st: State<Folder>, mode: nat)
    requires cfg.preservePerms && mode > 0 && st.perms == [] && LinkAt(st.fs, ["x"])
    requires st.current == Some(Current(["x"], Regular, mode, true, true))
    ensures Finish(Operations(host), cfg, st)
            == st.(fs := Changed(host, st.fs, ["x"], mode), current := None, remaining := st.remaining - 1,
                   log := st.log + [Event.Chmod(["x"], mode, true)])
  {
    FirstNameIsLink(host, st.fs, ["x"]);
    var closed := Close(Operations(host), cfg, st);
    assert closed.log == st.log + [Event.Chmod(["x"], mode, true)];
    assert closed.perms == [];
  }

  lemma FirstNameIsLink(host: Host, fs: Folder, p: Path)
    requires p != [] && p[0] != ".." && LinkAt(fs, [p[0]])
    ensures ThroughLink(host, fs, p)
  {
    assert p[..1] == [p[0]];
    OrdinaryIsPlain(host, p[..1]);
    assert LinkAt(fs, Plain(host, p[..1]));
  }

  function Changed(host: Host, fs: Folder, p: Path, mode: nat): Folder {
    match ChangeMode(host, fs, p, mode)
    case None => fs
    case Some(fs') => fs'
  }

  const D := Chunk(["d"], Directory, "", [], 0)

  const A := Chunk(["a"], SymbolicLink, "d", [], 0)

  function BelowA(mode: nat): Chunk { Chunk(["a", "s"], Directory, "", [], mode) }

  function AwayFrom(target: string): Chunk { Chunk(["a"], SymbolicLink, target, [], 0) }

  /** A folder, a link to it, a folder below the link, and then another link in the place of the first. */
  function LinkMoved(mode: nat, target: string): seq<Option<Chunk>> {
    [Some(D), Some(A), Some(BelowA(mode)), Some(AwayFrom(target))]
  }

  /** A machine on which the link leads to the folder. */
  ghost predicate LeadsToD(host: Host) {
    && Searchable(host.dirMode) && Writable(host.dirMode)
    && forall fs: Folder | ["a"] in fs && fs[["a"]] == FsLink("d") :: host.resolve(fs, ["a"]) == Some(["d"])
  }

  /** There are such machines. */
  lemma SuchMachine() returns (host: Host)
    ensures RemovesAsItCan(host) && LeadsToD(host)
  {
    var resolve := (fs: Folder, q: Path) => if q in fs && fs[q] == FsLink("d") then Some(["d"]) else None;
    host := Host(1, (k: nat) => "save", 0x1ed, 0x1a4, resolve, RemoveOrLeave);
    SomeHost(host);
    assert host.(removeAny := RemoveOrLeave) == host;
  }

  ghost predicate HasLink(host: Host, fs: Folder) {
    && ["d"] in fs && fs[["d"]] == FsDir(host.dirMode) && ["a"] in fs && fs[["a"]] == FsLink("d")
    && ["d", "s"] !in fs
  }

  lemma LinkLeads(host: Host, fs: Folder)
    requires LeadsToD(host) && HasLink(host, fs)
    ensures Place(host, fs, ["a"]) == Some(["d"]) && Spot(host, fs, ["a", "s"]) == Some(["d", "s"])
    ensures Place(host, fs, ["a", "s"]) == Some(["d", "s"]) && CanAdd(host, fs, ["a", "s"]) && IsFolder(host, fs, ["a"])
  {
    assert ["a", "s"][..1] == ["a"] && ["a"][..0] == [] && ["a", "s"][..0] == [];
    assert Parent(["a"]) == [] && Parent(["a", "s"]) == ["a"];
    assert Next(host, [], "a") == ["a"] && Next(host, ["d"], "s") == ["d", "s"];
    assert Passed(host, fs, ["a", "s"][..0]) && Passed(host, fs, ["a", "s"][..1]) && Passed(host, fs, ["a"][..0]);
  }

  lemma BelowLinkMade(host: Host, fs: Folder)
    requires LeadsToD(host) && HasLink(host, fs)
    ensures Safe(host, fs, ["a", "s"])
    ensures MakeDirs(host, fs, ["a", "s"]) == Some(fs[["d", "s"] := FsDir(host.dirMode)])
  {
    LinkLeads(host, fs);
    assert Parent(["a", "s"]) == ["a"];
    assert MakeDirs(host, fs, ["a"]) == Some(fs);
  }

  lemma FirstTwo(host: Host, cfg: Config)
    requires LeadsToD(host) && cfg.topDirs == ["d", "a"]
    ensures
      var fs := map[["d"] := FsDir(host.dirMode), ["a"] := FsLink("d")];
      ReceiveAll(Operations(host), cfg, Fresh(map[], 4), [Some(D), Some(A)])
      == Step(State(fs, Some(Current(["a"], SymbolicLink, 0, false, true)), [], 3, [Made(["d"]), Made(["a"])]), None)
  {
    var ops, stream := Operations(host), [Some(D), Some(A)];
    var fs1 := map[["d"] := FsDir(host.dirMode)];
    assert cfg.topDirs[0] <= JoinPath(["d"]) && cfg.topDirs[1] <= JoinPath(["a"]);
    OrdinaryAdds(host, map[], ["d"]);
    var first := Receive(ops, cfg, Fresh(map[], 4), D);
    assert first == Step(State(fs1, Some(Current(["d"], Directory, 0, false, true)), [], 4, [Made(["d"])]), None);
    OrdinaryAdds(host, fs1, ["a"]);
    assert stream[1..] == [Some(A)];
    ReceiveOne(ops, cfg, first.st, A);
  }

  lemma LastTwo(host: Host, cfg: Config, st: State<Folder>, mode: nat, target: string)
    requires LeadsToD(host) && cfg == Config(["d", "a"], true) && HasLink(host, st.fs) && st.remaining == 3
    requires st.current == Some(Current(["a"], SymbolicLink, 0, false, true))
    requires st.perms == [] && mode > 0
    ensures
      var step := ReceiveAll(Operations(host), cfg, st, [Some(BelowA(mode)), Some(AwayFrom(target))]);
      && step.fault.None? && step.st.remaining == 1 && step.st.perms == [(["a", "s"], mode)]
      && step.st.current == Some(Current(["a"], SymbolicLink, 0, false, true))
      && step.st.log == st.log + [Made(["a", "s"]), Made(["a"])]
      && LinkAt(step.st.fs, ["a"])
  {
    var ops, stream := Operations(host), [Some(BelowA(mode)), Some(AwayFrom(target))];
    assert JoinPath(["a", "s"][1..]) == "s" && "a" <= JoinPath(["a", "s"]) && "a" <= JoinPath(["a"]);
    assert cfg.topDirs[1] == "a";
    BelowLinkMade(host, st.fs);
    var first := Receive(ops, cfg, st, BelowA(mode));
    var fs := st.fs[["d", "s"] := FsDir(host.dirMode)];
    assert first == Step(State(fs, Some(Current(["a", "s"], Directory, mode, false, true)), [], 2,
                               st.log + [Made(["a", "s"])]), None);
    assert stream[1..] == [Some(AwayFrom(target))];
    ReceiveOne(ops, cfg, first.st, AwayFrom(target));
    LinkReplaced(host, fs, target);
  }

  lemma LinkReplaced(host: Host, fs: Folder, target: string)
    requires LeadsToD(host) && ["a"] in fs && fs[["a"]] == FsLink("d")
    ensures Safe(host, fs, ["a"]) && MakeLink(host, fs, ["a"], target) == Some(fs[["a"] := FsLink(target)])
  {
    OrdinarySpot(host, fs, ["a"]);
    assert Parent(["a"]) == [] && Next(host, [], "a") == ["a"];
  }

  /**
    A folder sent below a link that leads inside, with a mode, and then another
    link in the place of the first: the transfer ends well, and the mode has been
    asked for at a path that leads through the second link.
   */
  lemma ModeBeyondLink(host: Host, mode: nat, target: string)
    requires RemovesAsItCan(host) && LeadsToD(host) && mode > 0
    ensures
      var outcome := StartTransfer(Operations(host), Config(["d", "a"], true), map[], 4, LinkMoved(mode, target));
      && outcome.status == FINISHED
      && outcome.st.log == [Made(["d"]), Made(["a"]), Made(["a", "s"]), Made(["a"]),
                            Event.Chmod(["a", "s"], mode, true)]
  {
    EmptyStaysEmpty(host, ["d", "a"]);
    var st := AllReceived(host, mode, target);
    OneModeAside(host, Config(["d", "a"], true), st, mode);
  }

  lemma AllReceived(host: Host, mode: nat, target: string) returns (st: State<Folder>)
    requires LeadsToD(host) && mode > 0
    ensures ReceiveAll(Operations(host), Config(["d", "a"], true), Fresh(map[], 4), LinkMoved(mode, target))
            == Step(st, None)
    ensures st.remaining == 1 && st.perms == [(["a", "s"], mode)] && LinkAt(st.fs, ["a"])
    ensures st.current == Some(Current(["a"], SymbolicLink, 0, false, true))
    ensures st.log == [Made(["d"]), Made(["a"]), Made(["a", "s"]), Made(["a"])]
  {
    var ops, cfg := Operations(host), Config(["d", "a"], true);
    var first, last := [Some(D), Some(A)], [Some(BelowA(mode)), Some(AwayFrom(target))];
    FirstTwo(host, cfg);
    var before := ReceiveAll(ops, cfg, Fresh(map[], 4), first).st;
    LastTwo(host, cfg, before, mode, target);
    assert LinkMoved(mode, target) == first + last;
    ReceiveSplit(ops, cfg, Fresh(map[], 4), first, last);
    st := ReceiveAll(ops, cfg, before, last).st;
  }

  lemma OneModeAside(host: Host, cfg: Config, st: State<Folder>, mode: nat)
    requires cfg.preservePerms && st.perms == [(["a", "s"], mode)] && LinkAt(st.fs, ["a"])
    requires st.current == Some(Current(["a"], SymbolicLink, 0, false, true))
    ensures
      var after := Finish(Operations(host), cfg, st);
      after.remaining == st.remaining - 1 && after.log == st.log + [Event.Chmod(["a", "s"], mode, true)]
  {
    var closed := Close(Operations(host), cfg, st);
    FirstNameIsLink(host, closed.fs, ["a", "s"]);
    assert st.perms[..0] == [];
    var popped := closed.(perms := []);
    assert ApplyFolderPermissions(Operations(host), closed)
           == ApplyFolderPermissions(Operations(host), ApplyChmod(Operations(host), popped, ["a", "s"], mode));
  }
}
