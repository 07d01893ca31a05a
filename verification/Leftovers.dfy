/**
  Receiving into a save folder in which something under an announced name
  cannot be removed. Cleaning only reports that, and the transfer goes on.
 */
module Leftovers {
  import opened Options
  import opened FileTree
  import opened FileSender
  import opened ReceiverModel
  import opened SaveFolder
  import opened RoundTrip

  // ----- What cannot be removed stays -----

  ghost predicate Distinct(names: seq<Name>) {
    forall i, j | 0 <= i < j < |names| :: names[i] != names[j]
  }

  ghost predicate ObstacleAt(fs: Folder, name: Name, x: Path) {
    x in fs && [name] <= x && fs[x].FsDir? && !Clearable(fs, x)
  }

  ghost predicate Obstructed(fs: Folder, name: Name) { exists x :: ObstacleAt(fs, name, x) }

  lemma NotRemovable(fs: Folder, name: Name)
    requires Rooted(fs) && !Removable(fs, [name])
    ensures Obstructed(fs, name) && FolderAt(fs, [name])
  {
    var x :| x in fs && [name] <= x && !Clearable(fs, x);
    assert ObstacleAt(fs, name, x);
    assert x[..1] == [name];
    if |x| > 1 {
      RootedWay(fs, x, 1);
    } else {
      assert x == [name];
    }
  }

  lemma OwnNameCleaned(fs: Folder, name: Name, fs': Folder)
    requires Removes(fs, [name], fs') && Obstructed(fs, name) && FolderAt(fs, [name])
    ensures FolderAt(fs', [name])
  {
    var x :| ObstacleAt(fs, name, x);
    assert Stays(fs, [name], fs', x);
    assert x[..1] == [name];
  }

  /** Cleaning away another name leaves an obstacle as it was. */
  lemma OtherNameCleaned(fs: Folder, removed: Name, fs': Folder, name: Name)
    requires Removes(fs, [removed], fs') && removed != name
    ensures FolderAt(fs, [name]) ==> FolderAt(fs', [name])
    ensures Obstructed(fs, name) ==> Obstructed(fs', name)
  {
    Under(removed, [name]);
    if Obstructed(fs, name) {
      var x :| ObstacleAt(fs, name, x);
      assert x[0] == name && !([removed] <= x);
      if r :| r in fs && Holds(fs, x, r) {
        assert r[0] == x[0];
        assert Holds(fs', x, r);
      }
      assert ObstacleAt(fs', name, x);
    }
  }

  /** A top-level folder that cannot be removed is still there after cleaning. */
  lemma {:induction false} CleaningLeaves(host: Host, fs: Folder, names: seq<Name>, name: Name)
    requires RemovesAsItCan(host) && Distinct(names) && Ordinary(names) && FolderAt(fs, [name])
    requires name in names ==> Obstructed(fs, name)
    ensures FolderAt(CleanExisting(Operations(host), fs, names), [name])
    decreases |names|
  {
    if names != [] {
      var rest := host.removeAny(fs, [names[0]]);
      assert names[0] in names;
      assert Removes(fs, [names[0]], rest);
      if names[0] == name {
        OwnNameCleaned(fs, name, rest);
        assert name !in names[1..];
      } else {
        OtherNameCleaned(fs, names[0], rest, name);
      }
      CleaningLeaves(host, rest, names[1..], name);
    }
  }

  /** Whatever a stream says, a folder that cleaning left is one at the end of a transfer that is not refused. */
  lemma LeftFolderStays(host: Host, cfg: Config, fs: Folder, total: nat, stream: seq<Option<Chunk>>, q: Path)
    requires FolderAt(CleanExisting(Operations(host), fs, cfg.topDirs), q)
    ensures
      var outcome := StartTransfer(Operations(host), cfg, fs, total, stream);
      outcome.status != FAILED ==> FolderAt(outcome.st.fs, q)
  {
    var start := Fresh(CleanExisting(Operations(host), fs, cfg.topDirs), total);
    StreamKeepsFolder(host, cfg, start, stream, q);
    var step := ReceiveAll(Operations(host), cfg, start, stream);
    CloseKeepsFolder(host, cfg, step.st, q);
    PassKeepsFolder(host, Close(Operations(host), cfg, step.st), q);
  }

  // ----- When every tree comes through -----

  /** Empty files with these names. */
  function Flat(names: seq<Name>): (forest: Forest)
    ensures |forest| == |names| && forall i | 0 <= i < |names| :: forest[i] == Entry(names[i], File(0, []))
  {
    seq(|names|, i requires 0 <= i < |names| => Entry(names[i], File(0, [])))
  }

  lemma {:induction false} LookupTop(es: Forest, i: nat)
    requires WellNamed(es) && i < |es|
    ensures Lookup(es, [es[i].name]) == Some(es[i].node)
    decreases |es|
  {
    WellNamedRest(es);
    if i > 0 {
      LookupTop(es[1..], i - 1);
    }
  }

  lemma FlatIsWellNamed(names: seq<Name>)
    requires Distinct(names) && forall i | 0 <= i < |names| :: ValidName(names[i])
    ensures WellNamed(Flat(names)) && Names(Flat(names)) == names
  {
    assert forall i | 0 <= i < |names| :: Names(Flat(names))[i] == names[i];
  }

  lemma NotAFile(host: Host, preserve: bool, forest: Forest, fs0: Folder, after: Folder, i: nat)
    requires WellNamed(forest) && i < |forest| && forest[i].node.File? && FolderAt(after, [forest[i].name])
    ensures !Rebuilt(host, preserve, forest, fs0, after, [forest[i].name])
  {
    LookupTop(forest, i);
    assert Names(forest)[i] == forest[i].name;
  }

  lemma LeftoverSpoils(host: Host, preserve: bool, fs0: Folder, names: seq<Name>, blockSize: nat, i: nat)
    requires RemovesAsItCan(host) && Rooted(fs0) && blockSize > 0 && i < |names|
    requires Distinct(names) && (forall k | 0 <= k < |names| :: ValidName(names[k])) && !Removable(fs0, [names[i]])
    ensures !ComesThrough(host, preserve, fs0, Flat(names), blockSize)
  {
    var forest, q := Flat(names), [names[i]];
    FlatIsWellNamed(names);
    NotRemovable(fs0, names[i]);
    NamesAreOrdinary(forest);
    CleaningLeaves(host, fs0, names, names[i]);
    LeftFolderStays(host, Config(names, preserve), fs0, |Walk([], forest)|,
                    Arriving(AllChunks(Walk([], forest), blockSize)), q);
    var outcome := Received(host, preserve, fs0, forest, blockSize);
    if outcome.status == FINISHED {
      NotAFile(host, preserve, forest, fs0, outcome.st.fs, i);
    }
  }

  /**
    The exact condition: a save folder takes every tree with these top-level
    names exactly if each of its folders under these names can be listed and,
    if it holds something, searched and changed.
   */
  lemma EveryTreeComesThrough(host: Host, preserve: bool, fs0: Folder, names: seq<Name>, blockSize: nat)
    requires RemovesAsItCan(host) && Rooted(fs0) && blockSize > 0
    requires Searchable(host.dirMode) && Writable(host.dirMode)
    requires Distinct(names) && forall i | 0 <= i < |names| :: ValidName(names[i])
    ensures AllRemovable(fs0, names) <==>
            forall forest | WellNamed(forest) && Names(forest) == names ::
              ComesThrough(host, preserve, fs0, forest, blockSize)
  {
    if AllRemovable(fs0, names) {
      forall forest | WellNamed(forest) && Names(forest) == names
        ensures ComesThrough(host, preserve, fs0, forest, blockSize) {
        RebuildsTree(host, preserve, fs0, forest, blockSize);
      }
    } else {
      var i :| 0 <= i < |names| && !Removable(fs0, [names[i]]);
      FlatIsWellNamed(names);
      LeftoverSpoils(host, preserve, fs0, names, blockSize, i);
    }
  }

  // ----- Sending a read-only folder twice -----

  const CLOSED := 0x16d  // r-xr-xr-x

  const B := Entry("b", File(0x1a4, []))

  const READ_ONLY := [Entry("a", Dir(CLOSED, [B]))]

  const A_INFO := FileInfo(["a"], Directory, "", CLOSED, [])

  const B_INFO := FileInfo(["a", "b"], Regular, "", 0x1a4, [])

  lemma ReadOnlyListed()
    ensures Walk([], READ_ONLY) == [A_INFO, B_INFO] && WellNamed(READ_ONLY) && Names(READ_ONLY) == ["a"]
    ensures Lookup(READ_ONLY, ["a"]) == Some(READ_ONLY[0].node) && Lookup(READ_ONLY, ["a", "b"]) == Some(B.node)
  {
    assert [B][1..] == [] && READ_ONLY[1..] == [];
    assert Walk(["a"], [B]) == WalkNode(["a", "b"], B.node) == [B_INFO] by {
      assert ["a"] + ["b"] == ["a", "b"];
    }
    assert WalkNode(["a"], READ_ONLY[0].node) == [A_INFO, B_INFO];
    assert [] + ["a"] == ["a"] && ["a", "b"][1..] == ["b"];
    assert WellNamed([B]) && WellNamedNode(READ_ONLY[0].node);
  }

  lemma ReadOnlyChunks(blockSize: nat)
    requires blockSize > 0
    ensures Arriving(AllChunks([A_INFO, B_INFO], blockSize)) == [Some(ChunkOf(A_INFO, [])), Some(ChunkOf(B_INFO, []))]
  {
    assert [A_INFO, B_INFO][1..] == [B_INFO] && [B_INFO][1..] == [];
    assert BlockChunks(B_INFO, [[]]) == [ChunkOf(B_INFO, [])];
    assert AllChunks([B_INFO], blockSize) == [ChunkOf(B_INFO, [])];
    assert AllChunks([A_INFO, B_INFO], blockSize) == [ChunkOf(A_INFO, []), ChunkOf(B_INFO, [])];
  }

  ghost predicate HasReadOnly(fs: Folder) {
    && ["a"] in fs && fs[["a"]] == FsDir(CLOSED)
    && ["a", "b"] in fs && fs[["a", "b"]] == FsFile([], 0x1a4)
  }

  lemma ReadOnlyStays(host: Host, fs: Folder)
    requires RemovesAsItCan(host) && HasReadOnly(fs)
    ensures HasReadOnly(CleanExisting(Operations(host), fs, ["a"]))
  {
    var rest := host.removeAny(fs, ["a"]);
    assert Removes(fs, ["a"], rest);
    assert Holds(fs, ["a"], ["a", "b"]) by { assert Parent(["a", "b"]) == ["a"]; }
    assert !Clearable(fs, ["a"]);
    assert Stays(fs, ["a"], rest, ["a"]) && ["a"][..1] == ["a"];
    assert CleanExisting(Operations(host), rest, ["a"][1..]) == rest;
  }

  /** What was left can be neither made again nor added to. */
  lemma LeftClosed(host: Host, fs: Folder)
    requires HasReadOnly(fs)
    ensures MakeDirs(host, fs, ["a"]) == Some(fs) && CreateFile(host, fs, ["a", "b"]) == None
  {
    assert ["a", "b"][..1] == ["a"] && SearchableAt(fs, ["a"]);
    OrdinarySpot(host, fs, ["a"]);
    OrdinarySpot(host, fs, ["a", "b"]);
  }

  lemma FileRefused(host: Host, fs: Folder)
    requires HasReadOnly(fs)
    ensures
      var ops, cfg := Operations(host), Config(["a"], true);
      ReceiveAll(ops, cfg, Fresh(fs, 2), [Some(ChunkOf(A_INFO, [])), Some(ChunkOf(B_INFO, []))]).fault.Some?
  {
    var ops, cfg := Operations(host), Config(["a"], true);
    var stream := [Some(ChunkOf(A_INFO, [])), Some(ChunkOf(B_INFO, []))];
    LeftClosed(host, fs);
    var step := Receive(ops, cfg, Fresh(fs, 2), stream[0].value);
    if step.fault.None? {
      assert step.st.fs == fs;
      assert step.st.current == Some(Current(["a"], Directory, CLOSED, false, true));
      var next := Receive(ops, cfg, step.st, stream[1].value);
      assert next.fault.Some?;
      assert stream[1..][0] == stream[1];
    }
  }

  /**
    A folder without write permission, sent with its mode and then sent again,
    does not come through the second time: what the first transfer left cannot
    be removed, and its file cannot be created once more.
   */
  lemma ReadOnlyTreeSentTwice(host: Host, blockSize: nat)
    requires RemovesAsItCan(host) && blockSize > 0 && Searchable(host.dirMode) && Writable(host.dirMode)
    ensures WellNamed(READ_ONLY) && ComesThrough(host, true, map[], READ_ONLY, blockSize)
    ensures
      var saved := Received(host, true, map[], READ_ONLY, blockSize).st.fs;
      Received(host, true, saved, READ_ONLY, blockSize).status == FAILED
  {
    ReadOnlyListed();
    RebuildsTree(host, true, map[], READ_ONLY, blockSize);
    var saved := Received(host, true, map[], READ_ONLY, blockSize).st.fs;
    assert Rebuilt(host, true, READ_ONLY, map[], saved, ["a"]);
    assert Rebuilt(host, true, READ_ONLY, map[], saved, ["a", "b"]);
    assert HasReadOnly(saved);
    ReadOnlyStays(host, saved);
    ReadOnlyChunks(blockSize);
    FileRefused(host, CleanExisting(Operations(host), saved, ["a"]));
  }

  // ----- Removing what was not announced -----

  /** A chunk for a path that was not announced is refused, and what is at that path goes. */
  lemma UnannouncedRemoved(host: Host, e: FsEntry, chunk: Chunk)
    requires RemovesAsItCan(host) && chunk.path == ["b"] && !e.FsLink? && (e.FsDir? ==> Readable(e.mode))
    ensures
      var outcome := StartTransfer(Operations(host), Config(["a"], true), map[["b"] := e], 1, [Some(chunk)]);
      && outcome.status == FAILED && outcome.st.log == [Removed("b")] && outcome.st.fs == map[]
  {
    var ops, cfg, fs := Operations(host), Config(["a"], true), map[["b"] := e];
    assert Removes(fs, ["a"], host.removeAny(fs, ["a"]));
    Under("a", ["b"]);
    assert ["b"] in host.removeAny(fs, ["a"]);
    assert host.removeAny(fs, ["a"]) == fs;
    assert CleanExisting(ops, fs, ["a"][1..]) == fs;
    assert JoinPath(["b"]) == "b" && "a"[0] != "b"[0];
    ReceiveOne(ops, cfg, Fresh(fs, 1), chunk);
    OrdinarySpot(host, fs, ["b"]);
    assert Removes(fs, ["b"], host.removeAny(fs, ["b"])) && Removable(fs, ["b"]);
    assert host.removeAny(fs, ["b"]) == map[];
  }
}
