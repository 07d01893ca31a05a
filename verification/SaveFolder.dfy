/**
  The file system a receiver writes to, with the owner's permission bits
  deciding what may be listed, added, removed and reached. Entries are held by
  place: the names that lead from the save folder down to them or, above it,
  one ".." for each folder up and then names down again. The save folder itself
  has the empty place and is always there and open.
 */
module SaveFolder {
  import opened Octets
  import opened Options
  import opened FileTree
  import opened FileSender
  import opened ReceiverModel

  datatype FsEntry =
    | FsDir(mode: nat)
    | FsFile(bytes: Bytes, mode: nat)
    | FsLink(target: string)

  type Folder = map<Path, FsEntry>

  /**
    What depends on the machine: how deep the save folder lies and what leads
    down to it, the modes new folders and files get, where a link leads in the
    end, and what is left of an entry that is removed with everything below it.
   */
  datatype Host = Host(
    depth: nat,
    above: nat -> Name,
    dirMode: nat,
    fileMode: nat,
    resolve: (Folder, Path) -> Option<Path>,
    removeAny: (Folder, Path) -> Folder)

  predicate Readable(mode: nat) { mode / 0x100 % 2 == 1 }

  predicate Writable(mode: nat) { mode / 0x80 % 2 == 1 }

  predicate Searchable(mode: nat) { mode / 0x40 % 2 == 1 }

  predicate FolderAt(fs: Folder, q: Path) { q in fs && fs[q].FsDir? }

  predicate LinkAt(fs: Folder, q: Path) { q != [] && q in fs && fs[q].FsLink? }

  predicate SearchableAt(fs: Folder, q: Path) { FolderAt(fs, q) && Searchable(fs[q].mode) }

  function Parent(p: Path): Path
    requires p != []
  {
    p[..|p| - 1]
  }

  function Last(p: Path): Name
    requires p != []
  {
    p[|p| - 1]
  }

  // ----- Where a path leads -----

  /** The folder above a place; the root is above itself. */
  function Up(host: Host, q: Path): Path {
    if q != [] && Last(q) != ".." then Parent(q) else if |q| < host.depth then q + [".."] else q
  }

  /** One name further. */
  function Next(host: Host, q: Path, name: Name): Path {
    if name == ".." then Up(host, q)
    else if q != [] && Last(q) == ".." && name == host.above(|q|) then Parent(q)
    else q + [name]
  }

  /** The place a path names if no link is met. */
  function Plain(host: Host, p: Path): Path
    decreases |p|
  {
    if p == [] then [] else Next(host, Plain(host, Parent(p)), Last(p))
  }

  function Follow(host: Host, fs: Folder, q: Path): Option<Path> {
    if LinkAt(fs, q) then host.resolve(fs, q) else Some(q)
  }

  /** Part by part, following links: where the path leads, whether it is there or not. */
  function Place(host: Host, fs: Folder, p: Path): Option<Path>
    decreases |p|
  {
    if p == [] then Some([])
    else
      match Place(host, fs, Parent(p))
      case None => None
      case Some(q) => Follow(host, fs, Next(host, q, Last(p)))
  }

  /** The entry a path names: links on the way are followed, one at its end is not. */
  function Spot(host: Host, fs: Folder, p: Path): Option<Path> {
    if p == [] || Last(p) == ".." then None
    else
      match Place(host, fs, Parent(p))
      case None => None
      case Some(q) => Some(Next(host, q, Last(p)))
  }

  /** The path leads to a folder that may be searched. */
  predicate Passed(host: Host, fs: Folder, p: Path) {
    match Place(host, fs, p)
    case None => false
    case Some(q) => q == [] || SearchableAt(fs, q)
  }

  predicate Passable(host: Host, fs: Folder, p: Path) {
    forall n {:trigger Passed(host, fs, p[..n])} | 0 <= n < |p| :: Passed(host, fs, p[..n])
  }

  predicate CanAdd(host: Host, fs: Folder, p: Path) {
    && Passable(host, fs, p)
    && Spot(host, fs, p).Some? && Spot(host, fs, p).value != []
    && var q := Place(host, fs, Parent(p)).value;
       q == [] || (FolderAt(fs, q) && Writable(fs[q].mode))
  }

  /** On its way or at its end, the path meets a link. */
  predicate ThroughLink(host: Host, fs: Folder, p: Path) {
    exists n {:trigger LinkAt(fs, Plain(host, p[..n]))} | 0 < n <= |p| :: LinkAt(fs, Plain(host, p[..n]))
  }

  /** The path leads to something below the save folder. */
  predicate Safe(host: Host, fs: Folder, p: Path) {
    match Place(host, fs, p)
    case None => false
    case Some(q) => q != [] && q[0] != ".."
  }

  // ----- What is done at the place -----

  predicate IsFolder(host: Host, fs: Folder, p: Path) {
    Passable(host, fs, p) && Place(host, fs, p).Some?
    && (Place(host, fs, p).value == [] || FolderAt(fs, Place(host, fs, p).value))
  }

  function MakeDir(host: Host, fs: Folder, p: Path): Option<Folder> {
    if IsFolder(host, fs, p) then Some(fs)
    else if CanAdd(host, fs, p) && Spot(host, fs, p).value !in fs
    then Some(fs[Spot(host, fs, p).value := FsDir(host.dirMode)])
    else None
  }

  /** Creates a folder and what is missing of its parents. */
  function MakeDirs(host: Host, fs: Folder, p: Path): Option<Folder>
    decreases |p|
  {
    if p == [] || IsFolder(host, fs, p) then Some(fs)
    else
      match MakeDirs(host, fs, Parent(p))
      case None => None
      case Some(fs') => MakeDir(host, fs', p)
  }

  /** A link is made under a temporary name and moved over what is there, unless that is a folder. */
  function MakeLink(host: Host, fs: Folder, p: Path, target: string): Option<Folder> {
    if CanAdd(host, fs, p) && !FolderAt(fs, Spot(host, fs, p).value)
    then Some(fs[Spot(host, fs, p).value := FsLink(target)])
    else None
  }

  function CreateFile(host: Host, fs: Folder, p: Path): Option<Folder> {
    if CanAdd(host, fs, p) && Spot(host, fs, p).value !in fs
    then Some(fs[Spot(host, fs, p).value := FsFile([], host.fileMode)])
    else None
  }

  /** Writing to the open file; what its name has been given to since does not change. */
  function Append(host: Host, fs: Folder, p: Path, data: Bytes): Option<Folder> {
    match Spot(host, fs, p)
    case None => Some(fs)
    case Some(q) => if q in fs && fs[q].FsFile? then Some(fs[q := FsFile(fs[q].bytes + data, fs[q].mode)]) else Some(fs)
  }

  function WithMode(e: FsEntry, mode: nat): FsEntry {
    match e
    case FsDir(_) => FsDir(mode)
    case FsFile(bytes, _) => FsFile(bytes, mode)
    case FsLink(_) => e
  }

  /** chmod follows links, also one at the end. */
  function ChangeMode(host: Host, fs: Folder, p: Path, mode: nat): Option<Folder> {
    if !Passable(host, fs, p) then None
    else
      match Place(host, fs, p)
      case None => None
      case Some(q) => if q in fs && !fs[q].FsLink? then Some(fs[q := WithMode(fs[q], mode)]) else None
  }

  function Operations(host: Host): Fs<Folder> {
    Fs((fs, p) => Safe(host, fs, p),
       (fs, p) => ThroughLink(host, fs, p),
       (fs, p) => MakeDirs(host, fs, p),
       (fs, p, target) => MakeLink(host, fs, p, target),
       (fs, p) => CreateFile(host, fs, p),
       (fs, p, data) => Append(host, fs, p, data),
       (fs, p, mode) => ChangeMode(host, fs, p, mode),
       (fs, p) => host.removeAny(fs, p))
  }

  // ----- Paths of ordinary names that meet no link -----

  /** Every folder on the way to the path is there and may be searched. */
  predicate Reachable(fs: Folder, p: Path) {
    forall n {:trigger SearchableAt(fs, p[..n])} | 0 < n < |p| :: SearchableAt(fs, p[..n])
  }

  predicate Ordinary(p: Path) { ".." !in p }

  lemma {:induction false} OrdinaryIsPlain(host: Host, p: Path)
    requires Ordinary(p)
    ensures Plain(host, p) == p
    decreases |p|
  {
    if p != [] {
      assert p == Parent(p) + [Last(p)];
      OrdinaryIsPlain(host, Parent(p));
      assert p != [] && Last(p) in p && (Parent(p) != [] ==> Last(Parent(p)) in p);
    }
  }

  /** A path that meets no link leads to the place it names. */
  lemma {:induction false} PlaceIsPlain(host: Host, fs: Folder, p: Path)
    requires forall n {:trigger LinkAt(fs, Plain(host, p[..n]))} | 0 < n <= |p| :: !LinkAt(fs, Plain(host, p[..n]))
    ensures Place(host, fs, p) == Some(Plain(host, p))
    decreases |p|
  {
    if p != [] {
      var up := Parent(p);
      forall n {:trigger LinkAt(fs, Plain(host, up[..n]))} | 0 < n <= |up| ensures !LinkAt(fs, Plain(host, up[..n])) {
        assert up[..n] == p[..n];
      }
      PlaceIsPlain(host, fs, up);
      assert p[..|p|] == p && !LinkAt(fs, Plain(host, p[..|p|]));
    }
  }

  /** The parts of a path of ordinary names with folders on its way. */
  lemma OrdinaryWay(host: Host, fs: Folder, p: Path, n: nat)
    requires Ordinary(p) && Reachable(fs, p) && n < |p|
    ensures Place(host, fs, p[..n]) == Some(p[..n]) && Passed(host, fs, p[..n])
  {
    var up := p[..n];
    forall k {:trigger LinkAt(fs, Plain(host, up[..k]))} | 0 < k <= n ensures !LinkAt(fs, Plain(host, up[..k])) {
      assert up[..k] == p[..k] && SearchableAt(fs, p[..k]);
      OrdinaryIsPlain(host, up[..k]);
    }
    PlaceIsPlain(host, fs, up);
    OrdinaryIsPlain(host, up);
    assert n > 0 ==> SearchableAt(fs, p[..n]);
  }

  lemma OrdinarySpot(host: Host, fs: Folder, p: Path)
    requires p != [] && Ordinary(p) && Reachable(fs, p)
    ensures Passable(host, fs, p) && Place(host, fs, Parent(p)) == Some(Parent(p)) && Spot(host, fs, p) == Some(p)
    ensures !LinkAt(fs, p) ==> Place(host, fs, p) == Some(p)
  {
    forall n {:trigger Passed(host, fs, p[..n])} | 0 <= n < |p| ensures Passed(host, fs, p[..n]) {
      OrdinaryWay(host, fs, p, n);
    }
    OrdinaryWay(host, fs, p, |p| - 1);
    assert p == Parent(p) + [Last(p)];
    assert Last(p) in p && (Parent(p) != [] ==> Last(Parent(p)) in p);
  }

  /** An ordinary path at which something can be added. */
  predicate OrdinaryHole(fs: Folder, p: Path) {
    && p != [] && Ordinary(p) && Reachable(fs, p) && p !in fs
    && (|p| > 1 ==> FolderAt(fs, Parent(p)) && Writable(fs[Parent(p)].mode))
  }

  lemma OrdinaryAdds(host: Host, fs: Folder, p: Path)
    requires OrdinaryHole(fs, p)
    ensures Safe(host, fs, p)
    ensures MakeDirs(host, fs, p) == Some(fs[p := FsDir(host.dirMode)])
    ensures forall target :: MakeLink(host, fs, p, target) == Some(fs[p := FsLink(target)])
    ensures CreateFile(host, fs, p) == Some(fs[p := FsFile([], host.fileMode)])
  {
    OrdinarySpot(host, fs, p);
    assert p[0] in p;
    if |p| > 1 {
      var up := Parent(p);
      forall n {:trigger SearchableAt(fs, up[..n])} | 0 < n < |up| ensures SearchableAt(fs, up[..n]) {
        assert up[..n] == p[..n] && SearchableAt(fs, p[..n]);
      }
      OrdinarySpot(host, fs, up);
      assert IsFolder(host, fs, up);
    }
  }

  lemma OrdinaryChanges(host: Host, fs: Folder, p: Path)
    requires p != [] && Ordinary(p) && Reachable(fs, p) && p in fs && !fs[p].FsLink?
    ensures forall mode: nat :: ChangeMode(host, fs, p, mode) == Some(fs[p := WithMode(fs[p], mode)])
    ensures fs[p].FsFile? ==>
              forall data :: Append(host, fs, p, data) == Some(fs[p := FsFile(fs[p].bytes + data, fs[p].mode)])
  {
    OrdinarySpot(host, fs, p);
  }

  // ----- Removing -----

  predicate Holds(fs: Folder, p: Path, q: Path) { q in fs && q != [] && Parent(q) == p }

  /** Nothing stands in the way of emptying and removing this entry itself. */
  predicate Clearable(fs: Folder, p: Path)
    requires p in fs
  {
    fs[p].FsDir? ==>
      && Readable(fs[p].mode)
      && ((exists q {:trigger Holds(fs, p, q)} | q in fs :: Holds(fs, p, q)) ==>
            Searchable(fs[p].mode) && Writable(fs[p].mode))
  }

  /** Every folder at or below the path can be listed, and changed if it holds something. */
  predicate Removable(fs: Folder, p: Path) {
    forall q | q in fs && p <= q :: Clearable(fs, q)
  }

  /** An obstacle stays, with the folders on the way to it and all it holds. */
  ghost predicate Stays(fs: Folder, p: Path, fs': Folder, q: Path) {
    && (forall n {:trigger q[..n]} | |p| <= n <= |q| && q[..n] in fs :: q[..n] in fs')
    && (forall r | Holds(fs, q, r) :: r in fs')
  }

  /**
    What removal may leave. It ends at the first thing it cannot remove, and the
    order in which it goes about it is not known: all of it goes if nothing
    stands in the way; otherwise what does stays, with what it holds; anything
    else below the path may or may not be gone.
   */
  ghost predicate Removes(fs: Folder, p: Path, fs': Folder) {
    && (forall q | q in fs' :: q in fs && fs'[q] == fs[q])
    && (forall q | q in fs && !(p <= q) :: q in fs')
    && (Removable(fs, p) ==> forall q | q in fs' :: !(p <= q))
    && (forall q | q in fs && p <= q && fs[q].FsDir? && !Clearable(fs, q) :: Stays(fs, p, fs', q))
  }

  ghost predicate RemovesAsItCan(host: Host) {
    forall fs, p | p != [] && p[0] != ".." :: Removes(fs, p, host.removeAny(fs, p))
  }

  /** The most pessimistic machine. */
  function RemoveOrLeave(fs: Folder, p: Path): Folder {
    if Removable(fs, p) then map q | q in fs && !(p <= q) :: fs[q] else fs
  }

  /** There are such machines. */
  lemma SomeHost(host: Host)
    ensures RemovesAsItCan(host.(removeAny := RemoveOrLeave))
  {
  }

  /** What any file system satisfies: entries lie in folders. */
  predicate Rooted(fs: Folder) {
    forall q | q in fs && |q| > 1 :: Parent(q) in fs && fs[Parent(q)].FsDir?
  }

  lemma {:induction false} RootedWay(fs: Folder, q: Path, n: nat)
    requires Rooted(fs) && q in fs && 0 < n < |q|
    ensures q[..n] in fs && fs[q[..n]].FsDir?
    decreases |q|
  {
    if n < |q| - 1 {
      RootedWay(fs, Parent(q), n);
      assert Parent(q)[..n] == q[..n];
    }
  }

  // ----- A folder stays a folder -----

  lemma ChmodKeepsFolder(host: Host, st: State<Folder>, p: Path, mode: nat, q: Path)
    requires FolderAt(st.fs, q)
    ensures FolderAt(ApplyChmod(Operations(host), st, p, mode).fs, q)
  {
  }

  lemma {:induction false} MakeDirsKeepsFolder(host: Host, fs: Folder, p: Path, q: Path)
    requires FolderAt(fs, q) && MakeDirs(host, fs, p).Some?
    ensures FolderAt(MakeDirs(host, fs, p).value, q)
    decreases |p|
  {
    if p != [] && !IsFolder(host, fs, p) {
      MakeDirsKeepsFolder(host, fs, Parent(p), q);
    }
  }

  lemma CloseKeepsFolder(host: Host, cfg: Config, st: State<Folder>, q: Path)
    requires FolderAt(st.fs, q)
    ensures FolderAt(Close(Operations(host), cfg, st).fs, q)
  {
    if st.current.Some? {
      ChmodKeepsFolder(host, st, st.current.value.path, st.current.value.mode, q);
    }
  }

  lemma FillKeepsFolder(host: Host, st: State<Folder>, c: Current, chunk: Chunk, q: Path)
    requires FolderAt(st.fs, q)
    ensures FolderAt(Fill(Operations(host), st, c, chunk).st.fs, q)
  {
    if chunk.fileType == Directory && MakeDirs(host, st.fs, c.path).Some? {
      MakeDirsKeepsFolder(host, st.fs, c.path, q);
    }
  }

  lemma {:induction false} StreamKeepsFolder(host: Host, cfg: Config, st: State<Folder>, stream: seq<Option<Chunk>>,
                                             q: Path)
    requires FolderAt(st.fs, q)
    ensures FolderAt(ReceiveAll(Operations(host), cfg, st, stream).st.fs, q)
    decreases |stream|
  {
    if stream != [] && stream[0].Some? {
      var chunk := stream[0].value;
      CloseKeepsFolder(host, cfg, st, q);
      var isNew := st.current.None? || st.current.value.path != chunk.path;
      var st1 := if isNew
                 then Close(Operations(host), cfg, st)
                        .(current := Some(Current(chunk.path, chunk.fileType, chunk.mode, false, false)))
                 else st;
      var c := st1.current.value.(hasFile := true);
      FillKeepsFolder(host, st1.(current := Some(c)), c, chunk, q);
      var step := Receive(Operations(host), cfg, st, chunk);
      assert FolderAt(step.st.fs, q);
      StreamKeepsFolder(host, cfg, step.st, stream[1..], q);
    }
  }

  lemma {:induction false} PassKeepsFolder(host: Host, st: State<Folder>, q: Path)
    requires FolderAt(st.fs, q)
    ensures FolderAt(ApplyFolderPermissions(Operations(host), st).fs, q)
    decreases |st.perms|
  {
    if st.perms != [] {
      var last := |st.perms| - 1;
      var popped := st.(perms := st.perms[..last]);
      ChmodKeepsFolder(host, popped, st.perms[last].0, st.perms[last].1, q);
      PassKeepsFolder(host, ApplyChmod(Operations(host), popped, st.perms[last].0, st.perms[last].1), q);
    }
  }
}
