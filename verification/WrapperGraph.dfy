/**
  Python wrappers of protobuf messages. A wrapper is a stub, which owns a
  reference to its parent and is entered in the parent's table of unset
  submessages, or reified, which points at data and is entered in the object
  cache. Addresses are explicit, so sharing, dangling and deallocation are
  visible; `outside` accounts for the references not owned by a stub.
 */
module WrapperGraph {
  import opened Options
  import opened Collections
  import opened MessageForest

  type Ref = int

  datatype Link =
    | Stub(field: Field, parent: Ref)
    | Reified(msg: Ptr)

  datatype Wrapper = Wrapper(refcnt: nat, link: Link, unset: map<Field, Ref>, version: nat)

  type Wrappers = map<Ref, Wrapper>

  datatype State = State(
    ws: Wrappers, ms: Arena, cache: map<Ptr, Ref>, outside: map<Ref, nat>,
    nextRef: Ref, nextPtr: Ptr)

  datatype Entry = Entry(parent: Ref, field: Field, child: Ref)

  /**
    Where the invariant may be suspended in the middle of an operation: table
    entries whose child is already reified, wrappers whose unset fields may have
    become present, and wrappers whose count has reached zero.
   */
  datatype Gap = Gap(holes: set<Entry>, broken: set<Ref>, dying: set<Ref>)

  const NO_GAP := Gap({}, {}, {})

  // ----- The invariant -----

  ghost predicate RegisteredAt(ws: Wrappers, w: Ref)
    requires w in ws && ws[w].link.Stub?
  {
    var Stub(f, p) := ws[w].link;
    0 <= p < w && p in ws && f in ws[p].unset && ws[p].unset[f] == w
  }

  ghost predicate EntryOk(ws: Wrappers, p: Ref, f: Field, holes: set<Entry>)
    requires p in ws && f in ws[p].unset
  {
    var c := ws[p].unset[f];
    && c in ws
    && if Entry(p, f, c) in holes then ws[c].link.Reified? && 0 <= p < c else ws[c].link == Stub(f, p)
  }

  /**
    A stub is entered in its parent's table under its field, and every entry of
    its own table is a stub of it; a reified wrapper is the cached one of its
    message, and none of the fields in its table is set; the count is the
    outside references plus the registered stubs, and is positive.
   */
  ghost predicate WrapperOk(s: State, w: Ref, gap: Gap)
    requires w in s.ws
  {
    var Wrapper(refcnt, link, unset, _) := s.ws[w];
    && 0 <= w < s.nextRef
    && (link.Stub? ==> RegisteredAt(s.ws, w))
    && (forall f | f in unset :: EntryOk(s.ws, w, f, gap.holes))
    && (link.Reified? ==>
          && link.msg in s.ms && link.msg in s.cache && s.cache[link.msg] == w
          && (w !in gap.broken ==> unset.Keys !! s.ms[link.msg].subs.Keys))
    && w in s.outside
    && refcnt == s.outside[w] + |unset|
    && (w !in gap.dying ==> refcnt > 0)
  }

  ghost predicate CacheEntryOk(s: State, m: Ptr)
    requires m in s.cache
  {
    s.cache[m] in s.ws && s.ws[s.cache[m]].link == Reified(m)
  }

  ghost predicate HoleOk(s: State, e: Entry) {
    && e.parent in s.ws && e.field in s.ws[e.parent].unset && s.ws[e.parent].unset[e.field] == e.child
    && e.child in s.ws && s.ws[e.child].link.Reified?
  }

  ghost predicate Core(s: State, gap: Gap) {
    && (forall w {:trigger WrapperOk(s, w, gap)} | w in s.ws :: WrapperOk(s, w, gap))
    && (forall m {:trigger CacheEntryOk(s, m)} | m in s.cache :: CacheEntryOk(s, m))
    && (forall e {:trigger HoleOk(s, e)} | e in gap.holes :: HoleOk(s, e))
    && s.outside.Keys == s.ws.Keys
    && (forall m | m in s.ms :: m < s.nextPtr)
    && 0 <= s.nextRef
  }

  ghost predicate Invariant(s: State) {
    Core(s, NO_GAP) && Forest(s.ms)
  }

  ghost predicate KeptAt(s: State, s': State, u: Ref)
    requires u in s'.ws
  {
    && u in s.ws && s'.ws[u].link == s.ws[u].link && s'.ws[u].version == s.ws[u].version
    && u in s.outside && u in s'.outside && s'.outside[u] == s.outside[u]
  }

  /** What giving up references may do: wrappers go, nothing else changes. */
  ghost predicate Kept(s: State, s': State) {
    && (forall u {:trigger KeptAt(s, s', u)} | u in s'.ws :: KeptAt(s, s', u))
    && (forall u | u in s.ws && u in s.outside && s.outside[u] > 0 :: u in s'.ws)
    && s'.ms == s.ms && s'.nextRef == s.nextRef && s'.nextPtr == s.nextPtr
  }

  // ----- Reference counting -----

  ghost function Recount(s: State, w: Ref, delta: int): State
    requires w in s.ws && w in s.outside
    requires s.ws[w].refcnt + delta >= 0 && s.outside[w] + delta >= 0
  {
    s.(ws := s.ws[w := s.ws[w].(refcnt := s.ws[w].refcnt + delta)],
       outside := s.outside[w := s.outside[w] + delta])
  }

  lemma RecountAt(s: State, w: Ref, delta: int, gap: Gap, gap': Gap, u: Ref)
    requires Core(s, gap) && w in s.ws && w in s.outside && u in s.ws
    requires s.ws[w].refcnt + delta >= 0 && s.outside[w] + delta >= 0
    requires gap'.holes == gap.holes && gap'.broken == gap.broken && gap.dying == {}
    requires s.ws[w].refcnt + delta == 0 ==> w in gap'.dying
    ensures WrapperOk(Recount(s, w, delta), u, gap')
  {
    var s' := Recount(s, w, delta);
    assert WrapperOk(s, u, gap);
    if s.ws[u].link.Stub? { assert RegisteredAt(s.ws, u) && RegisteredAt(s'.ws, u); }
    forall f | f in s'.ws[u].unset ensures EntryOk(s'.ws, u, f, gap.holes) {
      assert EntryOk(s.ws, u, f, gap.holes);
    }
  }

  lemma RecountOk(s: State, w: Ref, delta: int, gap: Gap)
    requires Core(s, gap) && gap.dying == {} && w in s.ws && w in s.outside
    requires s.ws[w].refcnt + delta >= 0 && s.outside[w] + delta >= 0
    ensures Core(Recount(s, w, delta), gap.(dying := if s.ws[w].refcnt + delta == 0 then {w} else {}))
  {
    var s' := Recount(s, w, delta);
    var gap' := gap.(dying := if s.ws[w].refcnt + delta == 0 then {w} else {});
    forall u | u in s'.ws ensures WrapperOk(s', u, gap') {
      RecountAt(s, w, delta, gap, gap', u);
    }
    forall e | e in gap.holes ensures HoleOk(s', e) {
      assert HoleOk(s, e);
    }
    forall m | m in s'.cache ensures CacheEntryOk(s', m) {
      assert CacheEntryOk(s, m);
    }
  }

  /** A dying stub: its parent's table forgets it and its reference is let go. */
  ghost function Unlist(s: State, w: Ref): State
    requires w in s.ws && s.ws[w].link.Stub? && s.ws[w].link.parent in s.ws && s.ws[w].link.parent in s.outside
  {
    var Stub(f, p) := s.ws[w].link;
    s.(ws := s.ws[p := s.ws[p].(unset := s.ws[p].unset - {f})] - {w},
       outside := s.outside[p := s.outside[p] + 1] - {w})
  }

  lemma UnlistAt(s: State, w: Ref, gap: Gap, u: Ref)
    requires Core(s, gap) && gap.holes == {} && gap.dying == {w}
    requires w in s.ws && s.ws[w].link.Stub? && s.ws[w].refcnt == 0
    requires s.ws[w].link.parent in s.ws && s.ws[w].link.parent in s.outside && RegisteredAt(s.ws, w)
    requires u in s.ws && u != w
    ensures WrapperOk(Unlist(s, w), u, gap.(dying := {}))
  {
    var Stub(f, p) := s.ws[w].link;
    var s' := Unlist(s, w);
    assert WrapperOk(s, u, gap);
    if u == p {
      assert s'.ws[u].unset.Keys == s.ws[u].unset.Keys - {f};
    } else {
      assert s'.ws[u] == s.ws[u];
    }
    UnlistLinks(s, w, gap, u);
  }

  lemma UnlistLinks(s: State, w: Ref, gap: Gap, u: Ref)
    requires Core(s, gap) && gap.holes == {} && gap.dying == {w}
    requires w in s.ws && s.ws[w].link.Stub? && s.ws[w].refcnt == 0
    requires s.ws[w].link.parent in s.ws && s.ws[w].link.parent in s.outside && RegisteredAt(s.ws, w)
    requires u in s.ws && u != w
    ensures s.ws[u].link.Stub? ==> RegisteredAt(Unlist(s, w).ws, u)
    ensures forall g | g in Unlist(s, w).ws[u].unset :: EntryOk(Unlist(s, w).ws, u, g, {})
  {
    var s' := Unlist(s, w);
    assert WrapperOk(s, u, gap) && WrapperOk(s, w, gap);
    if s.ws[u].link.Stub? {
      assert s.ws[w].unset == map[];
      assert RegisteredAt(s.ws, u);
    }
    forall g | g in s'.ws[u].unset ensures EntryOk(s'.ws, u, g, {}) {
      assert EntryOk(s.ws, u, g, {});
    }
  }

  lemma UnlistKeepsCore(s: State, w: Ref, gap: Gap)
    requires Core(s, gap) && gap.holes == {} && gap.dying == {w}
    requires w in s.ws && s.ws[w].link.Stub? && s.ws[w].refcnt == 0
    ensures s.ws[w].link.parent in s.ws && s.ws[w].link.parent in s.outside
    ensures 0 <= s.ws[w].link.parent < w && w in s.outside && s.outside[w] == 0
    ensures Core(Unlist(s, w), gap.(dying := {}))
  {
    assert WrapperOk(s, w, gap) && RegisteredAt(s.ws, w);
    var s' := Unlist(s, w);
    forall u | u in s'.ws ensures WrapperOk(s', u, gap.(dying := {})) {
      UnlistAt(s, w, gap, u);
    }
    forall m | m in s'.cache ensures CacheEntryOk(s', m) {
      assert CacheEntryOk(s, m);
    }
  }

  lemma UnlistThenKept(s: State, w: Ref, s': State)
    requires w in s.ws && s.ws[w].link.Stub? && w in s.outside && s.outside[w] == 0
    requires s.ws[w].link.parent in s.ws && s.ws[w].link.parent in s.outside && s.ws[w].link.parent != w
    requires s.ws[w].link.parent in Unlist(s, w).ws && s.ws[s.ws[w].link.parent].refcnt > 0
    requires Kept(Recount(Unlist(s, w), s.ws[w].link.parent, -1), s')
    ensures Kept(s, s') && w !in s'.ws
  {
    var t := Recount(Unlist(s, w), s.ws[w].link.parent, -1);
    forall u | u in s'.ws ensures u != w && KeptAt(s, s', u) {
      assert KeptAt(t, s', u);
    }
  }

  /** A dying reified wrapper: the cache forgets it; its data stays. */
  ghost function Uncache(s: State, w: Ref): State
    requires w in s.ws && s.ws[w].link.Reified?
  {
    s.(ws := s.ws - {w}, cache := s.cache - {s.ws[w].link.msg}, outside := s.outside - {w})
  }

  lemma UncacheKeepsCore(s: State, w: Ref, gap: Gap)
    requires Core(s, gap) && gap.dying == {w}
    requires w in s.ws && s.ws[w].link.Reified? && s.ws[w].refcnt == 0
    requires forall e | e in gap.holes :: e.child != w
    ensures w in s.outside && s.outside[w] == 0
    ensures Core(Uncache(s, w), gap.(dying := {}))
  {
    assert WrapperOk(s, w, gap);
    var s', gap' := Uncache(s, w), gap.(dying := {});
    assert s.ws[w].unset == map[];
    forall u | u in s'.ws ensures WrapperOk(s', u, gap') {
      assert WrapperOk(s, u, gap);
      if s.ws[u].link.Stub? { assert RegisteredAt(s.ws, u); }
      forall g | g in s'.ws[u].unset ensures EntryOk(s'.ws, u, g, gap.holes) {
        assert EntryOk(s.ws, u, g, gap.holes);
      }
    }
    forall e | e in gap.holes ensures HoleOk(s', e) {
      assert HoleOk(s, e);
    }
    forall m | m in s'.cache ensures CacheEntryOk(s', m) {
      assert CacheEntryOk(s, m);
    }
  }

  // ----- Becoming reified -----

  /** The stub w gets an empty message of its own. */
  ghost function Allot(s: State, w: Ref): State
    requires w in s.ws
  {
    s.(ws := s.ws[w := s.ws[w].(link := Reified(s.nextPtr))],
       ms := s.ms[s.nextPtr := EMPTY],
       cache := s.cache[s.nextPtr := w],
       nextPtr := s.nextPtr + 1)
  }

  lemma AllotAt(s: State, w: Ref, gap: Gap, u: Ref)
    requires Core(s, gap) && w in s.ws && s.ws[w].link.Stub? && u in s.ws
    ensures WrapperOk(Allot(s, w), u, gap.(holes := gap.holes + {Entry(s.ws[w].link.parent, s.ws[w].link.field, w)}))
  {
    var s' := Allot(s, w);
    var Stub(f, p) := s.ws[w].link;
    var holes' := gap.holes + {Entry(p, f, w)};
    assert WrapperOk(s, u, gap) && WrapperOk(s, w, gap);
    assert RegisteredAt(s.ws, w);
    if s.ws[u].link.Stub? && u != w { assert RegisteredAt(s'.ws, u); }
    forall g | g in s'.ws[u].unset ensures EntryOk(s'.ws, u, g, holes') {
      assert EntryOk(s.ws, u, g, gap.holes);
      if Entry(u, g, s.ws[u].unset[g]) in gap.holes {
        assert HoleOk(s, Entry(u, g, s.ws[u].unset[g]));
      }
    }
    if s.ws[u].link.Reified? { assert s.ws[u].link.msg < s.nextPtr; }
  }

  lemma AllotKeepsCore(s: State, w: Ref, gap: Gap)
    requires Core(s, gap) && w in s.ws && s.ws[w].link.Stub?
    ensures Core(Allot(s, w), gap.(holes := gap.holes + {Entry(s.ws[w].link.parent, s.ws[w].link.field, w)}))
  {
    var s' := Allot(s, w);
    var Stub(f, p) := s.ws[w].link;
    var gap' := gap.(holes := gap.holes + {Entry(p, f, w)});
    forall u | u in s'.ws ensures WrapperOk(s', u, gap') {
      AllotAt(s, w, gap, u);
    }
    forall e | e in gap'.holes ensures HoleOk(s', e) {
      assert WrapperOk(s, w, gap) && RegisteredAt(s.ws, w);
      assert e in gap.holes ==> HoleOk(s, e);
    }
    forall m | m in s'.cache ensures CacheEntryOk(s', m) {
      assert m != s.nextPtr ==> CacheEntryOk(s, m);
    }
  }

  /** The data of a reified child is set as a field of its reified parent. */
  ghost function Attach(s: State, e: Entry): State
    requires e.parent in s.ws && s.ws[e.parent].link.Reified? && s.ws[e.parent].link.msg in s.ms
    requires e.child in s.ws && s.ws[e.child].link.Reified? && e.parent in s.outside
  {
    var m := s.ws[e.parent].link.msg;
    s.(ws := s.ws[e.parent := s.ws[e.parent].(unset := s.ws[e.parent].unset - {e.field})],
       ms := s.ms[m := s.ms[m].(subs := s.ms[m].subs[e.field := s.ws[e.child].link.msg])],
       outside := s.outside[e.parent := s.outside[e.parent] + 1])
  }

  lemma AttachAt(s: State, e: Entry, gap: Gap, u: Ref)
    requires Core(s, gap) && e in gap.holes && HoleOk(s, e) && s.ws[e.parent].link.Reified?
    requires WrapperOk(s, e.parent, gap) && u in s.ws
    ensures WrapperOk(Attach(s, e), u, gap.(holes := gap.holes - {e}))
  {
    var s' := Attach(s, e);
    var p := e.parent;
    assert WrapperOk(s, u, gap);
    if u == p { assert s'.ws[u].unset.Keys == s.ws[u].unset.Keys - {e.field}; }
    if s.ws[u].link.Stub? {
      assert RegisteredAt(s.ws, u);
      assert RegisteredAt(s'.ws, u);
    }
    forall g | g in s'.ws[u].unset ensures EntryOk(s'.ws, u, g, gap.holes - {e}) {
      assert EntryOk(s.ws, u, g, gap.holes);
    }
  }

  lemma AttachKeepsCore(s: State, e: Entry, gap: Gap)
    requires Core(s, gap) && e in gap.holes && e.parent in s.ws && s.ws[e.parent].link.Reified?
    requires forall e' | e' in gap.holes && e' != e :: e'.parent != e.parent
    ensures s.ws[e.parent].link.msg in s.ms && e.child in s.ws && s.ws[e.child].link.Reified?
    ensures e.parent in s.outside
    ensures Core(Attach(s, e), gap.(holes := gap.holes - {e}))
  {
    assert HoleOk(s, e) && WrapperOk(s, e.parent, gap);
    var s' := Attach(s, e);
    var gap' := gap.(holes := gap.holes - {e});
    forall u | u in s'.ws ensures WrapperOk(s', u, gap') {
      AttachAt(s, e, gap, u);
    }
    forall e' | e' in gap'.holes ensures HoleOk(s', e') {
      assert HoleOk(s, e');
    }
    forall m | m in s'.cache ensures CacheEntryOk(s', m) {
      assert CacheEntryOk(s, m);
    }
  }

  // ----- Climbing from a stub to its nearest reified ancestor -----

  /** The wrappers from the nearest reified ancestor of w down to w. */
  ghost function Ancestry(s: State, w: Ref): (refs: seq<Ref>)
    requires Core(s, NO_GAP) && w in s.ws
    ensures refs != [] && refs[|refs| - 1] == w
    decreases if w < 0 then 0 else w
  {
    assert WrapperOk(s, w, NO_GAP);
    if s.ws[w].link.Reified? then [w]
    else
      assert RegisteredAt(s.ws, w);
      Ancestry(s, s.ws[w].link.parent) + [w]
  }

  /** The fields that lead from the nearest reified ancestor of w to w. */
  ghost function PathOf(s: State, w: Ref): (path: Path)
    requires Core(s, NO_GAP) && w in s.ws
    ensures |path| + 1 == |Ancestry(s, w)|
    decreases if w < 0 then 0 else w
  {
    assert WrapperOk(s, w, NO_GAP);
    if s.ws[w].link.Reified? then []
    else
      assert RegisteredAt(s.ws, w);
      PathOf(s, s.ws[w].link.parent) + [s.ws[w].link.field]
  }

  ghost predicate LinkAt(s: State, refs: seq<Ref>, path: Path, i: nat)
    requires i < |refs| == |path| + 1
  {
    && refs[i] in s.ws
    && (i > 0 ==> s.ws[refs[i]].link == Stub(path[i - 1], refs[i - 1]))
  }

  ghost predicate IsChain(s: State, refs: seq<Ref>, path: Path) {
    && |refs| == |path| + 1
    && refs[0] in s.ws && s.ws[refs[0]].link.Reified? && s.ws[refs[0]].link.msg in s.ms
    && (forall i {:trigger LinkAt(s, refs, path, i)} | 0 <= i < |refs| :: LinkAt(s, refs, path, i))
    && (forall i, j | 0 <= i < j < |refs| :: refs[i] < refs[j])
  }

  /** Parent chains are acyclic, end at a reified wrapper, and lead down a path that is not set. */
  lemma {:induction false} ChainsEndReified(s: State, w: Ref)
    requires Core(s, NO_GAP) && w in s.ws
    ensures IsChain(s, Ancestry(s, w), PathOf(s, w))
    ensures PathOf(s, w) != [] ==> PathOf(s, w)[0] !in s.ms[s.ws[Ancestry(s, w)[0]].link.msg].subs
    decreases if w < 0 then 0 else w
  {
    assert WrapperOk(s, w, NO_GAP);
    if s.ws[w].link.Stub? {
      var p := s.ws[w].link.parent;
      assert RegisteredAt(s.ws, w) && WrapperOk(s, p, NO_GAP);
      ChainsEndReified(s, p);
      var refs, path := Ancestry(s, w), PathOf(s, w);
      forall i: nat | i < |refs| ensures LinkAt(s, refs, path, i) {
        if i < |refs| - 1 { assert LinkAt(s, Ancestry(s, p), PathOf(s, p), i); }
      }
    }
  }

  /** The data of the nearest reified ancestor of w. */
  ghost function Anchor(s: State, w: Ref): (a: Ptr)
    requires Core(s, NO_GAP) && w in s.ws
    ensures a in s.ms
  {
    ChainsEndReified(s, w);
    s.ws[Ancestry(s, w)[0]].link.msg
  }

  ghost predicate ClimbAt(s0: State, s: State, refs: seq<Ref>, path: Path, j: nat, u: Ref)
    requires 0 <= j < |refs| && u in s.ws
  {
    && u in s0.ws && u in s0.outside && u in s.outside
    && s.ws[u].version == s0.ws[u].version
    && s.outside[u] == s0.outside[u] + (if u == refs[j] then 1 else 0)
    && (u !in refs[j..] || u == refs[0] ==> s.ws[u].link == s0.ws[u].link)
    && (forall i | j <= i < |refs| && 0 < i && u == refs[i] :: s.ws[u].link == Reified(s0.nextPtr + |path| - i))
  }

  ghost predicate ClimbedData(s0: State, s: State, refs: seq<Ref>, path: Path, j: nat)
    requires IsChain(s0, refs, path) && path != [] && j <= |path|
  {
    var base, n := s0.nextPtr, |path|;
    && s.ms == (if j == 0 then Graft(s0.ms, s0.ws[refs[0]].link.msg, path, base)
            else s0.ms + Chain(base, path, n - j + 1))
    && s.nextPtr == base + (if j == 0 then n else n - j + 1)
    && s.nextRef == s0.nextRef
  }

  ghost function ClimbGap(refs: seq<Ref>, path: Path, j: nat): Gap
    requires j <= |path| && |refs| == |path| + 1
  {
    Gap(if j == 0 then {} else {Entry(refs[j - 1], path[j - 1], refs[j])}, {}, {})
  }

  /** All of refs[j..] is reified; refs[j] waits for its parent, unless j is 0. */
  ghost predicate Climbing(s0: State, s: State, refs: seq<Ref>, path: Path, j: nat)
    requires IsChain(s0, refs, path) && path != [] && j <= |path|
  {
    && ClimbedData(s0, s, refs, path, j)
    && Core(s, ClimbGap(refs, path, j))
    && (forall u {:trigger ClimbAt(s0, s, refs, path, j, u)} | u in s.ws :: ClimbAt(s0, s, refs, path, j, u))
    && (forall u | u in s0.ws && u in s0.outside && s0.outside[u] > 0 :: u in s.ws)
    && refs[j] in s.ws
  }

  lemma ClimbStartAt(s0: State, w: Ref, refs: seq<Ref>, path: Path, u: Ref)
    requires Core(s0, NO_GAP) && w in s0.ws && s0.ws[w].link.Stub? && u in s0.ws
    requires IsChain(s0, refs, path) && refs[|path|] == w && path != []
    requires w in s0.outside && s0.outside[w] > 0
    ensures ClimbAt(s0, Recount(Allot(s0, w), w, 1), refs, path, |path|, u)
  {
    assert WrapperOk(s0, u, NO_GAP);
    assert refs[|path|..] == [w];
    assert refs[0] in s0.ws;
  }

  lemma ClimbStart(s0: State, w: Ref, refs: seq<Ref>, path: Path)
    requires Core(s0, NO_GAP) && w in s0.ws && s0.ws[w].link.Stub? && s0.ws[w].refcnt > 0
    requires IsChain(s0, refs, path) && refs[|path|] == w && path != []
    requires w in s0.outside && s0.outside[w] > 0
    ensures w in Allot(s0, w).outside && Climbing(s0, Recount(Allot(s0, w), w, 1), refs, path, |path|)
  {
    var n := |path|;
    assert LinkAt(s0, refs, path, n);
    AllotKeepsCore(s0, w, NO_GAP);
    var s1 := Allot(s0, w);
    assert NO_GAP.holes + {Entry(refs[n - 1], path[n - 1], w)} == ClimbGap(refs, path, n).holes;
    RecountOk(s1, w, 1, ClimbGap(refs, path, n));
    var s := Recount(s1, w, 1);
    forall u | u in s.ws ensures ClimbAt(s0, s, refs, path, n, u) {
      ClimbStartAt(s0, w, refs, path, u);
    }
    assert Chain(s0.nextPtr, path, 1) == map[s0.nextPtr := EMPTY];
  }

  /** The wrapper above the current child, once it has data of its own. */
  ghost function Raise(s: State, parent: Ref): State
    requires parent in s.ws
  {
    if s.ws[parent].link.Stub? then Allot(s, parent) else s
  }

  lemma ClimbLinks(s0: State, s: State, refs: seq<Ref>, path: Path, j: nat)
    requires IsChain(s0, refs, path) && path != [] && 0 < j <= |path| && Climbing(s0, s, refs, path, j)
    ensures refs[j - 1] in s.ws && refs[j] in s.ws && refs[j - 1] in s0.ws
    ensures s.ws[refs[j - 1]].link == s0.ws[refs[j - 1]].link
    ensures s.ws[refs[j - 1]].link.Stub? <==> j > 1
    ensures refs[j - 1] < refs[j]
    ensures s.ws[refs[j]].link == Reified(s0.nextPtr + |path| - j)
    ensures s.ws[refs[j]].refcnt > 0 && refs[j] in s.outside && s.outside[refs[j]] > 0
  {
    var gap := ClimbGap(refs, path, j);
    assert HoleOk(s, Entry(refs[j - 1], path[j - 1], refs[j]));
    assert LinkAt(s0, refs, path, j - 1) && LinkAt(s0, refs, path, j);
    assert ClimbAt(s0, s, refs, path, j, refs[j - 1]) && ClimbAt(s0, s, refs, path, j, refs[j]);
    assert WrapperOk(s, refs[j], gap);
    assert refs[j] == refs[j..][0];
  }

  lemma ClimbRaise(s0: State, s: State, refs: seq<Ref>, path: Path, j: nat)
    requires IsChain(s0, refs, path) && path != [] && 0 < j <= |path| && Climbing(s0, s, refs, path, j)
    requires refs[j - 1] in s.ws && refs[j] in s.ws
    ensures
      var s1 := Raise(s, refs[j - 1]);
      var gap := Gap(ClimbGap(refs, path, j).holes + ClimbGap(refs, path, j - 1).holes, {}, {});
      && Core(s1, gap)
      && s1.ws[refs[j - 1]].link.Reified?
      && s1.ws[refs[j]].link == Reified(s0.nextPtr + |path| - j)
      && refs[j - 1] in s1.outside
  {
    ClimbLinks(s0, s, refs, path, j);
    assert LinkAt(s0, refs, path, j - 1);
    var e := Entry(refs[j - 1], path[j - 1], refs[j]);
    assert WrapperOk(s, refs[j - 1], Gap({e}, {}, {}));
    if j > 1 {
      AllotKeepsCore(s, refs[j - 1], Gap({e}, {}, {}));
    } else {
      assert ClimbGap(refs, path, 1).holes + {} == {e};
    }
  }

  lemma ClimbAttach(s0: State, s: State, refs: seq<Ref>, path: Path, j: nat)
    requires IsChain(s0, refs, path) && path != [] && 0 < j <= |path| && Climbing(s0, s, refs, path, j)
    requires refs[j - 1] in s.ws && refs[j] in s.ws
    ensures
      var e := Entry(refs[j - 1], path[j - 1], refs[j]);
      var s1 := Raise(s, refs[j - 1]);
      && refs[j - 1] in s1.outside && refs[j] in s1.outside
      && s1.ws[refs[j - 1]].link.Reified? && s1.ws[refs[j - 1]].link.msg in s1.ms
      && s1.ws[refs[j]].link.Reified?
      && Core(Attach(s1, e), ClimbGap(refs, path, j - 1))
  {
    ClimbLinks(s0, s, refs, path, j);
    ClimbRaise(s0, s, refs, path, j);
    var e := Entry(refs[j - 1], path[j - 1], refs[j]);
    var next := ClimbGap(refs, path, j - 1).holes;
    AttachKeepsCore(Raise(s, refs[j - 1]), e, Gap({e} + next, {}, {}));
    assert {e} + next - {e} == next;
    assert refs[j] in Raise(s, refs[j - 1]).outside by {
      assert ClimbAt(s0, s, refs, path, j, refs[j]);
    }
  }

  lemma ChainTop(ms: Arena, path: Path, base: Ptr, k: nat)
    requires 0 < k < |path| && forall p | p in ms :: p < base
    ensures
      (ms + Chain(base, path, k))[base + k := EMPTY]
        [base + k := EMPTY.(subs := EMPTY.subs[path[|path| - k] := base + k - 1])]
      == ms + Chain(base, path, k + 1)
  {
    ChainGrows(ms, path, base, k);
    assert EMPTY.(subs := EMPTY.subs[path[|path| - k] := base + k - 1])
           == Message(map[path[|path| - k] := base + k - 1], map[]);
  }

  /** A stub in the middle of the chain: its new message becomes the top of the grown part. */
  lemma RaiseAndAttach(s: State, e: Entry, ms0: Arena, path: Path, base: Ptr, k: nat)
    requires 0 < k < |path| && e.field == path[|path| - k] && forall p | p in ms0 :: p < base
    requires s.ms == ms0 + Chain(base, path, k) && s.nextPtr == base + k
    requires e.parent in s.ws && s.ws[e.parent].link.Stub? && e.child in s.ws && e.parent != e.child
    requires s.ws[e.child].link == Reified(base + k - 1) && e.parent in s.outside
    ensures
      var s1 := Raise(s, e.parent);
      && s1.ws[e.parent].link == Reified(base + k) && base + k in s1.ms && s1.ws[e.child].link.Reified?
      && Attach(s1, e).ms == ms0 + Chain(base, path, k + 1)
      && Attach(s1, e).nextPtr == base + k + 1 && Attach(s1, e).nextRef == s.nextRef
  {
    ChainTop(ms0, path, base, k);
    var s1 := Raise(s, e.parent);
    assert s1.ms == s.ms[base + k := EMPTY] && s1.ms[base + k] == EMPTY;
  }

  /** The reified end of the chain: the grown part is hung below it. */
  lemma AttachLast(s: State, e: Entry, ms0: Arena, path: Path, base: Ptr, a: Ptr)
    requires path != [] && e.field == path[0] && a in ms0 && forall p | p in ms0 :: p < base
    requires s.ms == ms0 + Chain(base, path, |path|)
    requires e.parent in s.ws && s.ws[e.parent].link == Reified(a) && e.child in s.ws
    requires s.ws[e.child].link == Reified(base + |path| - 1) && e.parent in s.outside
    ensures Raise(s, e.parent) == s && a in s.ms && Attach(s, e).ms == Graft(ms0, a, path, base)
    ensures Attach(s, e).nextPtr == s.nextPtr && Attach(s, e).nextRef == s.nextRef
  {
    assert s.ms[a] == ms0[a];
  }

  lemma ClimbData(s0: State, s: State, refs: seq<Ref>, path: Path, j: nat)
    requires IsChain(s0, refs, path) && path != [] && 0 < j <= |path| && ClimbedData(s0, s, refs, path, j)
    requires forall m | m in s0.ms :: m < s0.nextPtr
    requires refs[j - 1] in s.ws && refs[j] in s.ws && refs[j - 1] in s.outside && refs[j - 1] < refs[j]
    requires s.ws[refs[j]].link == Reified(s0.nextPtr + |path| - j)
    requires if j > 1 then s.ws[refs[j - 1]].link.Stub? else s.ws[refs[0]].link == s0.ws[refs[0]].link
    ensures
      var s1 := Raise(s, refs[j - 1]);
      && s1.ws[refs[j - 1]].link.Reified? && s1.ws[refs[j - 1]].link.msg in s1.ms
      && s1.ws[refs[j]].link.Reified?
      && ClimbedData(s0, Attach(s1, Entry(refs[j - 1], path[j - 1], refs[j])), refs, path, j - 1)
  {
    var e := Entry(refs[j - 1], path[j - 1], refs[j]);
    if j == 1 {
      assert LinkAt(s0, refs, path, 0);
      AttachLast(s, e, s0.ms, path, s0.nextPtr, s0.ws[refs[0]].link.msg);
    } else {
      RaiseAndAttach(s, e, s0.ms, path, s0.nextPtr, |path| - j + 1);
    }
  }

  lemma ClimbStepAt(s0: State, s: State, refs: seq<Ref>, path: Path, j: nat, t: State, u: Ref)
    requires IsChain(s0, refs, path) && path != [] && 0 < j <= |path| && Climbing(s0, s, refs, path, j)
    requires refs[j - 1] in s.ws && refs[j] in s.ws
    requires
      var e := Entry(refs[j - 1], path[j - 1], refs[j]);
      var s1 := Raise(s, refs[j - 1]);
      && refs[j - 1] in s1.outside && refs[j] in s1.outside
      && s1.ws[refs[j - 1]].link.Reified? && s1.ws[refs[j - 1]].link.msg in s1.ms
      && s1.ws[refs[j]].link.Reified? && s1.ws[refs[j]].refcnt > 0 && s1.outside[refs[j]] > 0
      && t == Recount(Attach(s1, e), refs[j], -1)
    requires u in t.ws
    ensures ClimbAt(s0, t, refs, path, j - 1, u)
    ensures u in s.ws && (s0.outside[u] > 0 ==> t.outside[u] > 0)
  {
    ClimbLinks(s0, s, refs, path, j);
    assert ClimbAt(s0, s, refs, path, j, u);
    assert refs[j - 1..] == [refs[j - 1]] + refs[j..];
    forall i | j - 1 <= i < |refs| && 0 < i && u == refs[i]
      ensures t.ws[u].link == Reified(s0.nextPtr + |path| - i)
    {
      if i == j - 1 {
        assert Raise(s, refs[j - 1]) == Allot(s, refs[j - 1]);
      } else {
        assert refs[j - 1] < refs[i];
        assert t.ws[u].link == s.ws[u].link;
      }
    }
  }

  /** What a climb has reached survives the giving up of a reference. */
  lemma ClimbKept(s0: State, refs: seq<Ref>, path: Path, j: nat, t: State, s3: State, u: Ref)
    requires j < |refs| && Kept(t, s3) && u in s3.ws
    requires u in t.ws ==> ClimbAt(s0, t, refs, path, j, u)
    ensures ClimbAt(s0, s3, refs, path, j, u)
  {
    assert KeptAt(t, s3, u);
  }

  lemma ClimbStepWrappers(s0: State, s: State, refs: seq<Ref>, path: Path, j: nat, t: State, s3: State)
    requires IsChain(s0, refs, path) && path != [] && 0 < j <= |path| && Climbing(s0, s, refs, path, j)
    requires refs[j - 1] in s.ws && refs[j] in s.ws
    requires
      var e := Entry(refs[j - 1], path[j - 1], refs[j]);
      var s1 := Raise(s, refs[j - 1]);
      && refs[j - 1] in s1.outside && refs[j] in s1.outside
      && s1.ws[refs[j - 1]].link.Reified? && s1.ws[refs[j - 1]].link.msg in s1.ms
      && s1.ws[refs[j]].link.Reified? && s1.ws[refs[j]].refcnt > 0 && s1.outside[refs[j]] > 0
      && t == Recount(Attach(s1, e), refs[j], -1)
    requires Kept(t, s3)
    ensures forall u {:trigger ClimbAt(s0, s3, refs, path, j - 1, u)} | u in s3.ws ::
              ClimbAt(s0, s3, refs, path, j - 1, u)
    ensures forall u | u in s0.ws && u in s0.outside && s0.outside[u] > 0 :: u in s3.ws
    ensures refs[j - 1] in s3.ws
  {
    ClimbLinks(s0, s, refs, path, j);
    forall u | u in s3.ws ensures ClimbAt(s0, s3, refs, path, j - 1, u) {
      assert KeptAt(t, s3, u);
      ClimbStepAt(s0, s, refs, path, j, t, u);
      ClimbKept(s0, refs, path, j - 1, t, s3, u);
    }
    forall u | u in s0.ws && u in s0.outside && s0.outside[u] > 0 ensures u in s3.ws {
      ClimbStepAt(s0, s, refs, path, j, t, u);
    }
    ClimbStepAt(s0, s, refs, path, j, t, refs[j - 1]);
  }

  lemma ClimbStep(s0: State, s: State, refs: seq<Ref>, path: Path, j: nat, t: State, s3: State)
    requires IsChain(s0, refs, path) && path != [] && 0 < j <= |path| && Climbing(s0, s, refs, path, j)
    requires forall m | m in s0.ms :: m < s0.nextPtr
    requires refs[j - 1] in s.ws && refs[j] in s.ws
    requires
      var e := Entry(refs[j - 1], path[j - 1], refs[j]);
      var s1 := Raise(s, refs[j - 1]);
      && refs[j - 1] in s1.outside && refs[j] in s1.outside
      && s1.ws[refs[j - 1]].link.Reified? && s1.ws[refs[j - 1]].link.msg in s1.ms
      && s1.ws[refs[j]].link.Reified? && s1.ws[refs[j]].refcnt > 0 && s1.outside[refs[j]] > 0
      && t == Recount(Attach(s1, e), refs[j], -1)
    requires Kept(t, s3)
    requires Core(s3, ClimbGap(refs, path, j - 1))
    ensures Climbing(s0, s3, refs, path, j - 1)
  {
    ClimbStepWrappers(s0, s, refs, path, j, t, s3);
    assert ClimbedData(s0, s3, refs, path, j - 1) by {
      ClimbLinks(s0, s, refs, path, j);
      ClimbData(s0, s, refs, path, j);
    }
  }

  // ----- The outcome of EnsureReified -----

  ghost function Bump(s: State, w: Ref): State
    requires w in s.ws
  {
    s.(ws := s.ws[w := s.ws[w].(version := s.ws[w].version + 1)])
  }

  lemma BumpKeepsCore(s: State, w: Ref)
    requires Core(s, NO_GAP) && w in s.ws
    ensures Core(Bump(s, w), NO_GAP)
  {
    var s' := Bump(s, w);
    forall u | u in s'.ws ensures WrapperOk(s', u, NO_GAP) {
      assert WrapperOk(s, u, NO_GAP);
      if s.ws[u].link.Stub? { assert RegisteredAt(s.ws, u) && RegisteredAt(s'.ws, u); }
      forall g | g in s'.ws[u].unset ensures EntryOk(s'.ws, u, g, {}) {
        assert EntryOk(s.ws, u, g, {});
      }
    }
    forall m | m in s'.cache ensures CacheEntryOk(s', m) {
      assert CacheEntryOk(s, m);
    }
  }

  ghost predicate GrownAt(s0: State, s: State, refs: seq<Ref>, w: Ref, u: Ref)
    requires refs != [] && u in s.ws
  {
    && u in s0.ws && u in s0.outside && u in s.outside && s.outside[u] == s0.outside[u]
    && s.ws[u].version == s0.ws[u].version + (if u == w && |refs| > 1 then 1 else 0)
    && (u !in refs[1..] ==> s.ws[u].link == s0.ws[u].link)
    && (forall i | 0 < i < |refs| && u == refs[i] :: s.ws[u].link == Reified(s0.nextPtr + |refs| - 1 - i))
  }

  /**
    Reifying w: the missing path from its nearest reified ancestor exists, every
    stub on it points at its own message, and nothing else has changed; the
    counts net to zero, and wrappers held from outside have survived.
   */
  ghost predicate Grown(s0: State, s: State, w: Ref)
    requires Core(s0, NO_GAP) && w in s0.ws
  {
    var refs, path := Ancestry(s0, w), PathOf(s0, w);
    && refs[0] in s0.ws && s0.ws[refs[0]].link.Reified? && s0.ws[refs[0]].link.msg in s0.ms
    && s.ms == (if path == [] then s0.ms else Graft(s0.ms, s0.ws[refs[0]].link.msg, path, s0.nextPtr))
    && s.nextPtr == s0.nextPtr + |path| && s.nextRef == s0.nextRef
    && (forall u {:trigger GrownAt(s0, s, refs, w, u)} | u in s.ws :: GrownAt(s0, s, refs, w, u))
    && (forall u | u in s0.ws && u in s0.outside && s0.outside[u] > 0 :: u in s.ws)
    && w in s.ws && s.ws[w].link == (if path == [] then s0.ws[w].link else Reified(s0.nextPtr))
  }

  lemma ClimbEndAt(s0: State, w: Ref, s: State, refs: seq<Ref>, path: Path, s3: State, u: Ref)
    requires IsChain(s0, refs, path) && path != [] && Climbing(s0, s, refs, path, 0) && refs[|path|] == w
    requires refs[0] in s.ws && refs[0] in s.outside && s.outside[refs[0]] > 0 && s.ws[refs[0]].refcnt > 0
    requires w in s3.ws && u in s3.ws && KeptAt(Recount(s, refs[0], -1), s3, u)
    ensures GrownAt(s0, Bump(s3, w), refs, w, u)
  {
    assert ClimbAt(s0, s, refs, path, 0, u);
    assert refs == [refs[0]] + refs[1..];
  }

  lemma ClimbEnd(s0: State, w: Ref, s: State, s3: State)
    requires Core(s0, NO_GAP) && w in s0.ws && w in s0.outside && s0.outside[w] > 0
    requires
      var refs, path := Ancestry(s0, w), PathOf(s0, w);
      && IsChain(s0, refs, path) && path != [] && Climbing(s0, s, refs, path, 0)
      && refs[0] in s.ws && refs[0] in s.outside && s.outside[refs[0]] > 0 && s.ws[refs[0]].refcnt > 0
      && Kept(Recount(s, refs[0], -1), s3)
    requires Core(s3, NO_GAP)
    ensures w in s3.ws && Core(Bump(s3, w), NO_GAP) && Grown(s0, Bump(s3, w), w)
  {
    var refs, path := Ancestry(s0, w), PathOf(s0, w);
    var t := Recount(s, refs[0], -1);
    forall u | u in s0.ws && u in s0.outside && s0.outside[u] > 0 ensures u in s3.ws {
      assert ClimbAt(s0, s, refs, path, 0, u);
      assert t.outside[u] > 0;
    }
    BumpKeepsCore(s3, w);
    forall u | u in Bump(s3, w).ws ensures GrownAt(s0, Bump(s3, w), refs, w, u) {
      assert KeptAt(t, s3, u);
      ClimbEndAt(s0, w, s, refs, path, s3, u);
    }
    assert w == refs[|path|];
  }

  lemma ClimbDone(s0: State, w: Ref, s: State, s3: State)
    requires Invariant(s0) && w in s0.ws && w in s0.outside && s0.outside[w] > 0
    requires
      var refs, path := Ancestry(s0, w), PathOf(s0, w);
      && IsChain(s0, refs, path) && path != [] && Climbing(s0, s, refs, path, 0)
      && refs[0] in s.ws && refs[0] in s.outside && s.outside[refs[0]] > 0 && s.ws[refs[0]].refcnt > 0
      && Kept(Recount(s, refs[0], -1), s3)
    requires Core(s3, NO_GAP)
    ensures w in s3.ws && Invariant(Bump(s3, w)) && Grown(s0, Bump(s3, w), w)
  {
    ClimbEnd(s0, w, s, s3);
    ChainsEndReified(s0, w);
    GraftIsForest(s0.ms, Anchor(s0, w), PathOf(s0, w), s0.nextPtr);
  }

  lemma GrownTrivially(s0: State, w: Ref)
    requires Core(s0, NO_GAP) && w in s0.ws && s0.ws[w].link.Reified?
    ensures Grown(s0, s0, w)
  {
    assert WrapperOk(s0, w, NO_GAP);
    forall u | u in s0.ws ensures GrownAt(s0, s0, [w], w, u) {
      assert WrapperOk(s0, u, NO_GAP);
    }
  }

  lemma ClimbFacts(s0: State, s: State, refs: seq<Ref>, path: Path, j: nat)
    requires IsChain(s0, refs, path) && path != [] && j <= |path| && Climbing(s0, s, refs, path, j)
    ensures refs[j] in s.ws && refs[j] in s.outside && s.outside[refs[j]] > 0 && s.ws[refs[j]].refcnt > 0
    ensures s.ws[refs[j]].link.Reified?
    ensures j > 0 ==>
              && refs[j - 1] in s.ws && refs[j - 1] < refs[j] && refs[j - 1] in s0.ws
              && s.ws[refs[j - 1]].link == s0.ws[refs[j - 1]].link
              && LinkAt(s0, refs, path, j - 1)
              && (s.ws[refs[j - 1]].link.Stub? <==> j > 1)
  {
    assert ClimbAt(s0, s, refs, path, j, refs[j]);
    assert WrapperOk(s, refs[j], ClimbGap(refs, path, j));
    if j > 0 {
      ClimbLinks(s0, s, refs, path, j);
      assert LinkAt(s0, refs, path, j - 1);
    }
  }

  // ----- What EnsureReified means for the abstract values -----

  /** Every message above a sees the leaf at the end of the path; no other message changes. */
  ghost predicate LeafSet(ms: Arena, ms': Arena, a: Ptr, path: Path, f: Field, v: Value) {
    forall p | p in ms ::
      && (forall r | Find(ms, p, r) == Some(a) :: TreeOf(ms', p) == SetAt(TreeOf(ms, p), r, path, f, v))
      && (!Reaches(ms, p, a) ==> TreeOf(ms', p) == TreeOf(ms, p))
  }

  /** The missing path to a message has been added, and nothing else. */
  ghost predicate PathAdded(ms: Arena, ms': Arena, a: Ptr, path: Path) {
    forall p | p in ms ::
      && (forall r | Find(ms, p, r) == Some(a) :: TreeOf(ms', p) == AddPath(TreeOf(ms, p), r, path))
      && (!Reaches(ms, p, a) ==> TreeOf(ms', p) == TreeOf(ms, p))
  }

  lemma AddNothing(ms: Arena, p: Ptr, r: Path)
    requires Find(ms, p, r).Some?
    ensures AddPath(TreeOf(ms, p), r, []) == TreeOf(ms, p)
  {
    forall q: Path | r <= q && q[|r|..] <= [] ensures q in TreeOf(ms, p) {
      assert q == r;
    }
  }

  lemma GraftReach(ms: Arena, a: Ptr, path: Path, base: Ptr, p: Ptr)
    requires Forest(ms) && Missing(ms, a, path, base) && p in ms
    ensures Reaches(Graft(ms, a, path, base), p, base) ==> Reaches(ms, p, a)
  {
    var ms' := Graft(ms, a, path, base);
    if Reaches(ms', p, base) {
      var q :| Find(ms', p, q) == Some(base);
      FindGraft(ms, a, path, base, p, q);
      if Via(ms, a, p, q).Some? { ViaIsFound(ms, a, p, q); }
    }
  }

  /**
    Reifying w through any depth of stubs adds exactly the missing, empty
    submessages to every message above, and leaves every other message alone.
   */
  lemma GrownTree(s0: State, s: State, w: Ref, p: Ptr)
    requires Invariant(s0) && w in s0.ws && Grown(s0, s, w) && p in s0.ms
    ensures Forest(s.ms) && p in s.ms && s.ws[w].link.Reified? && s.ws[w].link.msg in s.ms
    ensures
      var a, path, x := Anchor(s0, w), PathOf(s0, w), s.ws[w].link.msg;
      && (forall r | Find(s0.ms, p, r) == Some(a) ::
            && Find(s.ms, p, r + path) == Some(x)
            && TreeOf(s.ms, p) == AddPath(TreeOf(s0.ms, p), r, path))
      && (!Reaches(s0.ms, p, a) ==> TreeOf(s.ms, p) == TreeOf(s0.ms, p) && !Reaches(s.ms, p, x))
  {
    var refs, path := Ancestry(s0, w), PathOf(s0, w);
    var a, base := s0.ws[refs[0]].link.msg, s0.nextPtr;
    ChainsEndReified(s0, w);
    if path == [] {
      assert refs == [w];
      forall r | Find(s0.ms, p, r) == Some(a)
        ensures Find(s.ms, p, r + path) == Some(a) && TreeOf(s.ms, p) == AddPath(TreeOf(s0.ms, p), r, path)
      {
        AddNothing(s0.ms, p, r);
        assert r + path == r;
      }
    } else {
      GraftIsForest(s0.ms, a, path, base);
      GraftTree(s0.ms, a, path, base, p);
      GraftReach(s0.ms, a, path, base, p);
    }
  }

  /** Reifying alone adds the missing path. */
  lemma GrowthAddsPath(s0: State, s: State, w: Ref)
    requires Invariant(s0) && w in s0.ws && Grown(s0, s, w)
    ensures PathAdded(s0.ms, s.ms, Anchor(s0, w), PathOf(s0, w))
  {
    forall p | p in s0.ms
      ensures forall r | Find(s0.ms, p, r) == Some(Anchor(s0, w)) ::
                TreeOf(s.ms, p) == AddPath(TreeOf(s0.ms, p), r, PathOf(s0, w))
      ensures !Reaches(s0.ms, p, Anchor(s0, w)) ==> TreeOf(s.ms, p) == TreeOf(s0.ms, p)
    {
      GrownTree(s0, s, w, p);
    }
  }

  /**
    Expando assignment: writing scalar f through any depth of stubs adds exactly
    the missing submessages and that leaf to every message above, and leaves
    every other message alone; reading the leaf back gives the value.
   */
  lemma ExpandoAssignment(s0: State, s: State, w: Ref, f: Field, v: Value)
    requires Invariant(s0) && w in s0.ws && Grown(s0, s, w)
    ensures s.ws[w].link.Reified? && s.ws[w].link.msg in s.ms
    ensures
      var ms' := WithScalar(s.ms, s.ws[w].link.msg, f, v);
      && LeafSet(s0.ms, ms', Anchor(s0, w), PathOf(s0, w), f, v)
      && Forest(ms')
      && ms'[s.ws[w].link.msg].scalars[f] == v
  {
    var a, path := Anchor(s0, w), PathOf(s0, w);
    GrownTree(s0, s, w, a);
    var x := s.ws[w].link.msg;
    var ms' := WithScalar(s.ms, x, f, v);
    WithScalarTree(s.ms, x, f, v, x);
    forall p | p in s0.ms
      ensures forall r | Find(s0.ms, p, r) == Some(a) :: TreeOf(ms', p) == SetAt(TreeOf(s0.ms, p), r, path, f, v)
      ensures !Reaches(s0.ms, p, a) ==> TreeOf(ms', p) == TreeOf(s0.ms, p)
    {
      GrownTree(s0, s, w, p);
      WithScalarTree(s.ms, x, f, v, p);
    }
  }

  /** A stub of a reified wrapper gets the next new message. */
  lemma ChildGetsData(s0: State, s: State, c: Ref)
    requires Core(s0, NO_GAP) && c in s0.ws && s0.ws[c].link.Stub? && Grown(s0, s, c)
    requires s0.ws[c].link.parent in s0.ws && s0.ws[s0.ws[c].link.parent].link.Reified?
    ensures s.ws[c].link == Reified(s0.nextPtr) && s0.nextPtr in s.ms && s.ms[s0.nextPtr] == EMPTY
    ensures s0.nextPtr !in s0.ms
  {
    assert WrapperOk(s0, c, NO_GAP) && RegisteredAt(s0.ws, c) && WrapperOk(s0, s0.ws[c].link.parent, NO_GAP);
    assert PathOf(s0, c) == [s0.ws[c].link.field];
    assert Ancestry(s0, c)[0] == s0.ws[c].link.parent;
  }

  ghost function ClearedAt(t: Tree, at: Path, path: Path, f: Field): Tree {
    assert (at + path)[|at|..] == path;
    ClearAt(AddPath(t, at, path), at + path, {f})
  }

  ghost function EmptiedAt(t: Tree, at: Path, path: Path): Tree {
    assert (at + path)[|at|..] == path;
    EmptyAt(AddPath(t, at, path), at + path)
  }

  ghost predicate FieldCleared(ms: Arena, ms': Arena, a: Ptr, path: Path, f: Field) {
    forall p | p in ms ::
      && (forall r | Find(ms, p, r) == Some(a) :: TreeOf(ms', p) == ClearedAt(TreeOf(ms, p), r, path, f))
      && (!Reaches(ms, p, a) ==> TreeOf(ms', p) == TreeOf(ms, p))
  }

  ghost predicate Emptied(ms: Arena, ms': Arena, a: Ptr, path: Path) {
    forall p | p in ms ::
      && (forall r | Find(ms, p, r) == Some(a) :: TreeOf(ms', p) == EmptiedAt(TreeOf(ms, p), r, path))
      && (!Reaches(ms, p, a) ==> TreeOf(ms', p) == TreeOf(ms, p))
  }

  /** ClearField on a field that is not waited for by a stub. */
  lemma ClearReified(s0: State, s: State, w: Ref, f: Field)
    requires Invariant(s0) && w in s0.ws && Grown(s0, s, w)
    ensures s.ws[w].link.Reified? && s.ws[w].link.msg in s.ms
    ensures FieldCleared(s0.ms, Without(s.ms, s.ws[w].link.msg, {f}), Anchor(s0, w), PathOf(s0, w), f)
    ensures Forest(Without(s.ms, s.ws[w].link.msg, {f}))
  {
    var a, path := Anchor(s0, w), PathOf(s0, w);
    GrownTree(s0, s, w, a);
    var x := s.ws[w].link.msg;
    WithoutTree(s.ms, x, {f}, x);
    forall p | p in s0.ms
      ensures forall r | Find(s0.ms, p, r) == Some(a) ::
                TreeOf(Without(s.ms, x, {f}), p) == ClearedAt(TreeOf(s0.ms, p), r, path, f)
      ensures !Reaches(s0.ms, p, a) ==> TreeOf(Without(s.ms, x, {f}), p) == TreeOf(s0.ms, p)
    {
      GrownTree(s0, s, w, p);
      WithoutTree(s.ms, x, {f}, p);
    }
  }

  /** Both growths, seen from one message: of the path to w, then of the missing field below it. */
  lemma ClearStubFrom(s0: State, s: State, w: Ref, f: Field, s1: State, c: Ref, s2: State, p: Ptr)
    requires Invariant(s0) && w in s0.ws && Grown(s0, s, w) && s.ws[w].link.Reified? && s.ws[w].link.msg in s.ms
    requires Invariant(s1) && s1.ms == s.ms && c in s1.ws && w in s1.ws && s1.ws[w].link == s.ws[w].link
    requires s1.ws[c].link == Stub(f, w) && Grown(s1, s2, c) && p in s0.ms
    requires s.ws[w].link.msg in s2.ms && Forest(s2.ms)
    ensures
      var a, path, x := Anchor(s0, w), PathOf(s0, w), s.ws[w].link.msg;
      && (forall r | Find(s0.ms, p, r) == Some(a) ::
            TreeOf(Without(s2.ms, x, {f}), p) == ClearedAt(TreeOf(s0.ms, p), r, path, f))
      && (!Reaches(s0.ms, p, a) ==> TreeOf(Without(s2.ms, x, {f}), p) == TreeOf(s0.ms, p))
  {
    ChainsEndReified(s1, c);
    assert Ancestry(s1, w) == [w] && Ancestry(s1, c) == [w, c] && PathOf(s1, w) == [] && PathOf(s1, c) == [f];
    GrownTree(s0, s, w, p);
    GrownTree(s1, s2, c, p);
    ClearAfterGrowth(s0.ms, s.ms, s2.ms, Anchor(s0, w), PathOf(s0, w), s.ws[w].link.msg, f, s1.nextPtr, p);
  }

  /**
    ClearField on a field with a stub reifies the stub first; what that adds is
    removed again, so the outcome is the same as if there had been no stub.
   */
  lemma ClearStub(s0: State, s: State, w: Ref, f: Field, s1: State, c: Ref, s2: State)
    requires Invariant(s0) && w in s0.ws && Grown(s0, s, w) && s.ws[w].link.Reified? && s.ws[w].link.msg in s.ms
    requires Invariant(s1) && s1.ms == s.ms && c in s1.ws && w in s1.ws && s1.ws[w].link == s.ws[w].link
    requires s1.ws[c].link == Stub(f, w) && Grown(s1, s2, c)
    ensures s.ws[w].link.msg in s2.ms
    ensures FieldCleared(s0.ms, Without(s2.ms, s.ws[w].link.msg, {f}), Anchor(s0, w), PathOf(s0, w), f)
    ensures Forest(Without(s2.ms, s.ws[w].link.msg, {f}))
  {
    var a, path, x := Anchor(s0, w), PathOf(s0, w), s.ws[w].link.msg;
    GrownTree(s1, s2, c, x);
    WithoutTree(s2.ms, x, {f}, x);
    forall p | p in s0.ms
      ensures forall r | Find(s0.ms, p, r) == Some(a) ::
                TreeOf(Without(s2.ms, x, {f}), p) == ClearedAt(TreeOf(s0.ms, p), r, path, f)
      ensures !Reaches(s0.ms, p, a) ==> TreeOf(Without(s2.ms, x, {f}), p) == TreeOf(s0.ms, p)
    {
      ClearStubFrom(s0, s, w, f, s1, c, s2, p);
    }
  }

  lemma ClearAfterGrowth(ms0: Arena, ms1: Arena, ms2: Arena, a: Ptr, path: Path, x: Ptr, f: Field, base: Ptr, p: Ptr)
    requires Forest(ms1) && Forest(ms2) && p in ms1 && Missing(ms1, x, [f], base) && ms2 == Graft(ms1, x, [f], base)
    requires forall r | Find(ms0, p, r) == Some(a) ::
               Find(ms1, p, r + path) == Some(x) && TreeOf(ms1, p) == AddPath(TreeOf(ms0, p), r, path)
    requires !Reaches(ms0, p, a) ==> TreeOf(ms1, p) == TreeOf(ms0, p) && !Reaches(ms1, p, x)
    requires forall at | Find(ms1, p, at) == Some(x) ::
               Find(ms2, p, at + [f]) == Some(base) && TreeOf(ms2, p) == AddPath(TreeOf(ms1, p), at, [f])
    requires !Reaches(ms1, p, x) ==> TreeOf(ms2, p) == TreeOf(ms1, p)
    ensures forall r | Find(ms0, p, r) == Some(a) ::
              TreeOf(Without(ms2, x, {f}), p) == ClearedAt(TreeOf(ms0, p), r, path, f)
    ensures !Reaches(ms0, p, a) ==> TreeOf(Without(ms2, x, {f}), p) == TreeOf(ms0, p)
  {
    forall r | Find(ms0, p, r) == Some(a)
      ensures TreeOf(Without(ms2, x, {f}), p) == ClearedAt(TreeOf(ms0, p), r, path, f)
    {
      ClearStubAt(ms1, ms2, x, f, p, r + path);
    }
    if !Reaches(ms0, p, a) {
      StillUnreached(ms1, ms2, x, f, base, p);
      WithoutTree(ms2, x, {f}, p);
    }
  }

  lemma StillUnreached(ms1: Arena, ms2: Arena, x: Ptr, f: Field, base: Ptr, p: Ptr)
    requires Forest(ms1) && p in ms1 && !Reaches(ms1, p, x) && Missing(ms1, x, [f], base)
    requires ms2 == Graft(ms1, x, [f], base)
    ensures !Reaches(ms2, p, x)
  {
    if Reaches(ms2, p, x) {
      var q :| Find(ms2, p, q) == Some(x);
      FindGraft(ms1, x, [f], base, p, q);
      if Via(ms1, x, p, q).Some? { ViaIsFound(ms1, x, p, q); }
    }
  }

  lemma ClearStubAt(ms1: Arena, ms2: Arena, x: Ptr, f: Field, p: Ptr, at: Path)
    requires Forest(ms1) && Forest(ms2) && x in ms1 && x in ms2 && f !in ms1[x].subs && f in ms2[x].subs
    requires Find(ms1, p, at) == Some(x) && Find(ms2, p, at + [f]) == Some(ms2[x].subs[f])
    requires TreeOf(ms2, p) == AddPath(TreeOf(ms1, p), at, [f])
    ensures TreeOf(Without(ms2, x, {f}), p) == ClearAt(TreeOf(ms1, p), at, {f})
  {
    forall q | q in TreeOf(ms1, p) ensures !(at < q && q[|at|] == f) {
      if at < q && q[|at|] == f {
        assert q == at + q[|at|..];
        FindConcat(ms1, p, at, q[|at|..]);
      }
    }
    ClearGrown(TreeOf(ms1, p), at, f);
    FindConcat(ms2, p, at, [f]);
    var y := Find(ms2, p, at).value;
    assert Find(ms2, y, [f]) == Some(ms2[y].subs[f]);
    assert y == x;
    WithoutTree(ms2, x, {f}, p);
  }

  lemma ClearWhole(s0: State, s: State, w: Ref, ms: Arena)
    requires Invariant(s0) && w in s0.ws && Grown(s0, s, w) && s.ws[w].link.Reified?
    requires Forest(ms) && forall p | p in s.ms :: p in ms && ms[p] == s.ms[p]
    requires s.ws[w].link.msg in s.ms
    ensures Forest(ms[s.ws[w].link.msg := EMPTY])
    ensures Emptied(s0.ms, ms[s.ws[w].link.msg := EMPTY], Anchor(s0, w), PathOf(s0, w))
  {
    var a, path := Anchor(s0, w), PathOf(s0, w);
    var x := s.ws[w].link.msg;
    GrownTree(s0, s, w, a);
    EmptiedTree(ms, x, x);
    forall p | p in s0.ms
      ensures forall r | Find(s0.ms, p, r) == Some(a) ::
                TreeOf(ms[x := EMPTY], p) == EmptiedAt(TreeOf(s0.ms, p), r, path)
      ensures !Reaches(s0.ms, p, a) ==> TreeOf(ms[x := EMPTY], p) == TreeOf(s0.ms, p)
    {
      GrownTree(s0, s, w, p);
      EmptyAfterGrowth(s0.ms, s.ms, ms, a, path, x, p);
    }
  }

  lemma EmptyAfterGrowth(ms0: Arena, ms1: Arena, ms: Arena, a: Ptr, path: Path, x: Ptr, p: Ptr)
    requires Forest(ms1) && Forest(ms) && p in ms1 && x in ms1
    requires forall y | y in ms1 :: y in ms && ms[y] == ms1[y]
    requires forall r | Find(ms0, p, r) == Some(a) ::
               Find(ms1, p, r + path) == Some(x) && TreeOf(ms1, p) == AddPath(TreeOf(ms0, p), r, path)
    requires !Reaches(ms0, p, a) ==> TreeOf(ms1, p) == TreeOf(ms0, p) && !Reaches(ms1, p, x)
    ensures forall r | Find(ms0, p, r) == Some(a) :: TreeOf(ms[x := EMPTY], p) == EmptiedAt(TreeOf(ms0, p), r, path)
    ensures !Reaches(ms0, p, a) ==> TreeOf(ms[x := EMPTY], p) == TreeOf(ms0, p)
  {
    SameData(ms1, ms, p);
    EmptiedTree(ms, x, p);
  }

  lemma SameData(ms: Arena, ms': Arena, p: Ptr)
    requires Closed(ms) && p in ms && forall x | x in ms :: x in ms' && ms'[x] == ms[x]
    ensures forall q: Path :: Find(ms', p, q) == Find(ms, p, q)
    ensures TreeOf(ms', p) == TreeOf(ms, p)
  {
    forall q: Path
      ensures Find(ms', p, q) == Find(ms, p, q)
      ensures q in TreeOf(ms, p) ==> TreeOf(ms', p)[q] == TreeOf(ms, p)[q]
    {
      SameFind(ms, ms', p, q);
    }
  }

  lemma {:induction false} SameFind(ms: Arena, ms': Arena, p: Ptr, q: Path)
    requires Closed(ms) && p in ms && forall x | x in ms :: x in ms' && ms'[x] == ms[x]
    ensures Find(ms', p, q) == Find(ms, p, q)
    decreases |q|
  {
    if q != [] && q[0] in ms[p].subs {
      var f := q[0];
      SameFind(ms, ms', ms[p].subs[f], q[1..]);
    }
  }

  lemma {:induction false} AncestryUp(s: State, w: Ref, c: Ref)
    requires Core(s, NO_GAP) && w in s.ws && c in Ancestry(s, w) && c in s.ws && s.ws[c].link.Stub?
    ensures s.ws[c].link.parent in Ancestry(s, w)
    decreases if w < 0 then 0 else w
  {
    assert WrapperOk(s, w, NO_GAP);
    if s.ws[w].link.Stub? {
      var p := s.ws[w].link.parent;
      assert RegisteredAt(s.ws, w);
      if c != w { AncestryUp(s, p, c); }
    }
  }

  /** No leaks: a live wrapper, or some live stub below it, is held from outside. */
  lemma {:induction false} HeldFromOutside(s: State, w: Ref) returns (held: Ref)
    requires Core(s, NO_GAP) && w in s.ws
    ensures held in s.ws && held in s.outside && s.outside[held] > 0 && w in Ancestry(s, held)
    decreases if w < s.nextRef then s.nextRef - w else 0
  {
    assert WrapperOk(s, w, NO_GAP);
    if s.outside[w] > 0 {
      held := w;
    } else {
      var f := SomeMember(s.ws[w].unset.Keys);
      var c := s.ws[w].unset[f];
      assert EntryOk(s.ws, w, f, {}) && WrapperOk(s, c, NO_GAP) && RegisteredAt(s.ws, c);
      held := HeldFromOutside(s, c);
      AncestryUp(s, held, c);
    }
  }

  lemma {:induction false} InjectiveSize(m: map<Field, Ref>)
    requires forall f, g | f in m && g in m && m[f] == m[g] :: f == g
    ensures |m.Values| == |m|
    decreases |m|
  {
    if |m| > 0 {
      var f := SomeMember(m.Keys);
      var m' := m - {f};
      assert m'.Keys == m.Keys - {f};
      InjectiveSize(m');
      assert m.Values == m'.Values + {m[f]} by {
        forall c | c in m.Values ensures c in m'.Values + {m[f]} {
          var g := KeyOf(m, c);
          if g != f { assert m'[g] == c; }
        }
      }
      assert m[f] !in m'.Values;
    } else {
      assert m == map[];
    }
  }

  /** The count of a wrapper is its outside references plus the stubs whose parent it is. */
  lemma CountIsConserved(s: State, w: Ref)
    requires Core(s, NO_GAP) && w in s.ws
    ensures w in s.outside
    ensures s.ws[w].refcnt == s.outside[w] + |set c | c in s.ws && s.ws[c].link.Stub? && s.ws[c].link.parent == w|
  {
    assert WrapperOk(s, w, NO_GAP);
    var unset := s.ws[w].unset;
    forall f, g | f in unset && g in unset && unset[f] == unset[g] ensures f == g {
      assert EntryOk(s.ws, w, f, {}) && EntryOk(s.ws, w, g, {});
    }
    InjectiveSize(unset);
    var stubs := set c | c in s.ws && s.ws[c].link.Stub? && s.ws[c].link.parent == w;
    forall c | c in stubs ensures c in unset.Values {
      assert WrapperOk(s, c, NO_GAP) && RegisteredAt(s.ws, c);
    }
    forall c | c in unset.Values ensures c in stubs {
      var f := KeyOf(unset, c);
      assert EntryOk(s.ws, w, f, {});
    }
    assert stubs == unset.Values;
  }

  // ----- New wrappers -----

  ghost function NewRoot(s: State): State {
    State(s.ws[s.nextRef := Wrapper(1, Reified(s.nextPtr), map[], 0)],
          s.ms[s.nextPtr := EMPTY],
          s.cache[s.nextPtr := s.nextRef],
          s.outside[s.nextRef := 1],
          s.nextRef + 1, s.nextPtr + 1)
  }

  ghost function NewStub(s: State, w: Ref, f: Field): State
    requires w in s.ws
  {
    s.(ws := s.ws[w := s.ws[w].(refcnt := s.ws[w].refcnt + 1, unset := s.ws[w].unset[f := s.nextRef])]
                 [s.nextRef := Wrapper(1, Stub(f, w), map[], 0)],
       outside := s.outside[s.nextRef := 1],
       nextRef := s.nextRef + 1)
  }

  ghost function NewWrapper(s: State, m: Ptr): State {
    s.(ws := s.ws[s.nextRef := Wrapper(1, Reified(m), map[], 0)],
       cache := s.cache[m := s.nextRef],
       outside := s.outside[s.nextRef := 1],
       nextRef := s.nextRef + 1)
  }

  lemma AddressesAreFresh(s: State, gap: Gap)
    requires Core(s, gap)
    ensures forall w | w in s.ws :: 0 <= w < s.nextRef
    ensures forall m | m in s.cache :: m in s.ms && m < s.nextPtr
  {
    forall w | w in s.ws ensures 0 <= w < s.nextRef {
      assert WrapperOk(s, w, gap);
    }
    forall m | m in s.cache ensures m in s.ms {
      assert CacheEntryOk(s, m) && WrapperOk(s, s.cache[m], gap);
    }
  }

  /** Wrappers other than w and the new one keep what they had. */
  lemma OthersKeepOk(s: State, s': State, w: Ref, u: Ref)
    requires Core(s, NO_GAP) && u in s.ws && u != w && u in s'.ws && s'.ws[u] == s.ws[u]
    requires u in s'.outside && s'.outside[u] == s.outside[u] && s'.nextRef >= s.nextRef
    requires forall v | v in s.ws :: v in s'.ws && s'.ws[v].link == s.ws[v].link
    requires forall v, f | v in s.ws && f in s.ws[v].unset ::
               f in s'.ws[v].unset && s'.ws[v].unset[f] == s.ws[v].unset[f]
    requires forall m | m in s.ms :: m in s'.ms && s'.ms[m].subs.Keys <= s.ms[m].subs.Keys
    requires forall m | m in s.cache :: m in s'.cache && s'.cache[m] == s.cache[m]
    ensures WrapperOk(s', u, NO_GAP)
  {
    assert WrapperOk(s, u, NO_GAP);
    if s.ws[u].link.Stub? { assert RegisteredAt(s.ws, u) && RegisteredAt(s'.ws, u); }
    forall f | f in s'.ws[u].unset ensures EntryOk(s'.ws, u, f, {}) {
      assert EntryOk(s.ws, u, f, {});
    }
  }

  lemma NewRootOk(s: State)
    requires Invariant(s)
    ensures Invariant(NewRoot(s))
  {
    NewRootCore(s);
    var d :| Ranked(s.ms, d);
    assert Ranked(NewRoot(s).ms, d[s.nextPtr := 0]);
  }

  lemma NewRootCore(s: State)
    requires Core(s, NO_GAP)
    ensures Core(NewRoot(s), NO_GAP)
  {
    var s', w := NewRoot(s), s.nextRef;
    AddressesAreFresh(s, NO_GAP);
    forall u | u in s'.ws ensures WrapperOk(s', u, NO_GAP) {
      if u != w { OthersKeepOk(s, s', w, u); }
    }
    forall m | m in s'.cache ensures CacheEntryOk(s', m) {
      if m != s.nextPtr { assert CacheEntryOk(s, m); }
    }
  }

  lemma NewStubParent(s: State, w: Ref, f: Field)
    requires Core(s, NO_GAP) && w in s.ws && f !in s.ws[w].unset
    requires s.ws[w].link.Reified? && s.ws[w].link.msg in s.ms ==> f !in s.ms[s.ws[w].link.msg].subs
    ensures WrapperOk(NewStub(s, w, f), w, NO_GAP)
  {
    AddressesAreFresh(s, NO_GAP);
    var s' := NewStub(s, w, f);
    assert WrapperOk(s, w, NO_GAP);
    assert s'.ws[w].unset.Keys == s.ws[w].unset.Keys + {f};
    if s.ws[w].link.Stub? { assert RegisteredAt(s.ws, w) && RegisteredAt(s'.ws, w); }
    forall g | g in s'.ws[w].unset ensures EntryOk(s'.ws, w, g, {}) {
      if g != f { assert EntryOk(s.ws, w, g, {}); }
    }
  }

  lemma NewStubChild(s: State, w: Ref, f: Field)
    requires Core(s, NO_GAP) && w in s.ws && f !in s.ws[w].unset
    ensures WrapperOk(NewStub(s, w, f), s.nextRef, NO_GAP)
  {
    AddressesAreFresh(s, NO_GAP);
    assert RegisteredAt(NewStub(s, w, f).ws, s.nextRef);
  }

  lemma NewStubOk(s: State, w: Ref, f: Field)
    requires Core(s, NO_GAP) && w in s.ws && f !in s.ws[w].unset
    requires s.ws[w].link.Reified? && s.ws[w].link.msg in s.ms ==> f !in s.ms[s.ws[w].link.msg].subs
    ensures Core(NewStub(s, w, f), NO_GAP)
  {
    var s' := NewStub(s, w, f);
    AddressesAreFresh(s, NO_GAP);
    forall u | u in s'.ws ensures WrapperOk(s', u, NO_GAP) {
      NewStubAt(s, w, f, u);
    }
    forall m | m in s'.cache ensures CacheEntryOk(s', m) {
      assert CacheEntryOk(s, m);
    }
  }

  lemma NewStubAt(s: State, w: Ref, f: Field, u: Ref)
    requires Core(s, NO_GAP) && w in s.ws && f !in s.ws[w].unset && u in NewStub(s, w, f).ws
    requires s.ws[w].link.Reified? && s.ws[w].link.msg in s.ms ==> f !in s.ms[s.ws[w].link.msg].subs
    ensures WrapperOk(NewStub(s, w, f), u, NO_GAP)
  {
    AddressesAreFresh(s, NO_GAP);
    if u == w {
      NewStubParent(s, w, f);
    } else if u == s.nextRef {
      NewStubChild(s, w, f);
    } else {
      OthersKeepOk(s, NewStub(s, w, f), w, u);
    }
  }

  lemma NewWrapperOk(s: State, m: Ptr)
    requires Core(s, NO_GAP) && m in s.ms && m !in s.cache
    ensures Core(NewWrapper(s, m), NO_GAP)
  {
    var s', w := NewWrapper(s, m), s.nextRef;
    AddressesAreFresh(s, NO_GAP);
    forall u | u in s'.ws ensures WrapperOk(s', u, NO_GAP) {
      if u != w { OthersKeepOk(s, s', w, u); }
    }
    forall x | x in s'.cache ensures CacheEntryOk(s', x) {
      if x != m { assert CacheEntryOk(s, x); }
    }
  }

  /** Data may change freely as long as no message gains a field. */
  lemma DataOk(s: State, ms': Arena)
    requires Core(s, NO_GAP) && ms'.Keys == s.ms.Keys
    requires forall m | m in s.ms :: ms'[m].subs.Keys <= s.ms[m].subs.Keys
    ensures Core(s.(ms := ms'), NO_GAP)
  {
    var s' := s.(ms := ms');
    forall u | u in s'.ws ensures WrapperOk(s', u, NO_GAP) {
      OthersKeepOk(s, s', u - 1, u);
    }
    forall m | m in s'.cache ensures CacheEntryOk(s', m) {
      assert CacheEntryOk(s, m);
    }
  }

  // ----- What every operation leaves alone -----

  ghost predicate SteadyAt(s0: State, s: State, u: Ref)
    requires u in s.ws
  {
    if u in s0.ws then
      && u < s0.nextRef
      && u in s0.outside && u in s.outside && s.outside[u] == s0.outside[u]
      && s.ws[u].version >= s0.ws[u].version
      && (s0.ws[u].link.Reified? ==> s.ws[u].link == s0.ws[u].link)
    else u >= s0.nextRef
  }

  /**
    References held from outside are neither taken nor given, wrappers so held
    survive, and a wrapper once reified keeps its data for good.
   */
  ghost predicate Steady(s0: State, s: State) {
    && s0.nextRef <= s.nextRef
    && (forall u {:trigger SteadyAt(s0, s, u)} | u in s.ws :: SteadyAt(s0, s, u))
    && (forall u | u in s0.ws && u in s0.outside && s0.outside[u] > 0 :: u in s.ws)
  }

  lemma GrownIsSteady(s0: State, s: State, w: Ref)
    requires Core(s0, NO_GAP) && w in s0.ws && Grown(s0, s, w)
    ensures Steady(s0, s)
  {
    var refs := Ancestry(s0, w);
    ChainsEndReified(s0, w);
    forall u | u in s.ws ensures SteadyAt(s0, s, u) {
      assert GrownAt(s0, s, refs, w, u) && WrapperOk(s0, u, NO_GAP);
      if u in refs[1..] {
        var i :| 0 < i < |refs| && refs[i] == u;
        assert LinkAt(s0, refs, PathOf(s0, w), i);
      }
    }
  }

  lemma SteadyTrans(s0: State, s1: State, s2: State)
    requires Steady(s0, s1) && Steady(s1, s2) && Core(s0, NO_GAP)
    ensures Steady(s0, s2)
  {
    forall u | u in s2.ws ensures SteadyAt(s0, s2, u) {
      assert SteadyAt(s1, s2, u);
      if u in s0.ws { assert WrapperOk(s0, u, NO_GAP); }
      if u in s1.ws { assert SteadyAt(s0, s1, u); }
    }
    forall u | u in s0.ws && u in s0.outside && s0.outside[u] > 0 ensures u in s2.ws {
      assert SteadyAt(s0, s1, u);
    }
  }

  lemma DataIsSteady(s0: State, s1: State, ms: Arena)
    requires Steady(s0, s1)
    ensures Steady(s0, s1.(ms := ms))
  {
    var s2 := s1.(ms := ms);
    forall u | u in s2.ws ensures SteadyAt(s0, s2, u) {
      assert SteadyAt(s0, s1, u);
    }
  }

  /** A reference taken for the length of an operation leaves nothing behind. */
  lemma HeldForAWhile(s0: State, s1: State, s2: State, c: Ref, s3: State, s4: State)
    requires Core(s0, NO_GAP) && Steady(s0, s1) && Core(s1, NO_GAP) && c in s1.ws && c in s1.outside
             && s2 == Recount(s1, c, 1)
    requires Core(s2, NO_GAP) && Grown(s2, s3, c) && c in s3.ws && c in s3.outside
    requires s3.outside[c] > 0 && s3.ws[c].refcnt > 0 && s4 == Recount(s3, c, -1)
    ensures Steady(s0, s4) && Steady(s1, s4)
  {
    GrownIsSteady(s2, s3, c);
    forall u | u in s4.ws ensures u in s1.ws && SteadyAt(s1, s4, u) {
      assert SteadyAt(s2, s3, u) && GrownAt(s2, s3, Ancestry(s2, c), c, u);
    }
    forall u | u in s1.ws && u in s1.outside && s1.outside[u] > 0 ensures u in s4.ws {
      assert SteadyAt(s2, s3, u);
    }
    SteadyTrans(s0, s1, s4);
  }

  lemma CoreIsSteady(s: State)
    requires Core(s, NO_GAP)
    ensures Steady(s, s)
  {
    forall u | u in s.ws ensures SteadyAt(s, s, u) {
      assert WrapperOk(s, u, NO_GAP);
    }
  }

  lemma SameWrappersSteady(s0: State, s: State, s': State)
    requires Core(s, NO_GAP) && Steady(s0, s) && s'.ws == s.ws && s'.outside == s.outside
    requires s'.nextRef == s.nextRef
    ensures Steady(s0, s') && Steady(s, s')
  {
    CoreIsSteady(s);
    forall u | u in s'.ws ensures SteadyAt(s0, s', u) && SteadyAt(s, s', u) {
      assert SteadyAt(s0, s, u) && SteadyAt(s, s, u);
    }
  }

  lemma GrownLink(s0: State, s: State, w: Ref, refs: seq<Ref>, path: Path, i: nat)
    requires IsChain(s0, refs, path) && i < |refs| && refs[i] in s.ws && GrownAt(s0, s, refs, w, refs[i])
    ensures s.ws[refs[i]].link == if i == 0 then s0.ws[refs[0]].link else Reified(s0.nextPtr + |path| - i)
  {
    if i == 0 {
      assert refs[0] !in refs[1..];
    }
  }

  lemma GraftedField(ms: Arena, a: Ptr, path: Path, base: Ptr, i: nat)
    requires Missing(ms, a, path, base) && 0 < i <= |path|
    ensures
      var ms' := Graft(ms, a, path, base);
      var x := if i == 1 then a else base + |path| - (i - 1);
      x in ms' && path[i - 1] in ms'[x].subs && ms'[x].subs[path[i - 1]] == base + |path| - i
  {
    if i > 1 {
      var x := base + |path| - (i - 1);
      assert Graft(ms, a, path, base)[x] == ChainMessage(base, path, x);
    }
  }

  ghost predicate SameObject(s: State, parent: Ref, f: Field, child: Ref) {
    && parent in s.ws && s.ws[parent].link.Reified? && s.ws[parent].link.msg in s.ms
    && f in s.ms[s.ws[parent].link.msg].subs
    && s.ms[s.ws[parent].link.msg].subs[f] in s.cache
    && s.cache[s.ms[s.ws[parent].link.msg].subs[f]] == child
  }

  lemma IdentityOnChain(s0: State, s: State, w: Ref, refs: seq<Ref>, path: Path, i: nat)
    requires IsChain(s0, refs, path) && 0 < i < |refs| && refs[i] in s.ws && refs[i - 1] in s.ws
    requires GrownAt(s0, s, refs, w, refs[i]) && GrownAt(s0, s, refs, w, refs[i - 1])
    requires Missing(s0.ms, s0.ws[refs[0]].link.msg, path, s0.nextPtr)
    requires s.ms == Graft(s0.ms, s0.ws[refs[0]].link.msg, path, s0.nextPtr)
    requires WrapperOk(s, refs[i], NO_GAP)
    ensures SameObject(s, refs[i - 1], path[i - 1], refs[i])
  {
    GrownLink(s0, s, w, refs, path, i);
    GrownLink(s0, s, w, refs, path, i - 1);
    GraftedField(s0.ms, s0.ws[refs[0]].link.msg, path, s0.nextPtr, i);
  }

  /**
    Object identity: a stub read before the assignment is the very object that
    reading the field again gives afterwards, as its data is cached under it.
   */
  lemma IdentityKept(s0: State, s: State, w: Ref, i: nat)
    requires Invariant(s0) && w in s0.ws && Grown(s0, s, w) && Invariant(s)
    requires 0 < i < |Ancestry(s0, w)| && Ancestry(s0, w)[i] in s.ws && Ancestry(s0, w)[i - 1] in s.ws
    ensures i - 1 < |PathOf(s0, w)|
    ensures SameObject(s, Ancestry(s0, w)[i - 1], PathOf(s0, w)[i - 1], Ancestry(s0, w)[i])
  {
    var refs, path := Ancestry(s0, w), PathOf(s0, w);
    ChainsEndReified(s0, w);
    assert GrownAt(s0, s, refs, w, refs[i]) && GrownAt(s0, s, refs, w, refs[i - 1]);
    assert WrapperOk(s, refs[i], NO_GAP);
    IdentityOnChain(s0, s, w, refs, path, i);
  }
}
