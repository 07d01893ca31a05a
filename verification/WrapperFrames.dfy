/**
  What an operation leaves alone beside the stubs it moves, and what that is
  worth to the caller: a stub that was read before is still the way to its field.
 */
module WrapperFrames {
  import opened Options
  import opened MessageForest
  import opened WrapperGraph
  import opened WrapperCounts
  import opened WrapperSync

  // ----- Stubs that are cut off -----

  /** A stub of w for one of these fields. */
  ghost predicate WaitsFor(s: State, w: Ref, fields: set<Field>, u: Ref)
    requires u in s.ws
  {
    s.ws[u].link.Stub? && s.ws[u].link.parent == w && s.ws[u].link.field in fields
  }

  ghost predicate LinkCutAt(s0: State, s: State, w: Ref, fields: set<Field>, bump: nat, u: Ref)
    requires u in s.ws
  {
    && u in s0.ws && u in s0.outside && u in s.outside && s.outside[u] == s0.outside[u]
    && s.ws[u].version == s0.ws[u].version + (if WaitsFor(s0, w, fields, u) then bump else 0)
    && if WaitsFor(s0, w, fields, u) then HasNewData(s0.ms, s, u) else s.ws[u].link == s0.ws[u].link
  }

  /**
    The stubs of w for these fields point at new, empty messages of their own, and
    their versions have gone up by `bump`; every other link is as it was.
   */
  ghost predicate LinksCut(s0: State, s: State, w: Ref, fields: set<Field>, bump: nat) {
    && (forall u {:trigger LinkCutAt(s0, s, w, fields, bump, u)} | u in s.ws :: LinkCutAt(s0, s, w, fields, bump, u))
    && (forall u | u in s0.ws && u in s0.outside && s0.outside[u] > 0 :: u in s.ws)
    && s.nextRef == s0.nextRef
  }

  /** One wrapper with its table and its count. */
  ghost predicate CutOffAt(s0: State, s: State, w: Ref, fields: set<Field>, bump: nat, u: Ref)
    requires u in s.ws
  {
    && LinkCutAt(s0, s, w, fields, bump, u)
    && s.ws[u].unset == (if u == w then s0.ws[u].unset - fields else s0.ws[u].unset)
    && s.ws[u].refcnt == s0.outside[u] + |s.ws[u].unset|
  }

  /** No wrapper comes or goes; those stubs leave the table of w, and no other table or link changes. */
  ghost predicate CutOff(s0: State, s: State, w: Ref, fields: set<Field>, bump: nat) {
    && s.ws.Keys == s0.ws.Keys && s.nextRef == s0.nextRef
    && forall u {:trigger CutOffAt(s0, s, w, fields, bump, u)} | u in s.ws :: CutOffAt(s0, s, w, fields, bump, u)
  }

  /** A table holds exactly the stubs that name it. */
  lemma TableIsStubs(s: State, u: Ref, f: Field, c: Ref)
    requires Core(s, NO_GAP) && u in s.ws
    ensures f in s.ws[u].unset && s.ws[u].unset[f] == c <==> c in s.ws && s.ws[c].link == Stub(f, u)
  {
    assert WrapperOk(s, u, NO_GAP);
    if f in s.ws[u].unset { assert EntryOk(s.ws, u, f, {}); }
    if c in s.ws && s.ws[c].link.Stub? { assert WrapperOk(s, c, NO_GAP) && RegisteredAt(s.ws, c); }
  }

  /** What is held from outside keeps all that lies above it, as far as the links are as they were. */
  lemma {:induction false} AboveHeldLives(s0: State, s: State, w: Ref, fields: set<Field>, bump: nat, u: Ref, held: Ref)
    requires Core(s0, NO_GAP) && Core(s, NO_GAP) && LinksCut(s0, s, w, fields, bump)
    requires w in s0.ws && s0.ws[w].link.Reified? && w in s.ws
    requires held in s0.ws && held in s.ws && u in s0.ws && u in Ancestry(s0, held)
    ensures u in s.ws
    decreases if held < 0 then 0 else held
  {
    assert WrapperOk(s0, held, NO_GAP) && LinkCutAt(s0, s, w, fields, bump, held);
    if held != u {
      assert RegisteredAt(s0.ws, held);
      if WaitsFor(s0, w, fields, held) {
        assert Ancestry(s0, w) == [w];
      } else {
        assert WrapperOk(s, held, NO_GAP) && RegisteredAt(s.ws, held);
        AboveHeldLives(s0, s, w, fields, bump, u, s0.ws[held].link.parent);
      }
    }
  }

  lemma SameTable(s0: State, s: State, w: Ref, fields: set<Field>, bump: nat, u: Ref)
    requires Core(s0, NO_GAP) && Core(s, NO_GAP) && LinksCut(s0, s, w, fields, bump) && s.ws.Keys == s0.ws.Keys
    requires u in s.ws
    ensures s.ws[u].unset == if u == w then s0.ws[u].unset - fields else s0.ws[u].unset
  {
    var unset0, unset := s0.ws[u].unset, s.ws[u].unset;
    forall f
      ensures f in unset <==> f in unset0 && (u == w ==> f !in fields)
      ensures f in unset && f in unset0 ==> unset[f] == unset0[f]
    {
      if f in unset {
        TableIsStubs(s, u, f, unset[f]);
        assert LinkCutAt(s0, s, w, fields, bump, unset[f]);
        TableIsStubs(s0, u, f, unset[f]);
      }
      if f in unset0 {
        TableIsStubs(s0, u, f, unset0[f]);
        assert LinkCutAt(s0, s, w, fields, bump, unset0[f]);
        TableIsStubs(s, u, f, unset0[f]);
      }
    }
  }

  lemma SameWrappers(s0: State, s: State, w: Ref, fields: set<Field>, bump: nat)
    requires Core(s0, NO_GAP) && Core(s, NO_GAP) && LinksCut(s0, s, w, fields, bump)
    requires w in s0.ws && s0.ws[w].link.Reified? && w in s0.outside && s0.outside[w] > 0
    ensures s.ws.Keys == s0.ws.Keys
  {
    forall u | u in s0.ws ensures u in s.ws {
      var held := HeldFromOutside(s0, u);
      AboveHeldLives(s0, s, w, fields, bump, u, held);
    }
    forall u | u in s.ws ensures u in s0.ws {
      assert LinkCutAt(s0, s, w, fields, bump, u);
    }
  }

  /** The links tell the rest. */
  lemma CutOffByLinks(s0: State, s: State, w: Ref, fields: set<Field>, bump: nat)
    requires Core(s0, NO_GAP) && Core(s, NO_GAP) && LinksCut(s0, s, w, fields, bump)
    requires w in s0.ws && s0.ws[w].link.Reified? && w in s0.outside && s0.outside[w] > 0
    ensures CutOff(s0, s, w, fields, bump)
  {
    SameWrappers(s0, s, w, fields, bump);
    forall u | u in s.ws ensures CutOffAt(s0, s, w, fields, bump, u) {
      assert LinkCutAt(s0, s, w, fields, bump, u);
      SameTable(s0, s, w, fields, bump, u);
      CountAt(s, u);
    }
  }

  /** Data that only change where they were before do not matter for the links. */
  lemma CutThenData(s0: State, s: State, w: Ref, fields: set<Field>, bump: nat, ms: Arena)
    requires LinksCut(s0, s, w, fields, bump)
    requires forall m | m in s.ms && m !in s0.ms :: m in ms && ms[m] == s.ms[m]
    ensures LinksCut(s0, s.(ms := ms), w, fields, bump)
  {
    forall u | u in s.ws ensures LinkCutAt(s0, s.(ms := ms), w, fields, bump, u) {
      assert LinkCutAt(s0, s, w, fields, bump, u);
    }
  }

  /** A reference taken before a wrapper gets data is there afterwards, beside the ones that were there. */
  lemma HeldAfterGrowth(s0: State, s1: State, s2: State, c: Ref)
    requires Core(s0, NO_GAP) && c in s0.ws && c in s0.outside && s1 == Recount(s0, c, 1) && Core(s1, NO_GAP)
    requires Core(s2, NO_GAP) && Grown(s1, s2, c) && ReferencesTaken(s1, s2, c)
    ensures c in s2.ws && c in s2.outside && s2.outside[c] > 0 && s2.ws[c].refcnt > 1
  {
    assert WrapperOk(s0, c, NO_GAP) && GrownAt(s1, s2, Ancestry(s1, c), c, c);
    NothingFromSelf(s1, s2, c);
  }

  /** Nothing waits: nothing is cut off. */
  lemma NothingCut(s: State, w: Ref, fields: set<Field>)
    requires Core(s, NO_GAP) && w in s.ws && fields !! s.ws[w].unset.Keys
    ensures LinksCut(s, s, w, fields, 1)
  {
    forall u | u in s.ws ensures LinkCutAt(s, s, w, fields, 1, u) {
      assert WrapperOk(s, u, NO_GAP);
      if s.ws[u].link.Stub? { assert RegisteredAt(s.ws, u); }
    }
  }

  lemma WaitingStub(s: State, w: Ref, f: Field, c: Ref)
    requires Core(s, NO_GAP) && w in s.ws && f in s.ws[w].unset && s.ws[w].unset[f] == c
    ensures c in s.ws && forall u | u in s.ws :: WaitsFor(s, w, {f}, u) <==> u == c
  {
    TableIsStubs(s, w, f, c);
    forall u | u in s.ws ensures WaitsFor(s, w, {f}, u) <==> u == c {
      TableIsStubs(s, w, f, u);
    }
  }

  /** A stub that is reified while a reference to it is held, and then given no place in its parent. */
  lemma HeldIsCut(s0: State, s1: State, w: Ref, f: Field, c: Ref, s2: State, s3: State)
    requires Core(s0, NO_GAP) && w in s0.ws && s0.ws[w].link.Reified? && f in s0.ws[w].unset && s0.ws[w].unset[f] == c
    requires c in s0.ws && c in s0.outside && s1 == Recount(s0, c, 1) && Core(s1, NO_GAP) && Grown(s1, s2, c)
    requires c in s2.ws && c in s2.outside && s2.outside[c] > 0 && s2.ws[c].refcnt > 0
    requires s3 == Recount(s2, c, -1)
    ensures LinksCut(s0, s3, w, {f}, 1)
  {
    WaitingStub(s0, w, f, c);
    TableIsStubs(s0, w, f, c);
    assert WrapperOk(s1, c, NO_GAP) && RegisteredAt(s1.ws, c);
    assert Ancestry(s1, w) == [w] && Ancestry(s1, c) == [w, c];
    ChildGetsData(s1, s2, c);
    forall u | u in s3.ws ensures LinkCutAt(s0, s3, w, {f}, 1, u) {
      assert GrownAt(s1, s2, [w, c], c, u);
    }
  }

  /** Clearing has cut off all stubs once the table is empty. */
  lemma ClearingIsCut(s0: State, s: State, w: Ref)
    requires Core(s0, NO_GAP) && Clearing(s0, s, w) && w in s.ws && s.ws[w].unset == map[] && w in s0.ws
    ensures LinksCut(s0, s, w, s0.ws[w].unset.Keys, 0)
  {
    forall u | u in s.ws ensures LinkCutAt(s0, s, w, s0.ws[w].unset.Keys, 0, u) {
      assert ClearingAt(s0, s, w, u);
      if s0.ws[u].link.Stub? { assert WrapperOk(s0, u, NO_GAP) && RegisteredAt(s0.ws, u); }
      if s.ws[u].link.Stub? { assert WrapperOk(s, u, NO_GAP) && RegisteredAt(s.ws, u); }
    }
  }

  /** Emptying a message whose stubs have all been cut off. */
  lemma EmptiedOk(s0: State, s1: State, s: State, w: Ref, m: Ptr)
    requires Invariant(s) && Steady(s0, s) && Core(s1, NO_GAP) && w in s1.ws && s1.ws[w].link == Reified(m)
    requires LinksCut(s1, s, w, s1.ws[w].unset.Keys, 0) && w in s1.outside && s1.outside[w] > 0 && m in s.ms
    ensures Invariant(s.(ms := s.ms[m := EMPTY])) && Steady(s0, s.(ms := s.ms[m := EMPTY]))
    ensures CutOff(s1, s.(ms := s.ms[m := EMPTY]), w, s1.ws[w].unset.Keys, 0)
  {
    var ms := s.ms[m := EMPTY];
    assert WrapperOk(s1, w, NO_GAP);
    EmptiedTree(s.ms, m, m);
    DataOk(s, ms);
    DataIsSteady(s0, s, ms);
    CutThenData(s1, s, w, s1.ws[w].unset.Keys, 0, ms);
    CutOffByLinks(s1, s.(ms := ms), w, s1.ws[w].unset.Keys, 0);
  }

  // ----- Writing through a stub that was read before -----

  lemma {:induction false} StubBelow(s: State, w: Ref, b: Ref, q: Path)
    requires Core(s, NO_GAP) && w in s.ws && s.ws[w].link.Reified? && b in s.ws && PathFrom(s.ws, b, w) == Some(q)
    ensures Ancestry(s, b)[0] == w && PathOf(s, b) == q && Anchor(s, b) == s.ws[w].link.msg
    decreases if b < 0 then 0 else b
  {
    assert WrapperOk(s, b, NO_GAP);
    if b != w {
      assert RegisteredAt(s.ws, b);
      var p := s.ws[b].link.parent;
      StubBelow(s, w, p, PathFrom(s.ws, p, w).value);
    }
  }

  /** Writing a scalar through a stub adds its path and the leaf below the wrapper it hangs from. */
  lemma WriteThroughStub(s: State, w: Ref, b: Ref, q: Path, s': State, h: Field, x: Value)
    requires Invariant(s) && w in s.ws && s.ws[w].link.Reified? && b in s.ws && PathFrom(s.ws, b, w) == Some(q)
    requires Grown(s, s', b)
    ensures s'.ws[b].link.Reified? && s'.ws[b].link.msg in s'.ms
    ensures LeafSet(s.ms, WithScalar(s'.ms, s'.ws[b].link.msg, h, x), s.ws[w].link.msg, q, h, x)
  {
    StubBelow(s, w, b, q);
    ExpandoAssignment(s, s', b, h, x);
  }

  /** A stub below w stays below it when w gets data and one of its scalars is set. */
  lemma StubStaysBelow(s0: State, s1: State, w: Ref, f: Field, v: Value, b: Ref)
    requires Invariant(s0) && w in s0.ws && Grown(s0, s1, w) && Invariant(s1) && b in s1.ws
    requires PathFrom(s0.ws, b, w).Some?
    ensures s1.ws[w].link.Reified? && s1.ws[w].link.msg in s1.ms
    ensures Invariant(s1.(ms := WithScalar(s1.ms, s1.ws[w].link.msg, f, v)))
    ensures PathFrom(s1.ws, b, w) == PathFrom(s0.ws, b, w)
  {
    PathFromGrown(s0, s1, w, b);
    GrownTree(s0, s1, w, Anchor(s0, w));
    var m := s1.ws[w].link.msg;
    WithScalarTree(s1.ms, m, f, v, m);
    DataOk(s1, WithScalar(s1.ms, m, f, v));
  }

  lemma FoundAfterSetting(s0: State, s1: State, w: Ref, f: Field, v: Value, p: Ptr, r: Path)
    requires Invariant(s0) && w in s0.ws && Grown(s0, s1, w) && p in s0.ms && Find(s0.ms, p, r) == Some(Anchor(s0, w))
    ensures s1.ws[w].link.Reified? && s1.ws[w].link.msg in s1.ms
    ensures
      var ms := WithScalar(s1.ms, s1.ws[w].link.msg, f, v);
      p in ms && Find(ms, p, r + PathOf(s0, w)) == Some(s1.ws[w].link.msg)
  {
    GrownTree(s0, s1, w, p);
    FindWithScalar(s1.ms, s1.ws[w].link.msg, f, v, p, r + PathOf(s0, w));
  }

  /**
    Two assignments, the second through a stub that was read before the first:
    b = w.p.q is read while unset, w.f is set, then b.h. Every message that
    contains w's data sees both leaves at their places, and nothing else new but
    the messages on the way.
   */
  lemma TwoAssignments(s0: State, s1: State, w: Ref, f: Field, v: Value, b: Ref, s2: State, h: Field, x: Value,
                       p: Ptr, r: Path)
    requires Invariant(s0) && w in s0.ws && Grown(s0, s1, w) && Invariant(s1)
    requires PathFrom(s0.ws, b, w).Some? && b in s1.ws && s1.ws[w].link.Reified? && s1.ws[w].link.msg in s1.ms
    requires
      var set1 := s1.(ms := WithScalar(s1.ms, s1.ws[w].link.msg, f, v));
      Core(set1, NO_GAP) && Grown(set1, s2, b)
    requires p in s0.ms && Find(s0.ms, p, r) == Some(Anchor(s0, w))
    ensures s2.ws[b].link.Reified? && s2.ws[b].link.msg in s2.ms
    ensures
      var path, q := PathOf(s0, w), PathFrom(s0.ws, b, w).value;
      TreeOf(WithScalar(s2.ms, s2.ws[b].link.msg, h, x), p)
      == SetAt(SetAt(TreeOf(s0.ms, p), r, path, f, v), r + path, q, h, x)
  {
    var set1 := s1.(ms := WithScalar(s1.ms, s1.ws[w].link.msg, f, v));
    var q := PathFrom(s0.ws, b, w).value;
    StubStaysBelow(s0, s1, w, f, v, b);
    ExpandoAssignment(s0, s1, w, f, v);
    FoundAfterSetting(s0, s1, w, f, v, p, r);
    WriteThroughStub(set1, w, b, q, s2, h, x);
  }

  /** A stub that waits for another field hangs where it hung. */
  lemma {:induction false} OthersStayBelow(s0: State, s: State, w: Ref, fields: set<Field>, bump: nat, b: Ref)
    requires Core(s0, NO_GAP) && Core(s, NO_GAP) && CutOff(s0, s, w, fields, bump) && w in s0.ws && b in s0.ws
    requires PathFrom(s0.ws, b, w).Some?
    ensures
      var q := PathFrom(s0.ws, b, w).value;
      PathFrom(s.ws, b, w) == if q != [] && q[0] in fields then None else Some(q)
    decreases if b < 0 then 0 else b
  {
    assert CutOffAt(s0, s, w, fields, bump, b) && WrapperOk(s0, b, NO_GAP);
    if b != w {
      assert RegisteredAt(s0.ws, b);
      var p := s0.ws[b].link.parent;
      var q := PathFrom(s0.ws, p, w).value;
      if p == w {
        assert q == [] && [] + [s0.ws[b].link.field] == [s0.ws[b].link.field];
        assert PathFrom(s.ws, w, w) == Some([]);
      } else {
        if q == [] { BottomOfPath(s0.ws, p, w); }
        OthersStayBelow(s0, s, w, fields, bump, p);
        assert (q + [s0.ws[b].link.field])[0] == q[0];
      }
    }
  }

  /**
    A clearing, and then an assignment through a stub that was read before it for
    another field: the leaf is set below w as if nothing had been cleared beside it.
   */
  lemma WriteBesideCleared(s0: State, s: State, w: Ref, fields: set<Field>, bump: nat, b: Ref, s': State, h: Field,
                           x: Value)
    requires Core(s0, NO_GAP) && Invariant(s) && CutOff(s0, s, w, fields, bump) && w in s0.ws && b in s0.ws
    requires w in s.ws && s.ws[w].link.Reified? && b in s.ws && Grown(s, s', b)
    requires PathFrom(s0.ws, b, w).Some? && PathFrom(s0.ws, b, w).value != []
    requires PathFrom(s0.ws, b, w).value[0] !in fields
    ensures s'.ws[b].link.Reified? && s'.ws[b].link.msg in s'.ms
    ensures LeafSet(s.ms, WithScalar(s'.ms, s'.ws[b].link.msg, h, x), s.ws[w].link.msg,
                    PathFrom(s0.ws, b, w).value, h, x)
  {
    OthersStayBelow(s0, s, w, fields, bump, b);
    WriteThroughStub(s, w, b, PathFrom(s0.ws, b, w).value, s', h, x);
  }
}
