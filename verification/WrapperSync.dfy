/**
  Attaching stubs to data that has appeared below them: what adopting one stub
  does, and what a whole traversal of the stubs below a wrapper amounts to.
 */
module WrapperSync {
  import opened Options
  import opened MessageForest
  import opened WrapperGraph

  /** The fields from `top` down to w, if only stubs lie between. */
  ghost function PathFrom(ws: Wrappers, w: Ref, top: Ref): (q: Option<Path>)
    decreases if w < 0 then 0 else w
  {
    if w == top then Some([])
    else if w in ws && ws[w].link.Stub? && 0 <= ws[w].link.parent < w then
      match PathFrom(ws, ws[w].link.parent, top)
      case None => None
      case Some(q) => Some(q + [ws[w].link.field])
    else None
  }

  /** Where w should point once `top`, with data m, has been synchronised. */
  ghost function SyncedLink(s: State, top: Ref, m: Ptr, w: Ref): Link
    requires w in s.ws
  {
    match PathFrom(s.ws, w, top)
    case Some(q) => if q != [] && Find(s.ms, m, q).Some? then Reified(Find(s.ms, m, q).value) else s.ws[w].link
    case None => s.ws[w].link
  }

  ghost predicate SyncedAt(s0: State, s: State, top: Ref, m: Ptr, u: Ref)
    requires u in s.ws
  {
    && u in s0.ws && u in s0.outside && u in s.outside && s.outside[u] == s0.outside[u]
    && s.ws[u].version == s0.ws[u].version
    && s.ws[u].link == SyncedLink(s0, top, m, u)
  }

  /**
    Every surviving stub below `top` whose path is set in the data points at the
    message on that path; every other link, and all data, is as it was.
   */
  ghost predicate Synced(s0: State, s: State, top: Ref, m: Ptr) {
    && s.ms == s0.ms && s.nextRef == s0.nextRef && s.nextPtr == s0.nextPtr
    && (forall u {:trigger SyncedAt(s0, s, top, m, u)} | u in s.ws :: SyncedAt(s0, s, top, m, u))
    && (forall u | u in s0.ws && u in s0.outside && s0.outside[u] > 0 :: u in s.ws)
    && (forall x | x in s.cache :: x in s0.cache || Reaches(s0.ms, m, x))
  }

  /** No wrapper exists yet for the data below the fields that stubs of w wait for. */
  ghost predicate Unwrapped(s: State, w: Ref, m: Ptr)
    requires w in s.ws && m in s.ms
  {
    forall f, x | f in s.ws[w].unset && f in s.ms[m].subs && Reaches(s.ms, s.ms[m].subs[f], x) :: x !in s.cache
  }

  // ----- Adopting one stub -----

  /** The entry for f leaves the table of p and its stub gets the data x. */
  ghost function Adopt(s: State, p: Ref, f: Field, x: Ptr): State
    requires p in s.ws && f in s.ws[p].unset && s.ws[p].unset[f] in s.ws && p in s.outside
  {
    var c := s.ws[p].unset[f];
    s.(ws := s.ws[p := s.ws[p].(unset := s.ws[p].unset - {f})]
                 [c := s.ws[c].(link := Reified(x))],
       cache := s.cache[x := c],
       outside := s.outside[p := s.outside[p] + 1])
  }

  lemma AdoptAt(s: State, p: Ref, f: Field, x: Ptr, broken: set<Ref>, u: Ref)
    requires Core(s, Gap({}, broken, {})) && p in s.ws && f in s.ws[p].unset && x in s.ms && x !in s.cache
    requires s.ws[p].unset[f] in s.ws && p in s.outside && s.ws[s.ws[p].unset[f]].link == Stub(f, p)
    requires s.ws[p].unset[f] != p && u in s.ws
    ensures WrapperOk(Adopt(s, p, f, x), u, Gap({}, broken + {s.ws[p].unset[f]}, {}))
  {
    var s', c := Adopt(s, p, f, x), s.ws[p].unset[f];
    assert WrapperOk(s, u, Gap({}, broken, {}));
    if u == p { assert s'.ws[u].unset.Keys == s.ws[u].unset.Keys - {f}; }
    if s.ws[u].link.Stub? && u != c {
      assert RegisteredAt(s.ws, u);
      assert RegisteredAt(s'.ws, u);
    }
    forall g | g in s'.ws[u].unset ensures EntryOk(s'.ws, u, g, {}) {
      assert EntryOk(s.ws, u, g, {});
    }
  }

  lemma AdoptKeepsCore(s: State, p: Ref, f: Field, x: Ptr, broken: set<Ref>)
    requires Core(s, Gap({}, broken, {})) && p in s.ws && f in s.ws[p].unset && x in s.ms && x !in s.cache
    ensures s.ws[p].unset[f] in s.ws && p in s.outside && s.ws[s.ws[p].unset[f]].link == Stub(f, p)
    ensures p < s.ws[p].unset[f] < s.nextRef
    ensures Core(Adopt(s, p, f, x), Gap({}, broken + {s.ws[p].unset[f]}, {}))
  {
    var gap := Gap({}, broken, {});
    assert WrapperOk(s, p, gap) && EntryOk(s.ws, p, f, {});
    var c := s.ws[p].unset[f];
    assert WrapperOk(s, c, gap) && RegisteredAt(s.ws, c);
    var s', gap' := Adopt(s, p, f, x), Gap({}, broken + {c}, {});
    forall u | u in s'.ws ensures WrapperOk(s', u, gap') {
      AdoptAt(s, p, f, x, broken, u);
    }
    forall m | m in s'.cache ensures CacheEntryOk(s', m) {
      assert m != x ==> CacheEntryOk(s, m);
    }
  }

  /** Once no table entry of w is set in its data, w is whole again. */
  lemma MendCore(s: State, w: Ref, broken: set<Ref>)
    requires Core(s, Gap({}, broken + {w}, {})) && w in s.ws && s.ws[w].link.Reified? && s.ws[w].link.msg in s.ms
    requires s.ws[w].unset.Keys !! s.ms[s.ws[w].link.msg].subs.Keys
    ensures Core(s, Gap({}, broken, {}))
  {
    forall u | u in s.ws ensures WrapperOk(s, u, Gap({}, broken, {})) {
      assert WrapperOk(s, u, Gap({}, broken + {w}, {}));
    }
  }

  lemma BreakCore(s: State, w: Ref, broken: set<Ref>)
    requires Core(s, Gap({}, broken, {}))
    ensures Core(s, Gap({}, broken + {w}, {}))
  {
    forall u | u in s.ws ensures WrapperOk(s, u, Gap({}, broken + {w}, {})) {
      assert WrapperOk(s, u, Gap({}, broken, {}));
    }
  }

  lemma KeptCache(s: State, s': State, gap: Gap, gap': Gap)
    requires Core(s, gap) && Core(s', gap') && Kept(s, s')
    ensures s'.cache.Keys <= s.cache.Keys
  {
    forall x | x in s'.cache ensures x in s.cache {
      assert CacheEntryOk(s', x) && KeptAt(s, s', s'.cache[x]) && WrapperOk(s, s'.cache[x], gap);
    }
  }

  // ----- The traversal -----

  ghost predicate SyncingAt(s0: State, s: State, top: Ref, m: Ptr, seen: set<Field>, u: Ref)
    requires u in s.ws
  {
    && u in s0.ws && u in s0.outside && u in s.outside && s.outside[u] == s0.outside[u]
    && s.ws[u].version == s0.ws[u].version
    && s.ws[u].link ==
       match PathFrom(s0.ws, u, top)
       case Some(q) => if q != [] && q[0] in seen then SyncedLink(s0, top, m, u) else s0.ws[u].link
       case None => s0.ws[u].link
  }

  /** The table entries in `seen` have been dealt with, the others not yet. */
  ghost predicate Syncing(s0: State, s: State, top: Ref, m: Ptr, seen: set<Field>, broken: set<Ref>) {
    && s.ms == s0.ms && s.nextRef == s0.nextRef && s.nextPtr == s0.nextPtr
    && Core(s, Gap({}, broken + {top}, {}))
    && (forall u {:trigger SyncingAt(s0, s, top, m, seen, u)} | u in s.ws :: SyncingAt(s0, s, top, m, seen, u))
    && (forall u | u in s0.ws && u in s0.outside && s0.outside[u] > 0 :: u in s.ws)
    && top in s.ws && top in s0.ws && m in s.ms && s0.ws[top].link == Reified(m)
    && (forall f | f in s.ws[top].unset :: f in s0.ws[top].unset && s.ws[top].unset[f] == s0.ws[top].unset[f])
    && (forall f | f in s.ws[top].unset && f in seen :: f !in s.ms[m].subs)
    && (forall x | x in s.cache && x !in s0.cache ::
          exists f :: f in seen && f in s0.ms[m].subs && Reaches(s0.ms, s0.ms[m].subs[f], x))
  }

  lemma SyncStart(s: State, top: Ref, m: Ptr, broken: set<Ref>)
    requires Core(s, Gap({}, broken + {top}, {})) && top in s.ws && s.ws[top].link == Reified(m)
    ensures Syncing(s, s, top, m, {}, broken)
  {
    assert WrapperOk(s, top, Gap({}, broken + {top}, {}));
    forall u | u in s.ws ensures SyncingAt(s, s, top, m, {}, u) {
      assert WrapperOk(s, u, Gap({}, broken + {top}, {}));
    }
  }

  /** An entry that is not set is skipped. */
  lemma SyncSkip(s0: State, s: State, top: Ref, m: Ptr, seen: set<Field>, broken: set<Ref>, f: Field)
    requires Syncing(s0, s, top, m, seen, broken) && f !in s0.ms[m].subs
    ensures Syncing(s0, s, top, m, seen + {f}, broken)
  {
    forall u | u in s.ws ensures SyncingAt(s0, s, top, m, seen + {f}, u) {
      assert SyncingAt(s0, s, top, m, seen, u);
    }
  }

  /** Below the adopted stub, paths before and after differ by its field. */
  lemma {:induction false} PathBelow(
      s0: State, s: State, s1: State, top: Ref, m: Ptr, seen: set<Field>, broken: set<Ref>, f: Field, x: Ptr, u: Ref)
    requires Adopted(s0, s, s1, top, m, seen, broken, f, x) && u in s1.ws
    ensures PathFrom(s1.ws, u, s.ws[top].unset[f]) ==
            match PathFrom(s0.ws, u, top)
            case None => None
            case Some(q) => if q != [] && q[0] == f then Some(q[1..]) else None
    decreases if u < 0 then 0 else u
  {
    var c := s.ws[top].unset[f];
    assert AdoptedAt(s, s1, top, f, x, u) && SyncingAt(s0, s, top, m, seen, u);
    assert SyncingAt(s0, s, top, m, seen, c);
    assert WrapperOk(s1, u, Gap({}, broken + {top} + {c}, {}));
    if u == top {
    } else if u == c {
      assert s0.ws[c].link == Stub(f, top);
      assert PathFrom(s0.ws, top, top) == Some([]);
      assert [] + [f] == [f] && [f][1..] == [];
    } else if s1.ws[u].link.Stub? {
      assert RegisteredAt(s1.ws, u);
      PathBelow(s0, s, s1, top, m, seen, broken, f, x, s1.ws[u].link.parent);
      var p := s1.ws[u].link.parent;
      if PathFrom(s0.ws, p, top).Some? {
        var q := PathFrom(s0.ws, p, top).value;
        var g := s1.ws[u].link.field;
        if q == [] {
          assert p == top;
        } else {
          assert (q + [g])[1..] == q[1..] + [g];
        }
      }
    } else {
    }
  }

  ghost predicate AdoptedAt(s: State, s1: State, top: Ref, f: Field, x: Ptr, u: Ref)
    requires u in s1.ws && top in s.ws && f in s.ws[top].unset
  {
    && u in s.ws && u in s.outside && u in s1.outside && s1.outside[u] == s.outside[u]
    && s1.ws[u].version == s.ws[u].version
    && s1.ws[u].link == if u == s.ws[top].unset[f] then Reified(x) else s.ws[u].link
  }

  /** The state between adopting the stub of field f and synchronising below it. */
  ghost predicate Adopted(
      s0: State, s: State, s1: State, top: Ref, m: Ptr, seen: set<Field>, broken: set<Ref>, f: Field, x: Ptr)
  {
    && Syncing(s0, s, top, m, seen, broken)
    && f !in seen && f in s.ws[top].unset && f in s0.ms[m].subs && s0.ms[m].subs[f] == x && x in s.ms
    && s.ws[top].unset[f] in s.ws && s.ws[s.ws[top].unset[f]].link == Stub(f, top) && 0 <= top < s.ws[top].unset[f]
    && s1.ms == s.ms && s1.nextRef == s.nextRef && s1.nextPtr == s.nextPtr
    && Core(s1, Gap({}, broken + {top} + {s.ws[top].unset[f]}, {}))
    && (forall u {:trigger AdoptedAt(s, s1, top, f, x, u)} | u in s1.ws :: AdoptedAt(s, s1, top, f, x, u))
    && (forall u | u in s.ws && u in s.outside && s.outside[u] > 0 :: u in s1.ws)
    && s1.cache.Keys <= s.cache.Keys + {x}
    && top in s1.ws && s.ws[top].unset[f] in s1.ws
    && (forall g | g in s1.ws[top].unset :: g in s.ws[top].unset && g != f && s1.ws[top].unset[g] == s.ws[top].unset[g])
  }

  lemma AdoptStep(
      s0: State, s: State, s1: State, top: Ref, m: Ptr, seen: set<Field>, broken: set<Ref>, f: Field, x: Ptr)
    requires Syncing(s0, s, top, m, seen, broken) && top in s.outside && s.outside[top] > 0
    requires f !in seen && f in s.ws[top].unset && f in s0.ms[m].subs && s0.ms[m].subs[f] == x
    requires x in s.ms && x !in s.cache
    requires s.ws[top].unset[f] in s.ws && s.ws[s.ws[top].unset[f]].link == Stub(f, top)
    requires 0 <= top < s.ws[top].unset[f] && s.ws[top].refcnt > 1
    requires s1 == Recount(Adopt(s, top, f, x), top, -1)
    requires Core(s1, Gap({}, broken + {top} + {s.ws[top].unset[f]}, {}))
    ensures Adopted(s0, s, s1, top, m, seen, broken, f, x)
  {
    forall u | u in s1.ws ensures AdoptedAt(s, s1, top, f, x, u) {
      assert SyncingAt(s0, s, top, m, seen, u);
    }
  }

  /** The data below a newly adopted stub has no wrappers yet. */
  lemma AdoptedIsUnwrapped(
      s0: State, s: State, s1: State, top: Ref, m: Ptr, seen: set<Field>, broken: set<Ref>, f: Field, x: Ptr)
    requires Syncing(s0, s, top, m, seen, broken) && Forest(s0.ms) && Unwrapped(s0, top, m)
    requires f !in seen && f in s.ws[top].unset && f in s0.ms[m].subs && s0.ms[m].subs[f] == x
    ensures x in s.ms && x !in s.cache && forall y | Reaches(s.ms, x, y) :: y !in s.cache
  {
    assert Find(s.ms, x, []) == Some(x);
    forall y | Reaches(s.ms, x, y) ensures y !in s.cache {
      if y in s.cache {
        assert y !in s0.cache;
        var g :| g in seen && g in s0.ms[m].subs && Reaches(s0.ms, s0.ms[m].subs[g], y);
        SubtreesDisjoint(s0.ms, m, f, g, y);
      }
    }
  }

  lemma NestedIsUnwrapped(s: State, s1: State, c: Ref, x: Ptr)
    requires Forest(s.ms) && s1.ms == s.ms && x in s.ms && c in s1.ws
    requires s1.cache.Keys <= s.cache.Keys + {x}
    requires forall y | Reaches(s.ms, x, y) :: y !in s.cache
    ensures Unwrapped(s1, c, x)
  {
    forall g, y | g in s1.ws[c].unset && g in s1.ms[x].subs && Reaches(s1.ms, s1.ms[x].subs[g], y)
      ensures y !in s1.cache
    {
      var q :| Find(s1.ms, s1.ms[x].subs[g], q) == Some(y);
      assert ([g] + q)[1..] == q;
      assert Find(s1.ms, x, [g] + q) == Some(y);
      NotBelowItself(s1.ms, x, g);
    }
  }

  lemma SyncNextAt(
      s0: State, s: State, s1: State, s2: State, top: Ref, m: Ptr, seen: set<Field>,
      broken: set<Ref>, f: Field, x: Ptr, u: Ref)
    requires Adopted(s0, s, s1, top, m, seen, broken, f, x) && Synced(s1, s2, s.ws[top].unset[f], x)
    requires u in s2.ws
    ensures SyncingAt(s0, s2, top, m, seen + {f}, u)
  {
    var c := s.ws[top].unset[f];
    assert SyncedAt(s1, s2, c, x, u) && AdoptedAt(s, s1, top, f, x, u) && SyncingAt(s0, s, top, m, seen, u);
    PathBelow(s0, s, s1, top, m, seen, broken, f, x, u);
    if PathFrom(s0.ws, u, top).Some? {
      var q := PathFrom(s0.ws, u, top).value;
      if q != [] && q[0] == f {
        assert q == [f] + q[1..];
        assert Find(s0.ms, m, q) == Find(s0.ms, x, q[1..]);
        assert s.ws[u].link == s0.ws[u].link;
        if q[1..] == [] {
          assert PathFrom(s1.ws, u, c) == Some([]);
          BottomOfPath(s1.ws, u, c);
        }
      }
    }
  }

  lemma {:induction false} BottomOfPath(ws: Wrappers, u: Ref, c: Ref)
    requires PathFrom(ws, u, c) == Some([])
    ensures u == c
  {
  }

  lemma SyncNext(
      s0: State, s: State, s1: State, s2: State, top: Ref, m: Ptr, seen: set<Field>, broken: set<Ref>, f: Field, x: Ptr)
    requires Adopted(s0, s, s1, top, m, seen, broken, f, x) && Synced(s1, s2, s.ws[top].unset[f], x)
    requires Core(s2, Gap({}, broken + {top}, {}))
    requires top in s.outside && s.outside[top] > 0
    ensures Syncing(s0, s2, top, m, seen + {f}, broken)
  {
    var c := s.ws[top].unset[f];
    assert AdoptedAt(s, s1, top, f, x, top);
    forall u | u in s2.ws ensures SyncingAt(s0, s2, top, m, seen + {f}, u) {
      SyncNextAt(s0, s, s1, s2, top, m, seen, broken, f, x, u);
    }
    forall u | u in s0.ws && u in s0.outside && s0.outside[u] > 0 ensures u in s2.ws {
      assert SyncingAt(s0, s, top, m, seen, u) && AdoptedAt(s, s1, top, f, x, u);
    }
    forall g | g in s2.ws[top].unset ensures g in s1.ws[top].unset && s2.ws[top].unset[g] == s1.ws[top].unset[g] {
      TableShrinks(s1, s2, c, x, top, g, Gap({}, broken + {top} + {c}, {}), Gap({}, broken + {top}, {}));
    }
    forall y | y in s2.cache && y !in s0.cache
      ensures exists g :: g in seen + {f} && g in s0.ms[m].subs && Reaches(s0.ms, s0.ms[m].subs[g], y)
    {
      if y in s.cache {
        var g :| g in seen && g in s0.ms[m].subs && Reaches(s0.ms, s0.ms[m].subs[g], y);
        assert g in seen + {f};
      } else {
        assert Find(s0.ms, x, []) == Some(x);
        assert Reaches(s0.ms, s0.ms[m].subs[f], y) && f in seen + {f};
      }
    }
  }

  lemma TableShrinks(s1: State, s2: State, c: Ref, x: Ptr, top: Ref, g: Field, gap1: Gap, gap2: Gap)
    requires Core(s1, gap1) && Core(s2, gap2) && gap1.holes == {} && gap2.holes == {}
    requires Synced(s1, s2, c, x) && top in s2.ws && g in s2.ws[top].unset
    ensures top in s1.ws && g in s1.ws[top].unset && s2.ws[top].unset[g] == s1.ws[top].unset[g]
  {
    assert WrapperOk(s2, top, gap2) && EntryOk(s2.ws, top, g, {}) && SyncedAt(s1, s2, c, x, top);
    var d := s2.ws[top].unset[g];
    assert SyncedAt(s1, s2, c, x, d);
    assert s1.ws[d].link == Stub(g, top);
    assert WrapperOk(s1, d, gap1) && RegisteredAt(s1.ws, d);
  }

  /** A stub that has not been dealt with is still reachable through the table. */
  lemma {:induction false} TopEntryLives(
      s0: State, s: State, top: Ref, m: Ptr, seen: set<Field>, broken: set<Ref>, u: Ref)
    requires Syncing(s0, s, top, m, seen, broken) && u in s.ws
    requires PathFrom(s0.ws, u, top).Some? && PathFrom(s0.ws, u, top).value != []
    requires PathFrom(s0.ws, u, top).value[0] !in seen
    ensures PathFrom(s0.ws, u, top).value[0] in s.ws[top].unset
    decreases if u < 0 then 0 else u
  {
    assert SyncingAt(s0, s, top, m, seen, u);
    assert WrapperOk(s, u, Gap({}, broken + {top}, {})) && RegisteredAt(s.ws, u);
    var p := s.ws[u].link.parent;
    var q := PathFrom(s0.ws, p, top).value;
    if q == [] {
      BottomOfPath(s0.ws, p, top);
    } else {
      TopEntryLives(s0, s, top, m, seen, broken, p);
    }
  }

  lemma SyncEnd(s0: State, s: State, top: Ref, m: Ptr, seen: set<Field>, broken: set<Ref>)
    requires Syncing(s0, s, top, m, seen, broken) && s.ws[top].unset.Keys <= seen
    ensures Core(s, Gap({}, broken, {})) && Synced(s0, s, top, m)
  {
    assert SyncingAt(s0, s, top, m, seen, top) && s.ws[top].link == Reified(m);
    forall f | f in s.ws[top].unset ensures f !in s.ms[m].subs {
      assert f in s.ws[top].unset.Keys && f in seen;
    }
    MendCore(s, top, broken);
    forall u | u in s.ws ensures SyncedAt(s0, s, top, m, u) {
      assert SyncingAt(s0, s, top, m, seen, u);
      if PathFrom(s0.ws, u, top).Some? && PathFrom(s0.ws, u, top).value != []
         && PathFrom(s0.ws, u, top).value[0] !in seen {
        TopEntryLives(s0, s, top, m, seen, broken, u);
      }
    }
    forall y | y in s.cache && y !in s0.cache ensures Reaches(s0.ms, m, y) {
      var g :| g in seen && g in s0.ms[m].subs && Reaches(s0.ms, s0.ms[m].subs[g], y);
      var q :| Find(s0.ms, s0.ms[m].subs[g], q) == Some(y);
      assert ([g] + q)[1..] == q;
      assert Find(s0.ms, m, [g] + q) == Some(y);
    }
  }

  /** Letting go of the references taken for the traversal. */
  lemma SyncedThenKept(s0: State, s: State, top: Ref, m: Ptr, broken: set<Ref>, s': State)
    requires top in s0.ws && top in s0.outside
    requires Synced(Recount(s0, top, 1), s, top, m) && Core(s, Gap({}, broken, {}))
    requires top in s.ws && top in s.outside && s.outside[top] > 0 && s.ws[top].refcnt > 0
    requires Kept(Recount(s, top, -1), s') && Core(s', Gap({}, broken, {}))
    ensures Synced(s0, s', top, m)
  {
    var s1, t := Recount(s0, top, 1), Recount(s, top, -1);
    RecountOk(s, top, -1, Gap({}, broken, {}));
    KeptCache(t, s', Gap({}, broken, if s.ws[top].refcnt == 1 then {top} else {}), Gap({}, broken, {}));
    forall u | u in s'.ws ensures SyncedAt(s0, s', top, m, u) {
      assert KeptAt(t, s', u) && SyncedAt(s1, s, top, m, u);
      SamePaths(s0.ws, s1.ws, u, top);
    }
    forall u | u in s0.ws && u in s0.outside && s0.outside[u] > 0 ensures u in s'.ws {
      assert SyncedAt(s1, s, top, m, u);
    }
  }

  lemma {:induction false} SamePaths(ws: Wrappers, ws': Wrappers, u: Ref, top: Ref)
    requires ws.Keys == ws'.Keys && forall v | v in ws :: ws'[v].link == ws[v].link
    ensures PathFrom(ws, u, top) == PathFrom(ws', u, top)
    decreases if u < 0 then 0 else u
  {
    if u != top && u in ws && ws[u].link.Stub? && 0 <= ws[u].link.parent < u {
      SamePaths(ws, ws', ws[u].link.parent, top);
    }
  }

  // ----- Steps of Reify and Clear -----

  /** The entry for f leaves the table of p; its reference is now the caller's. */
  ghost function Delist(s: State, p: Ref, f: Field): State
    requires p in s.ws && p in s.outside
  {
    s.(ws := s.ws[p := s.ws[p].(unset := s.ws[p].unset - {f})],
       outside := s.outside[p := s.outside[p] + 1])
  }

  /** The data a reified stub gets: what the field holds, or a new empty message. */
  ghost function WithData(s: State, msg: Option<Ptr>): State {
    if msg.Some? then s else s.(ms := s.ms[s.nextPtr := EMPTY], nextPtr := s.nextPtr + 1)
  }

  ghost function DataOf(s: State, msg: Option<Ptr>): Ptr {
    if msg.Some? then msg.value else s.nextPtr
  }

  lemma WithDataOk(s: State, msg: Option<Ptr>, gap: Gap)
    requires Core(s, gap) && Forest(s.ms)
    requires msg.Some? ==> msg.value in s.ms && forall y | Reaches(s.ms, msg.value, y) :: y !in s.cache
    ensures Core(WithData(s, msg), gap) && Forest(WithData(s, msg).ms)
    ensures DataOf(s, msg) in WithData(s, msg).ms && DataOf(s, msg) !in s.cache
    ensures forall y | Reaches(WithData(s, msg).ms, DataOf(s, msg), y) :: y !in s.cache
  {
    AddressesAreFresh(s, gap);
    var x, s' := DataOf(s, msg), WithData(s, msg);
    if msg.None? {
      forall u | u in s'.ws ensures WrapperOk(s', u, gap) { assert WrapperOk(s, u, gap); }
      forall e | e in gap.holes ensures HoleOk(s', e) { assert HoleOk(s, e); }
      forall m | m in s'.cache ensures CacheEntryOk(s', m) { assert CacheEntryOk(s, m); }
      var d :| Ranked(s.ms, d);
      assert Ranked(s'.ms, d[x := 0]);
    } else {
      assert Find(s.ms, x, []) == Some(x);
    }
  }

  ghost predicate ClearingAt(s0: State, s: State, top: Ref, u: Ref)
    requires u in s.ws
  {
    && u in s0.ws && u in s0.outside && u in s.outside && s.outside[u] == s0.outside[u]
    && s.ws[u].version == s0.ws[u].version
    && (s.ws[u].link == s0.ws[u].link ||
        (s0.ws[u].link.Stub? && s0.ws[u].link.parent == top && s.ws[u].link.Reified?
         && s.ws[u].link.msg !in s0.ms && s.ws[u].link.msg in s.ms && s.ms[s.ws[u].link.msg] == EMPTY))
  }

  /** Some stubs of `top` have been given empty messages of their own. */
  ghost predicate Clearing(s0: State, s: State, top: Ref) {
    && Invariant(s)
    && (forall u {:trigger ClearingAt(s0, s, top, u)} | u in s.ws :: ClearingAt(s0, s, top, u))
    && (forall u | u in s0.ws && u in s0.outside && s0.outside[u] > 0 :: u in s.ws)
    && (forall m | m in s0.ms :: m in s.ms && s.ms[m] == s0.ms[m])
    && s0.nextPtr <= s.nextPtr && s0.nextRef == s.nextRef
    && top in s0.ws && s0.ws[top].link.Reified? && top in s0.outside && s0.outside[top] > 0
    && (forall m | m in s0.ms :: m < s0.nextPtr)
  }

  lemma ClearingStart(s: State, top: Ref)
    requires Invariant(s) && top in s.ws && s.ws[top].link.Reified? && top in s.outside && s.outside[top] > 0
    ensures Clearing(s, s, top)
  {
    forall u | u in s.ws ensures ClearingAt(s, s, top, u) {
      assert WrapperOk(s, u, NO_GAP);
    }
  }

  lemma {:induction false} NothingToSync(s1: State, c: Ref, x: Ptr, u: Ref)
    requires x in s1.ms && s1.ms[x] == EMPTY && u in s1.ws
    ensures SyncedLink(s1, c, x, u) == s1.ws[u].link
  {
  }

  /** The wrappers after one entry of the table has been dealt with. */
  lemma ClearingWrappers(s0: State, s: State, top: Ref, f: Field, s1: State, s2: State)
    requires Clearing(s0, s, top) && top in s.ws && f in s.ws[top].unset && s.ws[top].unset[f] in s.ws
    requires s.ws[s.ws[top].unset[f]].link == Stub(f, top) && top in s.outside && s.ws[top].refcnt > 1
    requires s1 == Recount(Adopt(WithData(s, None), top, f, s.nextPtr), top, -1)
    requires Synced(s1, s2, s.ws[top].unset[f], s.nextPtr)
    ensures forall u {:trigger ClearingAt(s0, s2, top, u)} | u in s2.ws :: ClearingAt(s0, s2, top, u)
    ensures forall u | u in s0.ws && u in s0.outside && s0.outside[u] > 0 :: u in s2.ws
  {
    var c, x := s.ws[top].unset[f], s.nextPtr;
    assert s1.ms[x] == EMPTY;
    forall u | u in s2.ws ensures ClearingAt(s0, s2, top, u) {
      assert SyncedAt(s1, s2, c, x, u) && ClearingAt(s0, s, top, u);
      NothingToSync(s1, c, x, u);
    }
    forall u | u in s0.ws && u in s0.outside && s0.outside[u] > 0 ensures u in s2.ws {
      assert ClearingAt(s0, s, top, u);
    }
  }

  /** The table loses at least the entry that has been dealt with, and stays clear of the fields that are set. */
  lemma ClearingTable(s: State, top: Ref, f: Field, s1: State, s2: State)
    requires Invariant(s) && top in s.ws && s.ws[top].link.Reified?
             && f in s.ws[top].unset && s.ws[top].unset[f] in s.ws
    requires s.ws[s.ws[top].unset[f]].link == Stub(f, top) && top in s.outside && s.ws[top].refcnt > 1
    requires s1 == Recount(Adopt(WithData(s, None), top, f, s.nextPtr), top, -1)
    requires Core(s2, Gap({}, {} + {top}, {})) && Synced(s1, s2, s.ws[top].unset[f], s.nextPtr) && top in s2.ws
    ensures s2.ws[top].link == s.ws[top].link && s2.ws[top].unset.Keys <= s.ws[top].unset.Keys - {f}
    ensures s.ws[top].link.msg in s2.ms && s2.ms[s.ws[top].link.msg].subs.Keys !! s2.ws[top].unset.Keys
  {
    var c, x := s.ws[top].unset[f], s.nextPtr;
    assert WrapperOk(s, top, NO_GAP) && SyncedAt(s1, s2, c, x, top);
    assert s1.ms[x] == EMPTY;
    NothingToSync(s1, c, x, top);
    AdoptAgain(s, top, f);
    var gap1, gap2 := Gap({}, {} + {top} + {c}, {}), Gap({}, {} + {top}, {});
    forall g | g in s2.ws[top].unset ensures g in s.ws[top].unset && g != f {
      TableShrinks(s1, s2, c, x, top, g, gap1, gap2);
    }
  }

  /** One stub more has been given an empty message; it had nothing to attach below. */
  lemma ClearingStep(s0: State, s: State, top: Ref, f: Field, s1: State, s2: State)
    requires Clearing(s0, s, top) && top in s.ws && f in s.ws[top].unset && s.ws[top].unset[f] in s.ws
    requires s.ws[s.ws[top].unset[f]].link == Stub(f, top) && top in s.outside && s.ws[top].refcnt > 1
    requires s1 == Recount(Adopt(WithData(s, None), top, f, s.nextPtr), top, -1)
    requires Forest(s1.ms) && s.ws[top].link == s0.ws[top].link
    requires Core(s2, Gap({}, {} + {top}, {})) && Synced(s1, s2, s.ws[top].unset[f], s.nextPtr)
    ensures Clearing(s0, s2, top) && top in s2.ws && s2.ws[top].unset.Keys <= s.ws[top].unset.Keys - {f}
  {
    ClearingWrappers(s0, s, top, f, s1, s2);
    assert ClearingAt(s0, s, top, top);
    ClearingTable(s, top, f, s1, s2);
    MendCore(s2, top, {});
  }

  lemma AdoptAgain(s: State, top: Ref, f: Field)
    requires Invariant(s) && top in s.ws && f in s.ws[top].unset && s.ws[top].unset[f] in s.ws
    requires s.ws[s.ws[top].unset[f]].link == Stub(f, top) && top in s.outside && s.ws[top].refcnt > 1
    ensures Core(Recount(Adopt(WithData(s, None), top, f, s.nextPtr), top, -1),
                 Gap({}, {} + {top} + {s.ws[top].unset[f]}, {}))
  {
    var b := WithData(s, None);
    WithDataOk(s, None, NO_GAP);
    BreakCore(b, top, {});
    AdoptKeepsCore(b, top, f, s.nextPtr, {} + {top});
    var t := Adopt(b, top, f, s.nextPtr);
    assert WrapperOk(t, top, Gap({}, {} + {top} + {s.ws[top].unset[f]}, {}));
    RecountOk(t, top, -1, Gap({}, {} + {top} + {s.ws[top].unset[f]}, {}));
  }

  lemma ClearingIsSteady(s: State, s0: State, s': State, top: Ref)
    requires Core(s, NO_GAP) && Core(s0, NO_GAP) && Steady(s, s0) && Clearing(s0, s', top)
    ensures Steady(s, s')
  {
    forall u | u in s'.ws ensures SteadyAt(s0, s', u) {
      assert ClearingAt(s0, s', top, u) && WrapperOk(s0, u, NO_GAP);
    }
    SteadyTrans(s, s0, s');
  }

  lemma SyncedIsSteady(s: State, s0: State, s': State, top: Ref, m: Ptr)
    requires Core(s, NO_GAP) && Steady(s, s0) && Synced(s0, s', top, m)
    requires forall u | u in s0.ws :: u < s0.nextRef
    ensures Steady(s, s')
  {
    forall u | u in s'.ws ensures SteadyAt(s0, s', u) {
      assert SyncedAt(s0, s', top, m, u);
      if s0.ws[u].link.Reified? { TopIsUnchanged(s0, top, m, u); }
    }
    SteadyTrans(s, s0, s');
  }

  lemma {:induction false} TopIsUnchanged(s0: State, top: Ref, m: Ptr, u: Ref)
    requires u in s0.ws && s0.ws[u].link.Reified?
    ensures SyncedLink(s0, top, m, u) == s0.ws[u].link
  {
  }

  // ----- Copying -----

  /**
    What the foreign deep copy does if the source does not contain the target:
    message dst is rebuilt out of new messages and equals src, the others stay.
   */
  ghost predicate DeepCopied(ms: Arena, next: Ptr, dst: Ptr, src: Ptr, ms': Arena, next': Ptr) {
    && Forest(ms') && next <= next' && dst in ms && dst in ms'
    && (forall m | m in ms' :: m < next' && (m !in ms ==> next <= m))
    && (forall m | m in ms && m != dst :: m in ms' && ms'[m] == ms[m])
    && (forall f, x | f in ms'[dst].subs && Reaches(ms', ms'[dst].subs[f], x) :: x !in ms)
    && TreeOf(ms', dst) == TreeOf(ms, src)
  }

  /** The foreign copy, wherever it is asked to copy what does not contain the target. */
  ghost predicate CopiesApart(copy: (Arena, Ptr, Ptr, Ptr) -> (Arena, Ptr)) {
    forall ms, next, dst, src | Forest(ms) && dst in ms && src in ms && !Reaches(ms, src, dst) ::
      DeepCopied(ms, next, dst, src, copy(ms, next, dst, src).0, copy(ms, next, dst, src).1)
  }

  lemma CopyOk(s: State, self: Ref, m: Ptr, src: Ptr, ms': Arena, next': Ptr)
    requires Invariant(s) && self in s.ws && s.ws[self].link == Reified(m)
    requires DeepCopied(s.ms, s.nextPtr, m, src, ms', next')
    ensures Core(s.(ms := ms', nextPtr := next'), Gap({}, {} + {self}, {}))
    ensures m in ms' && Unwrapped(s.(ms := ms', nextPtr := next'), self, m)
  {
    var s' := s.(ms := ms', nextPtr := next');
    AddressesAreFresh(s, NO_GAP);
    forall u | u in s'.ws ensures WrapperOk(s', u, Gap({}, {} + {self}, {})) {
      assert WrapperOk(s, u, NO_GAP) && WrapperOk(s, self, NO_GAP);
    }
    forall x | x in s'.cache ensures CacheEntryOk(s', x) {
      assert CacheEntryOk(s, x);
    }
  }

  /** Clear, up to the clearing of the message itself: reify, then empty the table. */
  lemma ClearedSoFar(s0: State, s1: State, s2: State, w: Ref)
    requires Invariant(s0) && Invariant(s1) && w in s0.ws && Grown(s0, s1, w)
    requires w in s1.ws && s1.ws[w].link.Reified? && Clearing(s1, s2, w) && w in s2.ws
    ensures Steady(s0, s2) && s2.ws[w].link == s1.ws[w].link && s2.ws[w].link.msg in s2.ms
    ensures Emptied(s0.ms, s2.ms[s2.ws[w].link.msg := EMPTY], Anchor(s0, w), PathOf(s0, w))
  {
    GrownIsSteady(s0, s1, w);
    assert WrapperOk(s1, w, NO_GAP) && ClearingAt(s1, s2, w, w);
    ClearingIsSteady(s0, s1, s2, w);
    ClearWhole(s0, s1, w, s2.ms);
  }

  /** Every message above a sees the copy at the end of the path; no other message changes. */
  ghost predicate CopiedInto(ms: Arena, ms': Arena, a: Ptr, path: Path, copied: Tree) {
    forall p | p in ms ::
      && (forall r | Find(ms, p, r) == Some(a) ::
            TreeOf(ms', p) == SubstAt(AddPath(TreeOf(ms, p), r, path), r + path, copied))
      && (!Reaches(ms, p, a) ==> TreeOf(ms', p) == TreeOf(ms, p))
  }

  /** Growing the way to w and then rebuilding its data. */
  lemma CopiedAfterGrowth(s0: State, s: State, w: Ref, ms': Arena)
    requires Invariant(s0) && w in s0.ws && Grown(s0, s, w)
    requires s.ws[w].link.Reified? && OnlyChanges(s.ms, ms', s.ws[w].link.msg)
    ensures CopiedInto(s0.ms, ms', Anchor(s0, w), PathOf(s0, w), TreeOf(ms', s.ws[w].link.msg))
  {
    var a, path, x := Anchor(s0, w), PathOf(s0, w), s.ws[w].link.msg;
    forall p | p in s0.ms
      ensures forall r | Find(s0.ms, p, r) == Some(a) ::
                TreeOf(ms', p) == SubstAt(AddPath(TreeOf(s0.ms, p), r, path), r + path, TreeOf(ms', x))
      ensures !Reaches(s0.ms, p, a) ==> TreeOf(ms', p) == TreeOf(s0.ms, p)
    {
      GrownTree(s0, s, w, p);
      ReplacedTree(s.ms, ms', x, p);
    }
  }

  lemma EmptiedTwice(ms0: Arena, ms: Arena, ms': Arena, x: Ptr, p: Ptr, r: Path, path: Path)
    requires p in ms && x in ms && Find(ms, p, r + path) == Some(x) && Emptied(ms, ms', x, [])
    requires TreeOf(ms, p) == AddPath(TreeOf(ms0, p), r, path)
    ensures TreeOf(ms', p) == EmptiedAt(TreeOf(ms0, p), r, path)
  {
    AddNothing(ms, p, r + path);
    assert r + path + [] == r + path;
  }

  /** Growing the way to w and then emptying its data. */
  lemma EmptiedAfterGrowth(s0: State, s: State, w: Ref, ms': Arena)
    requires Invariant(s0) && w in s0.ws && Grown(s0, s, w)
    requires s.ws[w].link.Reified? && Emptied(s.ms, ms', s.ws[w].link.msg, [])
    ensures Emptied(s0.ms, ms', Anchor(s0, w), PathOf(s0, w))
  {
    var a, path, x := Anchor(s0, w), PathOf(s0, w), s.ws[w].link.msg;
    forall p | p in s0.ms
      ensures forall r | Find(s0.ms, p, r) == Some(a) :: TreeOf(ms', p) == EmptiedAt(TreeOf(s0.ms, p), r, path)
      ensures !Reaches(s0.ms, p, a) ==> TreeOf(ms', p) == TreeOf(s0.ms, p)
    {
      GrownTree(s0, s, w, p);
      forall r | Find(s0.ms, p, r) == Some(a) ensures TreeOf(ms', p) == EmptiedAt(TreeOf(s0.ms, p), r, path) {
        EmptiedTwice(s0.ms, s.ms, ms', x, p, r, path);
      }
    }
  }

  // ----- Stubs below a wrapper that grows -----

  lemma {:induction false} StubsAreBelow(ws: Wrappers, u: Ref, top: Ref)
    requires PathFrom(ws, u, top).Some?
    ensures u == top || top < u
    decreases if u < 0 then 0 else u
  {
    if u != top { StubsAreBelow(ws, ws[u].link.parent, top); }
  }

  lemma {:induction false} PathFromGrown(s0: State, s: State, w: Ref, u: Ref)
    requires Core(s0, NO_GAP) && w in s0.ws && Grown(s0, s, w) && Core(s, NO_GAP)
    requires u in s.ws && PathFrom(s0.ws, u, w).Some?
    ensures PathFrom(s.ws, u, w) == PathFrom(s0.ws, u, w)
    ensures u != w ==> u in s0.ws && s.ws[u].link == s0.ws[u].link
    decreases if u < 0 then 0 else u
  {
    if u != w {
      var refs := Ancestry(s0, w);
      StubsAreBelow(s0.ws, u, w);
      ChainsEndReified(s0, w);
      assert GrownAt(s0, s, refs, w, u);
      assert u !in refs[1..];
      assert WrapperOk(s, u, NO_GAP) && RegisteredAt(s.ws, u);
      PathFromGrown(s0, s, w, s0.ws[u].link.parent);
    }
  }

  /** The stubs that lay below w are attached to its data, or wait on. */
  ghost predicate AttachedAt(s0: State, s: State, w: Ref, m: Ptr, u: Ref)
    requires u in s.ws
  {
    forall q | PathFrom(s0.ws, u, w) == Some(q) && q != [] ::
      && u in s0.ws
      && s.ws[u].link == if Find(s.ms, m, q).Some? then Reified(Find(s.ms, m, q).value) else s0.ws[u].link
  }

  ghost predicate StubsAttached(s0: State, s: State, w: Ref, m: Ptr) {
    forall u {:trigger AttachedAt(s0, s, w, m, u)} | u in s.ws :: AttachedAt(s0, s, w, m, u)
  }

  lemma SyncedIsAttached(s0: State, s1: State, w: Ref, m: Ptr, s2: State, s: State)
    requires Core(s0, NO_GAP) && w in s0.ws && Grown(s0, s1, w) && Core(s1, NO_GAP)
    requires s2.ws == s1.ws && Synced(s2, s, w, m)
    ensures StubsAttached(s0, s, w, m)
  {
    forall u | u in s.ws ensures AttachedAt(s0, s, w, m, u) {
      assert SyncedAt(s2, s, w, m, u);
      if PathFrom(s0.ws, u, w).Some? {
        PathFromGrown(s0, s1, w, u);
        if u == w { assert PathFrom(s0.ws, u, w) == Some([]); }
      }
    }
  }
}
