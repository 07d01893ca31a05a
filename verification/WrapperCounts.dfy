/** What reifying does to counts and tables: one reference is taken from each former ancestor. */
module WrapperCounts {
  import opened MessageForest
  import opened WrapperGraph

  /** The table entry of the next stub on the way down, which reifying takes out. */
  ghost predicate TakenAt(refs: seq<Ref>, path: Path, u: Ref, f: Field, i: nat) {
    i < |path| && i < |refs| && refs[i] == u && path[i] == f
  }

  ghost predicate Taken(refs: seq<Ref>, path: Path, u: Ref, f: Field) {
    exists i :: TakenAt(refs, path, u, f, i)
  }

  lemma {:induction false} AncestryTrans(s: State, w: Ref, x: Ref, c: Ref)
    requires Core(s, NO_GAP) && w in s.ws && x in s.ws && x in Ancestry(s, w) && c in Ancestry(s, x)
    ensures c in Ancestry(s, w)
    decreases if w < 0 then 0 else w
  {
    assert WrapperOk(s, w, NO_GAP);
    if x != w {
      assert RegisteredAt(s.ws, w);
      AncestryTrans(s, s.ws[w].link.parent, x, c);
    }
  }

  lemma OffChainKeepsLink(s0: State, s: State, w: Ref, u: Ref)
    requires Core(s0, NO_GAP) && w in s0.ws && Grown(s0, s, w) && u in s.ws && u !in Ancestry(s0, w)
    ensures u in s0.ws && s.ws[u].link == s0.ws[u].link
  {
    assert GrownAt(s0, s, Ancestry(s0, w), w, u);
  }

  /** What hangs beside the chain survives with whatever holds it from outside. */
  lemma {:induction false} SideSurvives(s0: State, s: State, w: Ref, c: Ref, held: Ref)
    requires Core(s0, NO_GAP) && w in s0.ws && Grown(s0, s, w) && Core(s, NO_GAP)
    requires held in s0.ws && held in s.ws && c in Ancestry(s0, held) && c !in Ancestry(s0, w)
    ensures c in s.ws
    decreases if held < 0 then 0 else held
  {
    assert WrapperOk(s0, held, NO_GAP);
    if held != c {
      assert RegisteredAt(s0.ws, held);
      if held in Ancestry(s0, w) { AncestryTrans(s0, w, held, c); }
      OffChainKeepsLink(s0, s, w, held);
      assert WrapperOk(s, held, NO_GAP) && RegisteredAt(s.ws, held);
      SideSurvives(s0, s, w, c, s0.ws[held].link.parent);
    }
  }

  /** A stub on the chain is the child of the wrapper before it. */
  lemma ChildOnChain(s0: State, w: Ref, c: Ref)
    requires Core(s0, NO_GAP) && w in s0.ws && c in s0.ws && s0.ws[c].link.Stub? && c in Ancestry(s0, w)
    ensures Taken(Ancestry(s0, w), PathOf(s0, w), s0.ws[c].link.parent, s0.ws[c].link.field)
  {
    var refs, path := Ancestry(s0, w), PathOf(s0, w);
    ChainsEndReified(s0, w);
    var k: nat :| k < |refs| && refs[k] == c;
    assert LinkAt(s0, refs, path, k);
    assert TakenAt(refs, path, refs[k - 1], path[k - 1], k - 1);
  }

  lemma TakenIsOnChain(s0: State, w: Ref, u: Ref, f: Field)
    requires Core(s0, NO_GAP) && w in s0.ws && Taken(Ancestry(s0, w), PathOf(s0, w), u, f)
    ensures u in s0.ws && f in s0.ws[u].unset && s0.ws[u].unset[f] in Ancestry(s0, w)[1..]
  {
    var refs, path := Ancestry(s0, w), PathOf(s0, w);
    ChainsEndReified(s0, w);
    var i: nat :| TakenAt(refs, path, u, f, i);
    assert LinkAt(s0, refs, path, i + 1) && WrapperOk(s0, refs[i + 1], NO_GAP) && RegisteredAt(s0.ws, refs[i + 1]);
    assert refs[1..][i] == refs[i + 1];
  }

  lemma TableOnlyLoses(s0: State, s: State, w: Ref, u: Ref, f: Field)
    requires Core(s0, NO_GAP) && Core(s, NO_GAP) && w in s0.ws && Grown(s0, s, w)
    requires u in s.ws && f in s.ws[u].unset
    ensures u in s0.ws && f in s0.ws[u].unset && s0.ws[u].unset[f] == s.ws[u].unset[f]
    ensures !Taken(Ancestry(s0, w), PathOf(s0, w), u, f)
  {
    var refs, c := Ancestry(s0, w), s.ws[u].unset[f];
    assert WrapperOk(s, u, NO_GAP) && EntryOk(s.ws, u, f, {});
    assert GrownAt(s0, s, refs, w, c);
    assert WrapperOk(s0, c, NO_GAP) && RegisteredAt(s0.ws, c);
    if Taken(refs, PathOf(s0, w), u, f) { TakenIsOnChain(s0, w, u, f); }
  }

  lemma TableKeeps(s0: State, s: State, w: Ref, u: Ref, f: Field)
    requires Core(s0, NO_GAP) && Core(s, NO_GAP) && w in s0.ws && Grown(s0, s, w)
    requires u in s.ws && u in s0.ws && f in s0.ws[u].unset && !Taken(Ancestry(s0, w), PathOf(s0, w), u, f)
    ensures f in s.ws[u].unset && s.ws[u].unset[f] == s0.ws[u].unset[f]
  {
    var c := s0.ws[u].unset[f];
    assert WrapperOk(s0, u, NO_GAP) && EntryOk(s0.ws, u, f, {});
    if c in Ancestry(s0, w) { ChildOnChain(s0, w, c); }
    var held := HeldFromOutside(s0, c);
    SideSurvives(s0, s, w, c, held);
    OffChainKeepsLink(s0, s, w, c);
    assert WrapperOk(s, c, NO_GAP) && RegisteredAt(s.ws, c);
  }

  /** The table of one wrapper: the entry of the next stub on the way is gone, every other is there. */
  ghost predicate TableMoved(s0: State, s: State, refs: seq<Ref>, path: Path, u: Ref)
    requires u in s0.ws && u in s.ws
  {
    && (forall f :: f in s.ws[u].unset <==> f in s0.ws[u].unset && !Taken(refs, path, u, f))
    && (forall f | f in s.ws[u].unset :: s.ws[u].unset[f] == s0.ws[u].unset[f])
  }

  lemma TableMoves(s0: State, s: State, w: Ref, u: Ref)
    requires Core(s0, NO_GAP) && Core(s, NO_GAP) && w in s0.ws && Grown(s0, s, w) && u in s.ws
    ensures u in s0.ws && TableMoved(s0, s, Ancestry(s0, w), PathOf(s0, w), u)
  {
    assert GrownAt(s0, s, Ancestry(s0, w), w, u);
    forall f ensures f in s.ws[u].unset <==> f in s0.ws[u].unset && !Taken(Ancestry(s0, w), PathOf(s0, w), u, f)
             ensures f in s.ws[u].unset ==> f in s0.ws[u].unset && s.ws[u].unset[f] == s0.ws[u].unset[f]
    {
      if f in s.ws[u].unset { TableOnlyLoses(s0, s, w, u, f); }
      if f in s0.ws[u].unset && !Taken(Ancestry(s0, w), PathOf(s0, w), u, f) { TableKeeps(s0, s, w, u, f); }
    }
  }

  lemma CountAt(s: State, u: Ref)
    requires Core(s, NO_GAP) && u in s.ws
    ensures u in s.outside && s.ws[u].refcnt == s.outside[u] + |s.ws[u].unset|
  {
    assert WrapperOk(s, u, NO_GAP);
  }

  lemma FewerEntries<K(!new), V>(m: map<K, V>, m': map<K, V>, lost: set<K>)
    requires lost <= m.Keys && forall f | f in m' :: f in m && f !in lost && m'[f] == m[f]
    requires forall f | f in m && f !in lost :: f in m'
    ensures m' == m - lost && |m'| == |m| - |lost|
  {
    assert m'.Keys == m.Keys - lost;
    assert |m'| == |m'.Keys| && |m| == |m.Keys|;
  }

  lemma TableLoses(s0: State, s: State, refs: seq<Ref>, path: Path, u: Ref, lost: set<Field>)
    requires u in s.ws && u in s0.ws && TableMoved(s0, s, refs, path, u)
    requires forall f :: f in lost <==> Taken(refs, path, u, f)
    requires lost <= s0.ws[u].unset.Keys
    ensures s.ws[u].unset == s0.ws[u].unset - lost && |s.ws[u].unset| == |s0.ws[u].unset| - |lost|
  {
    var unset0, unset := s0.ws[u].unset, s.ws[u].unset;
    forall f | f in unset ensures f in unset0 && f !in lost && unset[f] == unset0[f] {
      assert !Taken(refs, path, u, f);
    }
    forall f | f in unset0 && f !in lost ensures f in unset {
      assert !Taken(refs, path, u, f);
    }
    FewerEntries(unset0, unset, lost);
  }

  /** What a table loses, the count loses with it. */
  lemma CountMoves(s0: State, s: State, w: Ref, u: Ref, lost: set<Field>)
    requires Core(s0, NO_GAP) && Core(s, NO_GAP) && w in s0.ws && Grown(s0, s, w) && u in s.ws && u in s0.ws
    requires forall f :: f in lost <==> Taken(Ancestry(s0, w), PathOf(s0, w), u, f)
    requires lost <= s0.ws[u].unset.Keys
    ensures s.ws[u].unset == s0.ws[u].unset - lost && s.ws[u].refcnt == s0.ws[u].refcnt - |lost|
  {
    TableMoves(s0, s, w, u);
    TableLoses(s0, s, Ancestry(s0, w), PathOf(s0, w), u, lost);
    assert GrownAt(s0, s, Ancestry(s0, w), w, u);
    CountAt(s0, u);
    CountAt(s, u);
  }

  /** Reifying w takes from u the stubs it loses, each with the one reference it owned. */
  ghost predicate ReferencesTakenAt(s0: State, s: State, w: Ref, u: Ref)
    requires Core(s0, NO_GAP) && w in s0.ws && u in s.ws
  {
    var refs, path := Ancestry(s0, w), PathOf(s0, w);
    && u in s0.ws
    && (forall i | 0 <= i < |path| && u == refs[i] ::
          path[i] in s0.ws[u].unset && s0.ws[u].unset[path[i]] == refs[i + 1]
          && s.ws[u].unset == s0.ws[u].unset - {path[i]} && s.ws[u].refcnt == s0.ws[u].refcnt - 1)
    && (u !in refs[..|path|] ==> s.ws[u].unset == s0.ws[u].unset && s.ws[u].refcnt == s0.ws[u].refcnt)
  }

  /** One reference and one table entry from each former ancestor; nothing on w itself or on any other wrapper. */
  ghost predicate ReferencesTaken(s0: State, s: State, w: Ref)
    requires Core(s0, NO_GAP) && w in s0.ws
  {
    forall u {:trigger ReferencesTakenAt(s0, s, w, u)} | u in s.ws :: ReferencesTakenAt(s0, s, w, u)
  }

  lemma OnlyOneTaken(refs: seq<Ref>, path: Path, i: nat)
    requires i < |path| < |refs| && forall j, k | 0 <= j < k < |refs| :: refs[j] < refs[k]
    ensures forall f :: Taken(refs, path, refs[i], f) <==> f == path[i]
  {
    forall f ensures Taken(refs, path, refs[i], f) <==> f == path[i] {
      if f == path[i] { assert TakenAt(refs, path, refs[i], f, i); }
    }
  }

  lemma TakenFromAncestor(s0: State, s: State, w: Ref, i: nat)
    requires Core(s0, NO_GAP) && Core(s, NO_GAP) && w in s0.ws && Grown(s0, s, w)
    requires i < |PathOf(s0, w)| && Ancestry(s0, w)[i] in s.ws
    ensures
      var u, f := Ancestry(s0, w)[i], PathOf(s0, w)[i];
      && u in s0.ws && f in s0.ws[u].unset && s0.ws[u].unset[f] == Ancestry(s0, w)[i + 1]
      && s.ws[u].unset == s0.ws[u].unset - {f} && s.ws[u].refcnt == s0.ws[u].refcnt - 1
  {
    var refs, path := Ancestry(s0, w), PathOf(s0, w);
    var u, f := refs[i], path[i];
    ChainsEndReified(s0, w);
    assert GrownAt(s0, s, refs, w, u);
    assert LinkAt(s0, refs, path, i + 1) && WrapperOk(s0, refs[i + 1], NO_GAP) && RegisteredAt(s0.ws, refs[i + 1]);
    OnlyOneTaken(refs, path, i);
    CountMoves(s0, s, w, u, {f});
  }

  lemma NothingFromOthers(s0: State, s: State, w: Ref, u: Ref)
    requires Core(s0, NO_GAP) && Core(s, NO_GAP) && w in s0.ws && Grown(s0, s, w)
    requires u in s.ws && u !in Ancestry(s0, w)[..|PathOf(s0, w)|]
    ensures u in s0.ws && s.ws[u].unset == s0.ws[u].unset && s.ws[u].refcnt == s0.ws[u].refcnt
  {
    var refs, path := Ancestry(s0, w), PathOf(s0, w);
    assert GrownAt(s0, s, refs, w, u);
    forall i | 0 <= i < |path| ensures refs[i] != u {
      assert refs[..|path|][i] == refs[i];
    }
    CountMoves(s0, s, w, u, {});
    assert s0.ws[u].unset - {} == s0.ws[u].unset;
  }

  lemma ReferencesAreTaken(s0: State, s: State, w: Ref)
    requires Core(s0, NO_GAP) && Core(s, NO_GAP) && w in s0.ws && Grown(s0, s, w)
    ensures ReferencesTaken(s0, s, w)
  {
    var refs, path := Ancestry(s0, w), PathOf(s0, w);
    forall u | u in s.ws ensures ReferencesTakenAt(s0, s, w, u) {
      assert GrownAt(s0, s, refs, w, u);
      if u !in refs[..|path|] {
        NothingFromOthers(s0, s, w, u);
      }
      forall i | 0 <= i < |path| && u == refs[i]
        ensures
          && path[i] in s0.ws[u].unset && s0.ws[u].unset[path[i]] == refs[i + 1]
          && s.ws[u].unset == s0.ws[u].unset - {path[i]} && s.ws[u].refcnt == s0.ws[u].refcnt - 1
      {
        TakenFromAncestor(s0, s, w, i);
      }
    }
  }

  lemma NothingFromSelf(s0: State, s: State, w: Ref)
    requires Core(s0, NO_GAP) && w in s0.ws && w in s.ws && ReferencesTaken(s0, s, w)
    ensures s.ws[w].unset == s0.ws[w].unset && s.ws[w].refcnt == s0.ws[w].refcnt
  {
    assert ReferencesTakenAt(s0, s, w, w);
    ChainsEndReified(s0, w);
  }

  /** An empty message of its own, which was not there before. */
  ghost predicate HasNewData(ms: Arena, s: State, c: Ref)
    requires c in s.ws
  {
    && s.ws[c].link.Reified? && s.ws[c].link.msg !in ms
    && s.ws[c].link.msg in s.ms && s.ms[s.ws[c].link.msg] == EMPTY
  }
}
