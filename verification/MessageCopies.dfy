/** When a message may be copied onto another: what is read must not contain what is written. */
module MessageCopies {
  import opened Options
  import opened MessageForest
  import opened WrapperGraph
  import opened WrapperCounts

  /**
    The data of `other` contain those of w, or will once w has data: `other` is
    one of the wrappers w gets its data from, or its data already contain those
    that w's are to hang from. A caller can look this up before the call.
   */
  ghost predicate ContainsTarget(s: State, w: Ref, other: Ref)
    requires Core(s, NO_GAP) && w in s.ws && other in s.ws
  {
    || other in Ancestry(s, w)
    || (s.ws[other].link.Reified? && Reaches(s.ms, s.ws[other].link.msg, Anchor(s, w)))
  }

  lemma {:induction false} ChainLeadsDown(ms: Arena, a: Ptr, path: Path, base: Ptr, i: nat)
    requires Missing(ms, a, path, base) && 0 < i <= |path|
    ensures Find(Graft(ms, a, path, base), base + |path| - i, path[i..]) == Some(base)
    decreases |path| - i
  {
    GraftedField(ms, a, path, base, i);
    if i < |path| {
      ChainLeadsDown(ms, a, path, base, i + 1);
      GraftedField(ms, a, path, base, i + 1);
      assert path[i..][0] == path[i] && path[i..][1..] == path[i + 1..];
    } else {
      ChainEnd(ms, a, path, base);
    }
  }

  lemma ChainEnd(ms: Arena, a: Ptr, path: Path, base: Ptr)
    requires Missing(ms, a, path, base)
    ensures base in Graft(ms, a, path, base)
  {
    assert base in Chain(base, path, |path|);
  }

  lemma ChainIsMissing(s: State, w: Ref)
    requires Core(s, NO_GAP) && w in s.ws && PathOf(s, w) != []
    ensures Missing(s.ms, Anchor(s, w), PathOf(s, w), s.nextPtr)
  {
    ChainsEndReified(s, w);
  }

  lemma StubOnChainLink(s0: State, s: State, w: Ref, i: nat)
    requires Core(s0, NO_GAP) && w in s0.ws && Grown(s0, s, w)
    requires 0 < i < |Ancestry(s0, w)| && Ancestry(s0, w)[i] in s.ws
    ensures s.ws[Ancestry(s0, w)[i]].link == Reified(s0.nextPtr + |PathOf(s0, w)| - i)
    ensures s.ws[w].link == Reified(s0.nextPtr)
  {
    assert GrownAt(s0, s, Ancestry(s0, w), w, Ancestry(s0, w)[i]);
  }

  lemma StubOnChainContains(s0: State, s: State, w: Ref, i: nat)
    requires Core(s0, NO_GAP) && w in s0.ws && Grown(s0, s, w)
    requires 0 < i < |Ancestry(s0, w)| && Ancestry(s0, w)[i] in s.ws
    ensures s.ws[Ancestry(s0, w)[i]].link.Reified? && s.ws[w].link == Reified(s0.nextPtr)
    ensures Reaches(s.ms, s.ws[Ancestry(s0, w)[i]].link.msg, s0.nextPtr)
  {
    StubOnChainLink(s0, s, w, i);
    ChainIsMissing(s0, w);
    ChainLeadsDown(s0.ms, Anchor(s0, w), PathOf(s0, w), s0.nextPtr, i);
  }

  lemma OnChainContains(s0: State, s: State, w: Ref, other: Ref)
    requires Invariant(s0) && w in s0.ws && Grown(s0, s, w) && other in s.ws && other in Ancestry(s0, w)
    ensures s.ws[other].link.Reified? && s.ws[w].link.Reified?
    ensures Reaches(s.ms, s.ws[other].link.msg, s.ws[w].link.msg)
  {
    var refs, a := Ancestry(s0, w), Anchor(s0, w);
    var i: nat :| i < |refs| && refs[i] == other;
    if i > 0 {
      StubOnChainContains(s0, s, w, i);
    } else {
      ChainsEndReified(s0, w);
      assert GrownAt(s0, s, refs, w, other);
      GrownLink(s0, s, w, refs, PathOf(s0, w), 0);
      GrownTree(s0, s, w, a);
      assert Find(s0.ms, a, []) == Some(a);
      assert Find(s.ms, a, [] + PathOf(s0, w)) == Some(s.ws[w].link.msg);
    }
  }

  /** Once w has got its data, those of `other` contain them exactly if the condition held beforehand. */
  lemma ContainsIffContained(s0: State, s: State, w: Ref, other: Ref)
    requires Invariant(s0) && w in s0.ws && other in s0.ws && Grown(s0, s, w) && other in s.ws
    ensures s.ws[w].link.Reified?
    ensures s.ws[other].link.Reified? && Reaches(s.ms, s.ws[other].link.msg, s.ws[w].link.msg)
            <==> ContainsTarget(s0, w, other)
  {
    GrownTree(s0, s, w, Anchor(s0, w));
    if other in Ancestry(s0, w) {
      OnChainContains(s0, s, w, other);
    } else {
      OffChainKeepsLink(s0, s, w, other);
      if s0.ws[other].link.Reified? {
        assert WrapperOk(s0, other, NO_GAP);
        var m := s0.ws[other].link.msg;
        GrownTree(s0, s, w, m);
        if r :| Find(s0.ms, m, r) == Some(Anchor(s0, w)) {
          assert Find(s.ms, m, r + PathOf(s0, w)) == Some(s.ws[w].link.msg);
        }
      }
    }
  }

  /**
    It takes three wrappers: a message, its unset field, and an unset field of
    that. Copying the second onto the third is copying a message onto a part of it.
   */
  lemma PartOfItself(s: State, f: Field)
    requires Invariant(s)
    ensures
      var root, child, part := s.nextRef, s.nextRef + 1, s.nextRef + 2;
      var s1 := NewStub(NewStub(NewRoot(s), root, f), child, f);
      && Invariant(s1) && part in s1.ws && child in s1.ws && child != part
      && ContainsTarget(s1, part, child)
  {
    var root, child := s.nextRef, s.nextRef + 1;
    AddressesAreFresh(s, NO_GAP);
    NewRootOk(s);
    var s1 := NewRoot(s);
    NewStubOk(s1, root, f);
    var s2 := NewStub(s1, root, f);
    NewStubOk(s2, child, f);
    var s3 := NewStub(s2, child, f);
    assert Ancestry(s3, s.nextRef + 2) == Ancestry(s3, child) + [s.nextRef + 2];
    assert Ancestry(s3, child)[|Ancestry(s3, child)| - 1] == child;
  }
}
