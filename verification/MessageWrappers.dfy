/** The operations of message.c on wrappers, in the order and with the branches of the source. */
module MessageWrappers {
  import opened Options
  import opened MessageForest
  import opened WrapperGraph
  import opened WrapperCounts
  import opened WrapperFrames
  import opened MessageCopies
  import opened WrapperSync
  import opened Collections

  /** What is assigned, by the kind of the field; no value stands for one the field does not take. */
  datatype Assigned =
    | ToRepeated
    | ToMessage(wellKnown: bool, assigns: bool)
    | ToScalar(value: Option<Value>)

  datatype Outcome =
    | Done
    | Refused
    | Delegated(sub: Ref)

  /** What the wrapper of a submessage field of w is to be linked to. */
  ghost function LinkOf(s: State, w: Ref, f: Field): Link
    requires w in s.ws
  {
    match s.ws[w].link
    case Stub(_, _) => Stub(f, w)
    case Reified(m) => if m in s.ms && f in s.ms[m].subs then Reified(s.ms[m].subs[f]) else Stub(f, w)
  }

  /** Reading a submessage field gives the wrapper that is registered or cached for it, or a new one. */
  ghost predicate FieldRead(s0: State, s: State, w: Ref, f: Field, sub: Ref)
    requires w in s0.ws
  {
    && sub in s.ws && s.ws[sub].link == LinkOf(s0, w, f)
    && (sub in s0.ws <==>
          match s.ws[sub].link
          case Stub(_, _) => f in s0.ws[w].unset
          case Reified(m) => m in s0.cache)
    && if sub in s0.ws then sub in s0.outside && s == Recount(s0, sub, 1)
       else
         s == match s.ws[sub].link
              case Stub(_, _) => NewStub(s0, w, f)
              case Reified(m) => NewWrapper(s0, m)
  }

  class Runtime {
    var wrappers: Wrappers
    var messages: Arena
    var objCache: map<Ptr, Ref>
    var nextRef: Ref
    var nextPtr: Ptr
    ghost var outside: map<Ref, nat>

    ghost function S(): State
      reads this
    {
      State(wrappers, messages, objCache, outside, nextRef, nextPtr)
    }

    ghost predicate Valid()
      reads this
    {
      Invariant(S())
    }

    constructor ()
      ensures Valid() && wrappers == map[] && messages == map[]
    {
      wrappers, messages, objCache, outside := map[], map[], map[], map[];
      nextRef, nextPtr := 0, 0;
      new;
      var d: map<Ptr, nat> := map[];
      assert Ranked(messages, d);
    }

    // ----- Reference counting -----

    method AddReference(w: Ref)
      requires w in wrappers && w in outside
      modifies `wrappers, `outside
      ensures S() == Recount(old(S()), w, 1)
    {
      wrappers := wrappers[w := wrappers[w].(refcnt := wrappers[w].refcnt + 1)];
      outside := outside[w := outside[w] + 1];
    }

    method Incref(w: Ref, ghost gap: Gap)
      requires Core(S(), gap) && gap.dying == {} && w in wrappers && w in outside
      modifies `wrappers, `outside
      ensures S() == Recount(old(S()), w, 1) && Core(S(), gap)
    {
      AddReference(w);
      RecountOk(old(S()), w, 1, gap);
    }

    method Decref(w: Ref, ghost gap: Gap)
      requires Core(S(), gap) && gap.dying == {}
      requires w in wrappers && w in outside && outside[w] > 0 && wrappers[w].refcnt > 0
      requires gap.holes != {} ==> wrappers[w].link.Reified? && forall e | e in gap.holes :: e.child != w
      modifies `wrappers, `objCache, `outside
      ensures Core(S(), gap)
      ensures Kept(Recount(old(S()), w, -1), S())
      ensures old(wrappers[w].refcnt) > 1 ==> S() == Recount(old(S()), w, -1)
      decreases w, 1
    {
      wrappers := wrappers[w := wrappers[w].(refcnt := wrappers[w].refcnt - 1)];
      outside := outside[w := outside[w] - 1];
      assert S() == Recount(old(S()), w, -1);
      RecountOk(old(S()), w, -1, gap);
      if wrappers[w].refcnt == 0 {
        Dealloc(w, gap.(dying := {w}));
      }
    }

    /** A wrapper nobody refers to leaves the table or the cache that lists it. */
    method Dealloc(w: Ref, ghost gap: Gap)
      requires Core(S(), gap) && gap.dying == {w} && w in wrappers && wrappers[w].refcnt == 0
      requires gap.holes != {} ==> wrappers[w].link.Reified? && forall e | e in gap.holes :: e.child != w
      modifies `wrappers, `objCache, `outside
      ensures Core(S(), gap.(dying := {}))
      ensures Kept(old(S()), S()) && w !in wrappers
      decreases w, 0
    {
      if wrappers[w].link.Stub? {
        UnlistKeepsCore(S(), w, gap);
        var Stub(f, p) := wrappers[w].link;
        wrappers := wrappers[p := wrappers[p].(unset := wrappers[p].unset - {f})] - {w};
        outside := outside[p := outside[p] + 1] - {w};
        assert S() == Unlist(old(S()), w);
        ghost var s := S();
        assert WrapperOk(s, p, gap.(dying := {}));
        Decref(p, gap.(dying := {}));
        UnlistThenKept(old(S()), w, S());
      } else {
        UncacheKeepsCore(S(), w, gap);
        objCache := objCache - {wrappers[w].link.msg};
        wrappers := wrappers - {w};
        outside := outside - {w};
        assert S() == Uncache(old(S()), w);
      }
    }

    // ----- Reification -----

    /** A stub gets data of its own; the caller still has to set it in the parent. */
    method InitAsMsg(m: Ref) returns (f: Field)
      requires m in wrappers && wrappers[m].link.Stub?
      modifies `wrappers, `messages, `objCache, `nextPtr
      ensures S() == Allot(old(S()), m) && f == old(wrappers[m].link.field)
    {
      f := wrappers[m].link.field;
      messages := messages[nextPtr := EMPTY];
      wrappers := wrappers[m := wrappers[m].(link := Reified(nextPtr))];
      objCache := objCache[nextPtr := m];
      nextPtr := nextPtr + 1;
    }

    method SetField(parent: Ref, f: Field, child: Ref, ghost gap: Gap)
      requires parent in wrappers && wrappers[parent].link.Reified? && wrappers[parent].link.msg in messages
      requires child in wrappers && wrappers[child].link.Reified? && parent in outside && parent != child
      requires child in outside && outside[child] > 0 && wrappers[child].refcnt > 0
      requires Core(Attach(S(), Entry(parent, f, child)), gap) && gap.dying == {}
      requires forall e | e in gap.holes :: e.child != child
      modifies `wrappers, `messages, `objCache, `outside
      ensures Core(S(), gap)
      ensures Kept(Recount(Attach(old(S()), Entry(parent, f, child)), child, -1), S())
    {
      var m := wrappers[parent].link.msg;
      messages := messages[m := messages[m].(subs := messages[m].subs[f := wrappers[child].link.msg])];
      wrappers := wrappers[parent := wrappers[parent].(unset := wrappers[parent].unset - {f})];
      outside := outside[parent := outside[parent] + 1];
      assert S() == Attach(old(S()), Entry(parent, f, child));
      Decref(child, gap);
    }

    /** One turn of the loop below: the parent gets data if it has none, and the child is set in it. */
    method ClimbOnce(parent: Ref, f: Field, child: Ref,
                     ghost s0: State, ghost refs: seq<Ref>, ghost path: Path, ghost j: nat)
      returns (nextParent: Ref, parentF: Option<Field>)
      requires IsChain(s0, refs, path) && path != [] && 0 < j <= |path| && Climbing(s0, S(), refs, path, j)
      requires forall m | m in s0.ms :: m < s0.nextPtr
      requires child == refs[j] && f == path[j - 1] && parent == refs[j - 1]
      modifies this
      ensures Climbing(s0, S(), refs, path, j - 1)
      ensures j > 1 ==> nextParent == refs[j - 2]
      ensures parentF == if j > 1 then Some(path[j - 2]) else None
    {
      ghost var s := S();
      ClimbFacts(s0, s, refs, path, j);
      ClimbAttach(s0, s, refs, path, j);
      nextParent, parentF := parent, None;
      if wrappers[parent].link.Stub? {
        nextParent := wrappers[parent].link.parent;
        var pf := InitAsMsg(parent);
        parentF := Some(pf);
      }
      assert S() == Raise(s, parent);
      SetField(parent, f, child, ClimbGap(refs, path, j - 1));
      ClimbStep(s0, s, refs, path, j, Recount(Attach(Raise(s, parent), Entry(parent, f, child)), child, -1), S());
    }

    /** Walks up from a stub, reifying as it goes, and returns the ancestor it stops at. */
    method Climb(self: Ref, ghost s0: State, ghost refs: seq<Ref>, ghost path: Path)
      returns (child: Ref)
      requires S() == s0 && IsChain(s0, refs, path) && path != [] && refs[|path|] == self
      requires Core(s0, NO_GAP) && self in s0.outside && s0.outside[self] > 0 && s0.ws[self].refcnt > 0
      modifies this
      ensures Climbing(s0, S(), refs, path, 0) && child == refs[0]
    {
      assert LinkAt(s0, refs, path, |path|);
      child := self;
      var parent := wrappers[self].link.parent;
      var f := InitAsMsg(child);
      ClimbStart(s0, self, refs, path);
      AddReference(child);
      var childF := Some(f);
      ghost var j := |path|;
      while childF.Some?
        invariant 0 <= j <= |path| && Climbing(s0, S(), refs, path, j)
        invariant child == refs[j] && (childF.Some? <==> j > 0)
        invariant j > 0 ==> childF == Some(path[j - 1]) && parent == refs[j - 1]
        decreases j
      {
        var nextParent, parentF := ClimbOnce(parent, childF.value, child, s0, refs, path, j);
        child, childF, parent := parent, parentF, nextParent;
        j := j - 1;
      }
    }

    /** Creates the data of this wrapper and of every missing message above it. */
    method EnsureReified(self: Ref)
      requires Valid() && self in wrappers && self in outside && outside[self] > 0
      modifies this
      ensures Valid() && Grown(old(S()), S(), self) && ReferencesTaken(old(S()), S(), self)
      ensures old(wrappers[self].link.Reified?) ==> S() == old(S())
    {
      ghost var s0 := S();
      if wrappers[self].link.Reified? {
        GrownTrivially(S(), self);
      } else {
        ReifyStub(self);
      }
      ReferencesAreTaken(s0, S(), self);
    }

    method BumpVersion(self: Ref)
      requires self in wrappers
      modifies `wrappers
      ensures S() == Bump(old(S()), self)
    {
      wrappers := wrappers[self := wrappers[self].(version := wrappers[self].version + 1)];
    }

    method ReifyStub(self: Ref)
      requires Valid() && self in wrappers && self in outside && outside[self] > 0
      requires wrappers[self].link.Stub?
      modifies this
      ensures Valid() && Grown(old(S()), S(), self)
    {
      ghost var s0 := S();
      ghost var refs, path := Ancestry(s0, self), PathOf(s0, self);
      ChainsEndReified(s0, self);
      assert WrapperOk(s0, self, NO_GAP);
      var child := Climb(self, s0, refs, path);
      ghost var s := S();
      ClimbFacts(s0, s, refs, path, 0);
      Decref(child, NO_GAP);
      ClimbDone(s0, self, s, S());
      BumpVersion(self);
    }

    // ----- Operations of the Python interface -----

    /** FooMessage(): a new message with no parent. */
    method New() returns (self: Ref)
      requires Valid()
      modifies this
      ensures Valid() && S() == NewRoot(old(S())) && self == old(nextRef)
      ensures outside == old(outside)[self := 1] && wrappers[self].unset == map[]
    {
      NewRootOk(S());
      self := MakeRoot();
    }

    method MakeRoot() returns (self: Ref)
      modifies this
      ensures S() == NewRoot(old(S())) && self == old(nextRef)
    {
      self := nextRef;
      messages := messages[nextPtr := EMPTY];
      wrappers := wrappers[self := Wrapper(1, Reified(nextPtr), map[], 0)];
      objCache := objCache[nextPtr := self];
      outside := outside[self := 1];
      nextRef, nextPtr := nextRef + 1, nextPtr + 1;
    }

    method MakeStub(parent: Ref, f: Field) returns (sub: Ref)
      requires parent in wrappers
      modifies `wrappers, `outside, `nextRef
      ensures S() == NewStub(old(S()), parent, f) && sub == old(nextRef)
    {
      sub := nextRef;
      wrappers := wrappers
        [parent := wrappers[parent].(refcnt := wrappers[parent].refcnt + 1, unset := wrappers[parent].unset[f := sub])]
        [sub := Wrapper(1, Stub(f, parent), map[], 0)];
      outside := outside[sub := 1];
      nextRef := nextRef + 1;
    }

    method MakeWrapper(m: Ptr) returns (w: Ref)
      modifies `wrappers, `outside, `objCache, `nextRef
      ensures S() == NewWrapper(old(S()), m) && w == old(nextRef)
    {
      w := nextRef;
      wrappers := wrappers[w := Wrapper(1, Reified(m), map[], 0)];
      objCache := objCache[m := w];
      outside := outside[w := 1];
      nextRef := nextRef + 1;
    }

    /** Python drops one of its references. */
    method Release(w: Ref)
      requires Valid() && w in wrappers && w in outside && outside[w] > 0
      modifies `wrappers, `objCache, `outside
      ensures Valid() && old(wrappers[w].refcnt) > 0 && Kept(Recount(old(S()), w, -1), S())
    {
      assert WrapperOk(S(), w, NO_GAP);
      Decref(w, NO_GAP);
    }

    /** The wrapper of an unset submessage; reading it twice gives the same object. */
    method GetStub(self: Ref, f: Field) returns (sub: Ref)
      requires Valid() && self in wrappers
      requires wrappers[self].link.Reified? && wrappers[self].link.msg in messages ==>
                 f !in messages[wrappers[self].link.msg].subs
      modifies `wrappers, `outside, `nextRef
      ensures Valid() && sub in wrappers && wrappers[sub].link == Stub(f, self)
      ensures f in old(wrappers[self].unset) ==>
                && sub == old(wrappers[self].unset[f]) && sub in old(wrappers) && sub in old(outside)
                && S() == Recount(old(S()), sub, 1)
      ensures f !in old(wrappers[self].unset) ==> sub == old(nextRef) && S() == NewStub(old(S()), self, f)
    {
      assert WrapperOk(S(), self, NO_GAP);
      if f in wrappers[self].unset {
        sub := wrappers[self].unset[f];
        assert EntryOk(wrappers, self, f, {}) && WrapperOk(S(), sub, NO_GAP);
        Incref(sub, NO_GAP);
      } else {
        NewStubOk(S(), self, f);
        sub := MakeStub(self, f);
      }
    }

    /** The wrapper of existing data: the cached one, or a new one that is then cached. */
    method Get(m: Ptr) returns (w: Ref)
      requires Valid() && m in messages
      modifies `wrappers, `outside, `objCache, `nextRef
      ensures Valid() && w in wrappers && wrappers[w].link == Reified(m)
      ensures m in old(objCache) ==>
                && w == old(objCache[m]) && w in old(wrappers) && w in old(outside) && S() == Recount(old(S()), w, 1)
      ensures m !in old(objCache) ==> w == old(nextRef) && S() == NewWrapper(old(S()), m)
    {
      if m in objCache {
        w := objCache[m];
        assert CacheEntryOk(S(), m) && WrapperOk(S(), w, NO_GAP);
        Incref(w, NO_GAP);
      } else {
        NewWrapperOk(S(), m);
        w := MakeWrapper(m);
      }
    }

    /** Reading a submessage field; no abstract value changes. */
    method GetFieldValue(self: Ref, f: Field) returns (sub: Ref)
      requires Valid() && self in wrappers
      modifies `wrappers, `outside, `objCache, `nextRef
      ensures Valid() && FieldRead(old(S()), S(), self, f, sub)
      ensures outside == old(outside)[sub := (if sub in old(outside) then old(outside)[sub] else 0) + 1]
    {
      AddressesAreFresh(S(), NO_GAP);
      assert WrapperOk(S(), self, NO_GAP);
      if wrappers[self].link.Stub? || f !in messages[wrappers[self].link.msg].subs {
        sub := GetStub(self, f);
      } else {
        var m := wrappers[self].link.msg;
        assert messages[m].subs[f] in messages;
        sub := Get(messages[m].subs[f]);
      }
    }

    /**
      Assignment to a field. `grown` is the state once this wrapper has data:
      nothing else happens to any wrapper, so whatever waits beside the way goes
      on waiting. A failed assignment still adds the missing submessages, unless
      the field is repeated; for a submessage of a well-known type the rest is up
      to a method of its wrapper.
     */
    method SetFieldValue(self: Ref, f: Field, a: Assigned) returns (r: Outcome, ghost grown: State)
      requires Valid() && self in wrappers && self in outside && outside[self] > 0
      modifies this
      ensures Valid() && Invariant(grown)
      ensures a.ToRepeated? ==> r == Refused && S() == grown == old(S())
      ensures !a.ToRepeated? ==>
                && Grown(old(S()), grown, self) && ReferencesTaken(old(S()), grown, self)
                && grown.ws[self].link.Reified? && grown.ws[self].link.msg in grown.ms
      ensures a.ToScalar? ==> r == if a.value.Some? then Done else Refused
      ensures a.ToScalar? && a.value.Some? ==>
                S() == grown.(ms := WithScalar(grown.ms, grown.ws[self].link.msg, f, a.value.value))
      ensures a.ToScalar? && a.value.Some? ==>
                && LeafSet(old(messages), messages, Anchor(old(S()), self), PathOf(old(S()), self), f, a.value.value)
                && f in messages[wrappers[self].link.msg].scalars
                && messages[wrappers[self].link.msg].scalars[f] == a.value.value
      ensures !a.ToRepeated? && r != Done ==>
                PathAdded(old(messages), messages, Anchor(old(S()), self), PathOf(old(S()), self))
      ensures r == Refused && !(a.ToMessage? && a.wellKnown) ==> S() == grown
      ensures a.ToMessage? ==> if a.wellKnown && a.assigns then r.Delegated? else r == Refused
      ensures a.ToMessage? && a.wellKnown ==> exists sub :: FieldRead(grown, S(), self, f, sub)
      ensures r.Delegated? ==> FieldRead(grown, S(), self, f, r.sub) && r.sub in outside && outside[r.sub] > 0
    {
      grown := S();
      if a.ToRepeated? {
        return Refused, grown;
      }
      ghost var s0 := S();
      EnsureReified(self);
      grown := S();
      GrowthAddsPath(s0, grown, self);
      GrownIsSteady(s0, grown, self);
      assert WrapperOk(grown, self, NO_GAP);
      match a
      case ToMessage(wellKnown, assigns) =>
        r := Refused;
        if wellKnown {
          var sub := GetOnReified(self, f);
          r := if assigns then Delegated(sub) else Refused;
        }
      case ToScalar(None) =>
        r := Refused;
      case ToScalar(Some(v)) =>
        ExpandoAssignment(s0, grown, self, f, v);
        FinishSet(self, f, v);
        r := Done;
    }

    method GetOnReified(self: Ref, f: Field) returns (sub: Ref)
      requires Valid() && self in wrappers && wrappers[self].link.Reified? && wrappers[self].link.msg in messages
      modifies `wrappers, `outside, `objCache, `nextRef
      ensures Valid() && messages == old(messages) && FieldRead(old(S()), S(), self, f, sub)
      ensures sub in outside && outside[sub] > 0
    {
      AddressesAreFresh(S(), NO_GAP);
      sub := GetFieldValue(self, f);
    }

    method FinishSet(self: Ref, f: Field, v: Value)
      requires Valid() && self in wrappers
      requires wrappers[self].link.Reified? && wrappers[self].link.msg in messages
      modifies `messages
      ensures S() == old(S()).(ms := WithScalar(old(messages), wrappers[self].link.msg, f, v))
      ensures Valid()
    {
      ghost var s := S();
      WithScalarTree(s.ms, wrappers[self].link.msg, f, v, wrappers[self].link.msg);
      DataOk(s, WithScalar(s.ms, wrappers[self].link.msg, f, v));
      SetScalar(self, f, v);
    }

    method SetScalar(self: Ref, f: Field, v: Value)
      requires self in wrappers && wrappers[self].link.Reified? && wrappers[self].link.msg in messages
      modifies `messages
      ensures S() == old(S()).(ms := WithScalar(old(messages), wrappers[self].link.msg, f, v))
    {
      var m := wrappers[self].link.msg;
      messages := messages[m := messages[m].(scalars := messages[m].scalars[f := v])];
    }

    /**
      Clearing one field: a stub waiting for it gets data of its own, cut off from
      here; every other stub, once this wrapper has data, goes on waiting.
     */
    method DoClearField(self: Ref, f: Field) returns (ghost grown: State)
      requires Valid() && self in wrappers && self in outside && outside[self] > 0
      modifies this
      ensures Valid() && Steady(old(S()), S())
      ensures Grown(old(S()), grown, self) && ReferencesTaken(old(S()), grown, self)
      ensures CutOff(grown, S(), self, {f}, 1)
      ensures
        FieldCleared(old(messages), messages, Anchor(old(S()), self), PathOf(old(S()), self), f)
    {
      ghost var s0 := S();
      EnsureReified(self);
      grown := S();
      GrownIsSteady(s0, grown, self);
      assert WrapperOk(grown, self, NO_GAP) && SteadyAt(s0, grown, self);
      CutOffEntry(self, f, s0, grown);
      FinishClear(self, f, s0, grown);
    }

    method FinishClear(self: Ref, f: Field, ghost s0: State, ghost s1: State)
      requires Valid() && Steady(s0, S()) && self in wrappers && Core(s1, NO_GAP) && LinksCut(s1, S(), self, {f}, 1)
      requires wrappers[self].link.Reified? && wrappers[self].link.msg in messages
      requires self in s1.ws && s1.ws[self].link == wrappers[self].link && self in s1.outside && s1.outside[self] > 0
      modifies `messages
      ensures messages == Without(old(messages), wrappers[self].link.msg, {f})
      ensures Valid() && Steady(s0, S()) && CutOff(s1, S(), self, {f}, 1)
    {
      ghost var s := S();
      assert WrapperOk(s1, self, NO_GAP);
      CutThenData(s1, s, self, {f}, 1, Without(s.ms, wrappers[self].link.msg, {f}));
      WithoutTree(s.ms, wrappers[self].link.msg, {f}, wrappers[self].link.msg);
      DataOk(s, Without(s.ms, wrappers[self].link.msg, {f}));
      ClearData(self, f);
      DataIsSteady(s0, s, messages);
      CutOffByLinks(s1, S(), self, {f}, 1);
    }

    method ClearData(self: Ref, f: Field)
      requires self in wrappers && wrappers[self].link.Reified? && wrappers[self].link.msg in messages
      modifies `messages
      ensures S() == old(S()).(ms := Without(old(messages), wrappers[self].link.msg, {f}))
    {
      var m := wrappers[self].link.msg;
      messages := messages[m := Message(messages[m].subs - {f}, messages[m].scalars - {f})];
    }

    /** Reifies a stub while holding a reference to it. */
    method ReifyHeld(sub: Ref) returns (ghost s2: State, ghost s3: State)
      requires Valid() && sub in wrappers && sub in outside
      modifies this
      ensures Valid()
      ensures sub in old(wrappers) && sub in old(outside) && s2 == Recount(old(S()), sub, 1) && Invariant(s2)
      ensures Grown(s2, s3, sub) && sub in s3.outside && s3.outside[sub] > 0 && s3.ws[sub].refcnt > 0
      ensures S() == Recount(s3, sub, -1)
    {
      ghost var s0 := S();
      Incref(sub, NO_GAP);
      s2 := S();
      EnsureReified(sub);
      s3 := S();
      HeldAfterGrowth(s0, s2, s3, sub);
      Decref(sub, NO_GAP);
    }

    method CutOffEntry(self: Ref, f: Field, ghost s0: State, ghost s1: State)
      requires Valid() && S() == s1 && self in wrappers && self in outside && outside[self] > 0
      requires Invariant(s0) && self in s0.ws && Grown(s0, s1, self) && Steady(s0, s1)
      modifies this
      ensures Valid() && Steady(s0, S()) && self in wrappers && wrappers[self].link == s1.ws[self].link
      ensures wrappers[self].link.Reified? && wrappers[self].link.msg in messages
      ensures
        var ms' := Without(messages, wrappers[self].link.msg, {f});
        FieldCleared(s0.ms, ms', Anchor(s0, self), PathOf(s0, self), f) && Forest(ms')
      ensures LinksCut(s1, S(), self, {f}, 1)
    {
      if f in wrappers[self].unset {
        ReifyEntry(self, f, wrappers[self].unset[f], s0, s1);
      } else {
        ClearReified(s0, s1, self, f);
        NothingCut(s1, self, {f});
      }
    }

    /** The branch of DoClearField for a field with a stub: hold it, reify it, let it go. */
    method ReifyEntry(self: Ref, f: Field, sub: Ref, ghost s0: State, ghost s1: State)
      requires Valid() && S() == s1 && self in wrappers && self in outside && outside[self] > 0
      requires f in wrappers[self].unset && sub == wrappers[self].unset[f]
      requires Invariant(s0) && self in s0.ws && Grown(s0, s1, self) && Steady(s0, s1)
      modifies this
      ensures Valid() && Steady(s0, S()) && self in wrappers && wrappers[self].link == s1.ws[self].link
      ensures wrappers[self].link.Reified? && wrappers[self].link.msg in messages
      ensures
        var ms' := Without(messages, wrappers[self].link.msg, {f});
        FieldCleared(s0.ms, ms', Anchor(s0, self), PathOf(s0, self), f) && Forest(ms')
      ensures LinksCut(s1, S(), self, {f}, 1)
    {
      assert WrapperOk(s1, self, NO_GAP) && EntryOk(s1.ws, self, f, {}) && WrapperOk(s1, sub, NO_GAP);
      GrownTree(s0, s1, self, Anchor(s0, self));
      ghost var s2, s3 := ReifyHeld(sub);
      ClearStub(s0, s1, self, f, s2, sub, s3);
      HeldForAWhile(s0, s1, s2, sub, s3, S());
      assert SteadyAt(s1, S(), self);
      HeldIsCut(s1, s2, self, f, sub, s3, S());
    }

    // ----- Attaching stubs to data set behind their back -----

    method DeleteIter(p: Ref, f: Field)
      requires p in wrappers && p in outside
      modifies `wrappers, `outside
      ensures S() == Delist(old(S()), p, f)
    {
      wrappers := wrappers[p := wrappers[p].(unset := wrappers[p].unset - {f})];
      outside := outside[p := outside[p] + 1];
    }

    method NewData(msg: Option<Ptr>) returns (x: Ptr)
      modifies `messages, `nextPtr
      ensures S() == WithData(old(S()), msg) && x == DataOf(old(S()), msg)
    {
      if msg.Some? {
        x := msg.value;
      } else {
        x := nextPtr;
        messages := messages[x := EMPTY];
        nextPtr := nextPtr + 1;
      }
    }

    method PointAt(self: Ref, x: Ptr)
      requires self in wrappers
      modifies `wrappers, `objCache
      ensures S() == old(S()).(ws := old(wrappers)[self := old(wrappers)[self].(link := Reified(x))],
                               cache := old(objCache)[x := self])
    {
      objCache := objCache[x := self];
      wrappers := wrappers[self := wrappers[self].(link := Reified(x))];
    }

    /**
      Points a stub at data: what its field holds, or a new empty message. Its
      parent's reference is dropped after the pointer is overwritten, which makes
      no difference because the caller always holds another one.
     */
    method Reify(self: Ref, msg: Option<Ptr>, ghost s: State, ghost p: Ref, ghost f: Field, ghost broken: set<Ref>)
      requires Core(s, Gap({}, broken + {p}, {})) && Forest(s.ms)
      requires p in s.ws && p in s.outside && f in s.ws[p].unset && s.ws[p].unset[f] == self && s.ws[p].refcnt > 1
      requires S() == Delist(s, p, f) && self in s.ws && s.ws[self].link == Stub(f, p) && p < self < s.nextRef
      requires msg.Some? ==> msg.value in s.ms && forall y | Reaches(s.ms, msg.value, y) :: y !in s.cache
      modifies this
      ensures DataOf(s, msg) in messages && Forest(messages)
      ensures Core(S(), Gap({}, broken + {p}, {}))
      ensures Synced(Recount(Adopt(WithData(s, msg), p, f, DataOf(s, msg)), p, -1), S(), self, DataOf(s, msg))
      decreases s.nextRef - self, 3
    {
      WithDataOk(s, msg, Gap({}, broken + {p}, {}));
      var parent := wrappers[self].link.parent;
      var x := NewData(msg);
      ghost var b := WithData(s, msg);
      AdoptKeepsCore(b, p, f, x, broken + {p});
      PointAt(self, x);
      assert S() == Adopt(b, p, f, x);
      Decref(parent, Gap({}, broken + {p} + {self}, {}));
      NestedIsUnwrapped(b, S(), self, x);
      SyncSubobjs(self, broken + {p});
    }

    /** Attaches every stub below this wrapper to the data that is there now. */
    method SyncSubobjs(self: Ref, ghost broken: set<Ref>)
      requires Core(S(), Gap({}, broken + {self}, {})) && Forest(messages)
      requires self in wrappers && wrappers[self].link.Reified? && wrappers[self].link.msg in messages
      requires self < nextRef && Unwrapped(S(), self, wrappers[self].link.msg)
      modifies this
      ensures Core(S(), Gap({}, broken, {}))
      ensures Synced(old(S()), S(), self, old(wrappers[self].link.msg))
      ensures old(wrappers[self].unset) == map[] ==> S() == old(S())
      decreases nextRef - self, 2
    {
      ghost var gap := Gap({}, broken + {self}, {});
      assert WrapperOk(S(), self, gap);
      Incref(self, gap);
      ghost var s0 := S();
      var m := wrappers[self].link.msg;
      SyncEntries(self, m, broken);
      ghost var s := S();
      assert SyncedAt(s0, s, self, m, self) && WrapperOk(s, self, Gap({}, broken, {}));
      Decref(self, Gap({}, broken, {}));
      SyncedThenKept(old(S()), s, self, m, broken, S());
    }

    method SyncEntries(self: Ref, m: Ptr, ghost broken: set<Ref>)
      requires Core(S(), Gap({}, broken + {self}, {})) && Forest(messages)
      requires self in wrappers && wrappers[self].link == Reified(m) && m in messages
      requires self < nextRef && Unwrapped(S(), self, m) && self in outside && outside[self] > 0
      modifies this
      ensures Core(S(), Gap({}, broken, {})) && Synced(old(S()), S(), self, m)
      ensures old(wrappers[self].unset) == map[] ==> S() == old(S())
      decreases nextRef - self, 1
    {
      ghost var s0 := S();
      SyncStart(s0, self, m, broken);
      var seen: set<Field> := {};
      while wrappers[self].unset.Keys - seen != {}
        invariant Syncing(s0, S(), self, m, seen, broken)
        invariant s0.ws[self].unset == map[] ==> S() == s0
        decreases s0.ws[self].unset.Keys - seen
      {
        assert SyncingAt(s0, S(), self, m, seen, self);
        var f := Pick(wrappers[self].unset.Keys - seen);
        SyncEntry(self, f, m, seen, s0, broken);
        seen := seen + {f};
      }
      forall f | f in wrappers[self].unset.Keys ensures f in seen {
        assert f !in wrappers[self].unset.Keys - seen;
      }
      SyncEnd(s0, S(), self, m, seen, broken);
    }

    /** One turn of the loop above: an entry whose field is set loses its stub to the data. */
    method SyncEntry(self: Ref, f: Field, m: Ptr, ghost seen: set<Field>, ghost s0: State, ghost broken: set<Ref>)
      requires Syncing(s0, S(), self, m, seen, broken) && Forest(s0.ms) && Unwrapped(s0, self, m)
      requires f in wrappers[self].unset && f !in seen && self in outside && outside[self] > 0 && self < nextRef
      modifies this
      ensures Syncing(s0, S(), self, m, seen + {f}, broken)
      decreases nextRef - self, 0
    {
      ghost var s := S();
      if f in messages[m].subs {
        var sub := wrappers[self].unset[f];
        ghost var x := messages[m].subs[f];
        ghost var gap := Gap({}, broken + {self}, {});
        assert WrapperOk(s, self, gap) && EntryOk(s.ws, self, f, {})
                 && WrapperOk(s, sub, gap) && RegisteredAt(s.ws, sub);
        AdoptedIsUnwrapped(s0, s, s, self, m, seen, broken, f, x);
        AdoptKeepsCore(s, self, f, x, broken + {self});
        assert WrapperOk(Adopt(s, self, f, x), self, Gap({}, broken + {self} + {sub}, {}));
        RecountOk(Adopt(s, self, f, x), self, -1, Gap({}, broken + {self} + {sub}, {}));
        AdoptStep(s0, s, Recount(Adopt(s, self, f, x), self, -1), self, m, seen, broken, f, x);
        DeleteIter(self, f);
        Reify(sub, Some(messages[m].subs[f]), s, self, f, broken);
        SyncNext(s0, s, Recount(Adopt(s, self, f, x), self, -1), S(), self, m, seen, broken, f, x);
      } else {
        SyncSkip(s0, s, self, m, seen, broken, f);
      }
    }

    // ----- Clear and CopyFrom -----

    /** Every waiting stub gets an empty message of its own, then this message is emptied. */
    method Clear(self: Ref) returns (ghost grown: State)
      requires Valid() && self in wrappers && self in outside && outside[self] > 0
      modifies this
      ensures Valid() && Steady(old(S()), S())
      ensures Grown(old(S()), grown, self) && ReferencesTaken(old(S()), grown, self)
      ensures old(wrappers[self].link.Reified?) ==> grown == old(S())
      ensures CutOff(grown, S(), self, grown.ws[self].unset.Keys, 0)
      ensures self in wrappers && wrappers[self].link.Reified? && wrappers[self].unset == map[]
      ensures wrappers[self].link.msg in messages && messages[wrappers[self].link.msg] == EMPTY
      ensures Emptied(old(messages), messages, Anchor(old(S()), self), PathOf(old(S()), self))
    {
      ghost var s0 := S();
      EnsureReified(self);
      grown := S();
      assert GrownAt(s0, grown, Ancestry(s0, self), self, self);
      ClearEntries(self);
      ClearedSoFar(s0, grown, S(), self);
      ClearingIsCut(grown, S(), self);
      FinishEmpty(self, s0, grown);
    }

    method ClearEntries(self: Ref)
      requires Valid() && self in wrappers && wrappers[self].link.Reified? && self in outside && outside[self] > 0
      modifies this
      ensures Clearing(old(S()), S(), self) && self in wrappers && wrappers[self].unset == map[]
      ensures nextRef == old(nextRef)
    {
      ghost var s1 := S();
      ClearingStart(s1, self);
      while wrappers[self].unset.Keys != {}
        invariant Clearing(s1, S(), self) && self in wrappers && nextRef == s1.nextRef
        decreases wrappers[self].unset.Keys
      {
        var f := Pick(wrappers[self].unset.Keys);
        ClearEntry(self, f, s1);
      }
    }

    method ClearEntry(self: Ref, f: Field, ghost s1: State)
      requires Clearing(s1, S(), self) && self in wrappers && f in wrappers[self].unset
      modifies this
      ensures Clearing(s1, S(), self) && self in wrappers && nextRef == old(nextRef)
      ensures wrappers[self].unset.Keys <= old(wrappers[self].unset.Keys) - {f}
    {
      ghost var s := S();
      assert ClearingAt(s1, s, self, self) && WrapperOk(s, self, NO_GAP) && EntryOk(s.ws, self, f, {});
      var sub := wrappers[self].unset[f];
      assert WrapperOk(s, sub, NO_GAP) && RegisteredAt(s.ws, sub);
      assert |wrappers[self].unset| > 0;
      BreakCore(s, self, {});
      DeleteIter(self, f);
      Reify(sub, None, s, self, f, {});
      ClearingStep(s1, s, self, f, Recount(Adopt(WithData(s, None), self, f, s.nextPtr), self, -1), S());
    }

    method FinishEmpty(self: Ref, ghost s0: State, ghost s1: State)
      requires Valid() && Steady(s0, S()) && self in wrappers && Core(s1, NO_GAP) && self in s1.ws
      requires LinksCut(s1, S(), self, s1.ws[self].unset.Keys, 0)
      requires wrappers[self].link.Reified? && wrappers[self].link.msg in messages
      requires s1.ws[self].link == wrappers[self].link && self in s1.outside && s1.outside[self] > 0
      modifies `messages
      ensures messages == old(messages)[wrappers[self].link.msg := EMPTY]
      ensures Valid() && Steady(s0, S()) && CutOff(s1, S(), self, s1.ws[self].unset.Keys, 0)
    {
      EmptiedOk(s0, s1, S(), self, wrappers[self].link.msg);
      ghost var s := S();
      messages := messages[wrappers[self].link.msg := EMPTY];
      assert S() == s.(ms := messages);
    }

    method CopyData(self: Ref, src: Ptr, copy: (Arena, Ptr, Ptr, Ptr) -> (Arena, Ptr), ghost s0: State)
      requires Invariant(s0) && Valid() && Steady(s0, S()) && self in s0.ws
      requires self in wrappers && wrappers[self].link.Reified?
      requires wrappers[self].link.msg in messages && src in messages
      requires
        var (ms', next') := copy(messages, nextPtr, wrappers[self].link.msg, src);
        DeepCopied(messages, nextPtr, wrappers[self].link.msg, src, ms', next')
      modifies this
      ensures Valid() && Steady(s0, S()) && Steady(old(S()), S())
      ensures TreeOf(messages, old(wrappers[self].link.msg)) == TreeOf(old(messages), src)
      ensures OnlyChanges(old(messages), messages, old(wrappers[self].link.msg))
      ensures Synced(old(S()).(ms := messages, nextPtr := nextPtr), S(), self, old(wrappers[self].link.msg))
      ensures Grown(s0, old(S()), self) ==> StubsAttached(s0, S(), self, old(wrappers[self].link.msg))
    {
      ghost var s := S();
      var m := wrappers[self].link.msg;
      var (ms', next') := copy(messages, nextPtr, m, src);
      CopyOk(s, self, m, src, ms', next');
      AddressesAreFresh(s, NO_GAP);
      messages, nextPtr := ms', next';
      ghost var s1 := S();
      assert s1 == s.(ms := ms', nextPtr := next');
      SameWrappersSteady(s0, s, s1);
      SyncSubobjs(self, {});
      SyncedIsSteady(s0, s1, S(), self, m);
      SyncedIsSteady(s, s1, S(), self, m);
      if Grown(s0, s, self) { SyncedIsAttached(s0, s, self, m, s1, S()); }
    }

    /** Clear, and then a traversal that finds nothing left to attach. */
    method ClearForCopy(self: Ref)
      requires Valid() && self in wrappers && wrappers[self].link.Reified? && self in outside && outside[self] > 0
      modifies this
      ensures Valid() && Steady(old(S()), S()) && self in wrappers && wrappers[self].link == old(wrappers[self].link)
      ensures CutOff(old(S()), S(), self, old(wrappers[self].unset.Keys), 0)
      ensures TreeOf(messages, wrappers[self].link.msg) == imap[[] := map[]]
      ensures Emptied(old(messages), messages, wrappers[self].link.msg, [])
    {
      ghost var s1 := S();
      ghost var grown := Clear(self);
      assert SteadyAt(s1, S(), self);
      AddressesAreFresh(S(), NO_GAP);
      BreakCore(S(), self, {});
      SyncSubobjs(self, {});
      EmptyTree(messages, wrappers[self].link.msg);
    }

    /** The source has data. */
    method CopyFromData(self: Ref, other: Ref, copy: (Arena, Ptr, Ptr, Ptr) -> (Arena, Ptr), ghost s0: State)
      requires Invariant(s0) && self in s0.ws && Valid() && Steady(s0, S()) && Grown(s0, S(), self)
      requires self in wrappers && wrappers[self].link.Reified? && wrappers[self].link.msg in messages
      requires other in wrappers && wrappers[other].link.Reified? && wrappers[other].link.msg in messages
      requires other in s0.ws && s0.ws[other].link == wrappers[other].link && s0.ws[other].link.msg in s0.ms
      requires self in outside && outside[self] > 0
      requires !Reaches(messages, wrappers[other].link.msg, wrappers[self].link.msg)
      requires !Reaches(s0.ms, s0.ws[other].link.msg, Anchor(s0, self))
      requires CopiesApart(copy)
      modifies this
      ensures Valid() && Steady(s0, S()) && self in wrappers && wrappers[self].link == old(wrappers[self].link)
      ensures TreeOf(messages, wrappers[self].link.msg) == TreeOf(s0.ms, s0.ws[other].link.msg)
      ensures CopiedInto(s0.ms, messages, Anchor(s0, self), PathOf(s0, self), TreeOf(s0.ms, s0.ws[other].link.msg))
      ensures StubsAttached(s0, S(), self, wrappers[self].link.msg)
      ensures Synced(old(S()).(ms := messages, nextPtr := nextPtr), S(), self, wrappers[self].link.msg)
    {
      ghost var s1, src := S(), wrappers[other].link.msg;
      CopyData(self, wrappers[other].link.msg, copy, s0);
      assert SteadyAt(s1, S(), self);
      CopiedAfterGrowth(s0, s1, self, messages);
      GrownTree(s0, s1, self, src);
    }

    /** A source without data empties the target. */
    method CopyFromStub(self: Ref, ghost s0: State)
      requires Invariant(s0) && self in s0.ws && Valid() && Steady(s0, S()) && Grown(s0, S(), self)
      requires self in wrappers && wrappers[self].link.Reified? && self in outside && outside[self] > 0
      modifies this
      ensures Valid() && Steady(s0, S()) && self in wrappers && wrappers[self].link == old(wrappers[self].link)
      ensures TreeOf(messages, wrappers[self].link.msg) == imap[[] := map[]]
      ensures Emptied(s0.ms, messages, Anchor(s0, self), PathOf(s0, self))
      ensures CutOff(old(S()), S(), self, old(wrappers[self].unset.Keys), 0)
    {
      ghost var s1 := S();
      ClearForCopy(self);
      EmptiedAfterGrowth(s0, s1, self, messages);
      SteadyTrans(s0, s1, S());
    }

    /**
      CopyFrom, with the foreign deep copy of message data as a parameter. That
      does not end if the source contains the target, which the caller must rule out.
     */
    method CopyFrom(self: Ref, other: Ref, copy: (Arena, Ptr, Ptr, Ptr) -> (Arena, Ptr)) returns (ghost grown: State)
      requires Valid() && self in wrappers && self in outside && outside[self] > 0
      requires other in wrappers && other in outside && outside[other] > 0
      requires self != other ==> !ContainsTarget(S(), self, other)
      requires CopiesApart(copy)
      modifies this
      ensures Valid() && Steady(old(S()), S())
      ensures self == other ==> S() == old(S())
      ensures self != other ==>
                && Grown(old(S()), grown, self) && ReferencesTaken(old(S()), grown, self)
                && self in wrappers && wrappers[self].link.Reified?
      ensures self != other && old(wrappers[other].link.Reified?) ==>
                && TreeOf(messages, wrappers[self].link.msg) == TreeOf(old(messages), old(wrappers[other].link.msg))
                && CopiedInto(old(messages), messages, Anchor(old(S()), self), PathOf(old(S()), self),
                              TreeOf(old(messages), old(wrappers[other].link.msg)))
                && StubsAttached(old(S()), S(), self, wrappers[self].link.msg)
                && Synced(grown.(ms := messages, nextPtr := nextPtr), S(), self, wrappers[self].link.msg)
      ensures self != other && old(wrappers[other].link.Stub?) ==>
                && TreeOf(messages, wrappers[self].link.msg) == imap[[] := map[]]
                && Emptied(old(messages), messages, Anchor(old(S()), self), PathOf(old(S()), self))
                && CutOff(grown, S(), self, grown.ws[self].unset.Keys, 0)
    {
      grown := S();
      if self == other {
        CoreIsSteady(S());
        return;
      }
      ghost var s0 := S();
      EnsureReified(self);
      grown := S();
      GrownIsSteady(s0, grown, self);
      assert SteadyAt(s0, grown, self) && SteadyAt(s0, grown, other);
      assert GrownAt(s0, grown, Ancestry(s0, self), self, other);
      assert WrapperOk(grown, self, NO_GAP) && WrapperOk(grown, other, NO_GAP) && WrapperOk(s0, other, NO_GAP);
      ContainsIffContained(s0, grown, self, other);
      OffChainKeepsLink(s0, grown, self, other);
      if wrappers[other].link.Reified? {
        CopyFromData(self, other, copy, s0);
      } else {
        CopyFromStub(self, s0);
      }
    }
  }
}
