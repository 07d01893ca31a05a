/**
  The data behind protobuf messages. A upb message is a finite map from
  submessage fields to messages and from scalar fields to values; an arena is
  the table of all messages by address. The abstract value of a message is the
  map from field paths to the scalars found there.
 */
module MessageForest {
  import opened Options

  type Ptr = int
  type Field = int
  type Value = int
  type Path = seq<Field>

  datatype Message = Message(subs: map<Field, Ptr>, scalars: map<Field, Value>)

  const EMPTY := Message(map[], map[])

  type Arena = map<Ptr, Message>

  /** The message reached from p by following the fields of q. */
  function Find(ms: Arena, p: Ptr, q: Path): (r: Option<Ptr>)
    ensures r.Some? ==> r.value in ms && p in ms
    decreases |q|
  {
    if p !in ms then None
    else if q == [] then Some(p)
    else if q[0] in ms[p].subs then Find(ms, ms[p].subs[q[0]], q[1..])
    else None
  }

  ghost predicate Reaches(ms: Arena, p: Ptr, x: Ptr) {
    exists q: Path :: Find(ms, p, q) == Some(x)
  }

  // ----- Abstract values -----

  type Tree = imap<Path, map<Field, Value>>

  ghost function TreeOf(ms: Arena, p: Ptr): Tree {
    imap q: Path | Find(ms, p, q).Some? :: ms[Find(ms, p, q).value].scalars
  }

  /** The tree with the empty messages on the way from `at` down `path` added. */
  ghost function AddPath(t: Tree, at: Path, path: Path): Tree {
    imap q: Path | q in t || (at <= q && q[|at|..] <= path) :: if q in t then t[q] else map[]
  }

  ghost function SetLeaf(t: Tree, at: Path, f: Field, v: Value): Tree
    requires at in t
  {
    t[at := t[at][f := v]]
  }

  /** Setting scalar f of the (possibly missing) submessage at `at + path`. */
  ghost function SetAt(t: Tree, at: Path, path: Path, f: Field, v: Value): Tree {
    SetLeaf(AddPath(t, at, path), at + path, f, v)
  }

  /** The tree with the given fields of the message at `at`, and all below them, gone. */
  ghost function ClearAt(t: Tree, at: Path, fields: set<Field>): Tree
    requires at in t
  {
    imap q: Path | q in t && !(at < q && q[|at|] in fields) :: if q == at then t[q] - fields else t[q]
  }

  /** The tree with the message at `at` emptied. */
  ghost function EmptyAt(t: Tree, at: Path): Tree
    requires at in t
  {
    imap q: Path | q in t && !(at < q) :: if q == at then map[] else t[q]
  }

  /** The tree with all at and below `at` replaced by another tree. */
  ghost function SubstAt(t: Tree, at: Path, sub: Tree): Tree {
    imap q: Path | if at <= q then q[|at|..] in sub else q in t :: if at <= q then sub[q[|at|..]] else t[q]
  }

  // ----- Shape -----

  ghost predicate Closed(ms: Arena) {
    forall p, f | p in ms && f in ms[p].subs :: ms[p].subs[f] in ms
  }

  ghost predicate Unshared(ms: Arena) {
    forall p, f, p', f' | p in ms && f in ms[p].subs && p' in ms && f' in ms[p'].subs ::
      ms[p].subs[f] == ms[p'].subs[f'] ==> p == p' && f == f'
  }

  ghost predicate Ranked(ms: Arena, d: map<Ptr, nat>) {
    && d.Keys == ms.Keys
    && forall p, f | p in ms && f in ms[p].subs && ms[p].subs[f] in ms :: d[p] < d[ms[p].subs[f]]
  }

  ghost predicate Acyclic(ms: Arena) {
    exists d: map<Ptr, nat> :: Ranked(ms, d)
  }

  /** Messages form finite trees: no dangling, no sharing, no cycles. */
  ghost predicate Forest(ms: Arena) {
    Closed(ms) && Unshared(ms) && Acyclic(ms)
  }

  lemma {:induction false} FindConcat(ms: Arena, p: Ptr, q: Path, r: Path)
    ensures Find(ms, p, q + r) ==
            match Find(ms, p, q) { case None => None case Some(x) => Find(ms, x, r) }
    decreases |q|
  {
    if q == [] {
      assert q + r == r;
    } else if p in ms && q[0] in ms[p].subs {
      assert (q + r)[1..] == q[1..] + r && (q + r)[0] == q[0];
      FindConcat(ms, ms[p].subs[q[0]], q[1..], r);
    }
  }

  lemma {:induction false} FindRises(ms: Arena, d: map<Ptr, nat>, p: Ptr, q: Path)
    requires Ranked(ms, d) && Find(ms, p, q).Some?
    ensures p in d && d[p] + |q| <= d[Find(ms, p, q).value]
    decreases |q|
  {
    if q != [] {
      var f := q[0];
      assert ms[p].subs[f] in ms;
      FindRises(ms, d, ms[p].subs[f], q[1..]);
    }
  }

  /** In a forest two messages are joined by at most one path. */
  lemma {:induction false} PathsAreUnique(ms: Arena, p: Ptr, q: Path, r: Path)
    requires Forest(ms)
    requires Find(ms, p, q).Some? && Find(ms, p, q) == Find(ms, p, r)
    ensures q == r
    decreases |q|
  {
    var d :| Ranked(ms, d);
    FindRises(ms, d, p, q);
    FindRises(ms, d, p, r);
    if q != [] && r != [] {
      var q0, r0 := q[..|q| - 1], r[..|r| - 1];
      var f, g := q[|q| - 1], r[|r| - 1];
      assert q == q0 + [f] && r == r0 + [g];
      FindConcat(ms, p, q0, [f]);
      FindConcat(ms, p, r0, [g]);
      var x, y := Find(ms, p, q0).value, Find(ms, p, r0).value;
      assert Find(ms, x, [f]) == Some(ms[x].subs[f]);
      assert Find(ms, y, [g]) == Some(ms[y].subs[g]);
      PathsAreUnique(ms, p, q0, r0);
    }
  }

  /** The subtrees under two fields of one message have no message in common. */
  lemma SubtreesDisjoint(ms: Arena, p: Ptr, f: Field, g: Field, x: Ptr)
    requires Forest(ms) && p in ms && f in ms[p].subs && g in ms[p].subs
    requires Reaches(ms, ms[p].subs[f], x) && Reaches(ms, ms[p].subs[g], x)
    ensures f == g
  {
    var q :| Find(ms, ms[p].subs[f], q) == Some(x);
    var r :| Find(ms, ms[p].subs[g], r) == Some(x);
    assert Find(ms, p, [f] + q) == Some(x) && Find(ms, p, [g] + r) == Some(x) by {
      assert ([f] + q)[1..] == q && ([g] + r)[1..] == r;
    }
    PathsAreUnique(ms, p, [f] + q, [g] + r);
    assert ([f] + q)[0] == ([g] + r)[0];
  }

  /** A message is not below any of its own fields. */
  lemma NotBelowItself(ms: Arena, p: Ptr, f: Field)
    requires Forest(ms) && p in ms && f in ms[p].subs
    ensures !Reaches(ms, ms[p].subs[f], p)
  {
    if Reaches(ms, ms[p].subs[f], p) {
      var q :| Find(ms, ms[p].subs[f], q) == Some(p);
      assert ([f] + q)[1..] == q;
      assert Find(ms, p, [f] + q) == Some(p);
      PathsAreUnique(ms, p, [f] + q, []);
    }
  }

  // ----- Growing a missing path -----

  /** The k-th message made for a missing path, counted from its far end. */
  function ChainMessage(base: Ptr, path: Path, x: Ptr): Message
    requires base <= x < base + |path|
  {
    if x == base then EMPTY else Message(map[path[base + |path| - x] := x - 1], map[])
  }

  /** The k deepest messages of a missing path, at addresses base, base + 1, ... */
  function Chain(base: Ptr, path: Path, k: nat): Arena
    requires k <= |path|
  {
    map x | base <= x < base + k :: ChainMessage(base, path, x)
  }

  ghost predicate Missing(ms: Arena, a: Ptr, path: Path, base: Ptr) {
    && a in ms
    && path != []
    && path[0] !in ms[a].subs
    && (forall p | p in ms :: p < base)
  }

  /** The arena after the missing path has been hung below message a. */
  function Graft(ms: Arena, a: Ptr, path: Path, base: Ptr): Arena
    requires a in ms && path != []
  {
    (ms + Chain(base, path, |path|))
      [a := ms[a].(subs := ms[a].subs[path[0] := base + |path| - 1])]
  }

  lemma ChainGrows(ms: Arena, path: Path, base: Ptr, k: nat)
    requires k < |path|
    requires forall p | p in ms :: p < base
    ensures k > 0 ==>
              (ms + Chain(base, path, k))[base + k := Message(map[path[|path| - k] := base + k - 1], map[])]
              == ms + Chain(base, path, k + 1)
  {
    if k > 0 {
      assert ChainMessage(base, path, base + k) == Message(map[path[|path| - k] := base + k - 1], map[]);
    }
  }

  lemma {:induction false} FindInChain(ms: Arena, a: Ptr, path: Path, base: Ptr, x: Ptr, q: Path)
    requires Missing(ms, a, path, base) && base <= x < base + |path|
    ensures Find(Graft(ms, a, path, base), x, q) ==
            if q <= path[base + |path| - x..] then Some(x - |q|) else None
    decreases |q|
  {
    var ms' := Graft(ms, a, path, base);
    var rest := path[base + |path| - x..];
    assert ms'[x] == ChainMessage(base, path, x);
    if q != [] && x != base {
      assert rest[1..] == path[base + |path| - (x - 1)..];
      if q[0] == rest[0] {
        FindInChain(ms, a, path, base, x - 1, q[1..]);
        if q[1..] <= rest[1..] {
          assert q == [q[0]] + q[1..] && rest == [rest[0]] + rest[1..];
        }
      }
    }
  }

  /** How many fields of q are followed before message a is met, if it is. */
  function Via(ms: Arena, a: Ptr, p: Ptr, q: Path): (r: Option<nat>)
    ensures r.Some? ==> r.value <= |q|
    decreases |q|
  {
    if p == a then Some(0)
    else if q == [] || p !in ms || q[0] !in ms[p].subs then None
    else
      match Via(ms, a, ms[p].subs[q[0]], q[1..])
      case None => None
      case Some(k) => Some(k + 1)
  }

  lemma {:induction false} ViaIsFound(ms: Arena, a: Ptr, p: Ptr, q: Path)
    requires a in ms && Via(ms, a, p, q).Some?
    ensures Find(ms, p, q[..Via(ms, a, p, q).value]) == Some(a)
    decreases |q|
  {
    if p != a {
      var k := Via(ms, a, p, q).value;
      ViaIsFound(ms, a, ms[p].subs[q[0]], q[1..]);
      assert q[..k][1..] == q[1..][..k - 1];
    }
  }

  lemma {:induction false} FoundIsVia(ms: Arena, a: Ptr, p: Ptr, r: Path, q: Path)
    requires Forest(ms) && Find(ms, p, r) == Some(a) && r <= q
    ensures Via(ms, a, p, q) == Some(|r|)
    decreases |r|
  {
    if r == [] {
    } else {
      if p == a { PathsAreUnique(ms, p, r, []); }
      assert r[1..] <= q[1..];
      FoundIsVia(ms, a, ms[p].subs[r[0]], r[1..], q[1..]);
    }
  }

  lemma ViaIsPrefix(ms: Arena, a: Ptr, p: Ptr, r: Path, q: Path)
    requires Forest(ms) && Find(ms, p, r) == Some(a)
    ensures Via(ms, a, p, q) == if r <= q then Some(|r|) else None
  {
    if r <= q {
      FoundIsVia(ms, a, p, r, q);
    } else if Via(ms, a, p, q).Some? {
      ViaIsFound(ms, a, p, q);
      PathsAreUnique(ms, p, r, q[..Via(ms, a, p, q).value]);
    }
  }

  /** What a path leads to once the missing path has grown. */
  ghost function Grafted(ms: Arena, a: Ptr, path: Path, base: Ptr, p: Ptr, q: Path): Option<Ptr> {
    if Find(ms, p, q).Some? then Find(ms, p, q)
    else if Via(ms, a, p, q).Some? && q[Via(ms, a, p, q).value..] <= path
    then Some(base + |path| - (|q| - Via(ms, a, p, q).value))
    else None
  }

  lemma {:induction false} FindGraft(ms: Arena, a: Ptr, path: Path, base: Ptr, p: Ptr, q: Path)
    requires Forest(ms) && Missing(ms, a, path, base) && p in ms
    ensures Find(Graft(ms, a, path, base), p, q) == Grafted(ms, a, path, base, p, q)
    decreases |q|
  {
    if q == [] {
    } else if p == a && q[0] == path[0] {
      GraftedChain(ms, a, path, base, q);
    } else if q[0] in ms[p].subs {
      var f := q[0];
      var c := ms[p].subs[f];
      FindGraft(ms, a, path, base, c, q[1..]);
      GraftedStep(ms, a, path, base, p, q);
      assert Graft(ms, a, path, base)[p].subs[f] == c;
    } else {
      assert q[0] !in Graft(ms, a, path, base)[p].subs;
      assert q[0..] == q;
    }
  }

  lemma GraftedChain(ms: Arena, a: Ptr, path: Path, base: Ptr, q: Path)
    requires Missing(ms, a, path, base) && q != [] && q[0] == path[0]
    ensures Find(Graft(ms, a, path, base), a, q) == Grafted(ms, a, path, base, a, q)
  {
    FindInChain(ms, a, path, base, base + |path| - 1, q[1..]);
    assert q == [q[0]] + q[1..] && path == [path[0]] + path[1..];
    assert q[0..] == q;
    assert q <= path <==> q[1..] <= path[1..];
  }

  lemma GraftedStep(ms: Arena, a: Ptr, path: Path, base: Ptr, p: Ptr, q: Path)
    requires Forest(ms) && Missing(ms, a, path, base) && p in ms && q != [] && q[0] in ms[p].subs
    ensures Grafted(ms, a, path, base, p, q) == Grafted(ms, a, path, base, ms[p].subs[q[0]], q[1..])
  {
    var f := q[0];
    var c := ms[p].subs[f];
    if p == a {
      assert Via(ms, a, c, q[1..]).None? by {
        if Via(ms, a, c, q[1..]).Some? {
          ViaIsFound(ms, a, c, q[1..]);
          NotBelowItself(ms, a, f);
        }
      }
      assert q[0..] == q;
    } else if Via(ms, a, p, q).Some? {
      var k := Via(ms, a, p, q).value;
      assert q[k..] == q[1..][k - 1..];
    }
  }

  /** The edges of the grown arena: those there were, the new one, and those of the chain. */
  lemma GraftEdge(ms: Arena, a: Ptr, path: Path, base: Ptr, p: Ptr, f: Field)
    requires Closed(ms) && Missing(ms, a, path, base)
    requires p in Graft(ms, a, path, base) && f in Graft(ms, a, path, base)[p].subs
    ensures
      var c := Graft(ms, a, path, base)[p].subs[f];
      if p == a && f == path[0] then c == base + |path| - 1
      else if p in ms then f in ms[p].subs && c == ms[p].subs[f] && c in ms
      else base < p < base + |path| && c == p - 1 && f == path[base + |path| - p]
  {
    if p !in ms {
      assert Graft(ms, a, path, base)[p] == ChainMessage(base, path, p);
    }
  }

  lemma GraftIsRanked(ms: Arena, a: Ptr, path: Path, base: Ptr)
    requires Closed(ms) && Acyclic(ms) && Missing(ms, a, path, base)
    ensures Closed(Graft(ms, a, path, base)) && Acyclic(Graft(ms, a, path, base))
  {
    var ms' := Graft(ms, a, path, base);
    var d :| Ranked(ms, d);
    var n := |path|;
    var d' := map x | x in ms' :: if x in ms then d[x] else d[a] + (base + n - x);
    forall p, f | p in ms' && f in ms'[p].subs ensures ms'[p].subs[f] in ms' && d'[p] < d'[ms'[p].subs[f]] {
      GraftEdge(ms, a, path, base, p, f);
    }
    assert Ranked(ms', d');
  }

  lemma GraftIsForest(ms: Arena, a: Ptr, path: Path, base: Ptr)
    requires Forest(ms) && Missing(ms, a, path, base)
    ensures Forest(Graft(ms, a, path, base))
  {
    var ms' := Graft(ms, a, path, base);
    GraftIsRanked(ms, a, path, base);
    forall p, f, p', f' | p in ms' && f in ms'[p].subs && p' in ms' && f' in ms'[p'].subs
        && ms'[p].subs[f] == ms'[p'].subs[f']
      ensures p == p' && f == f'
    {
      GraftEdge(ms, a, path, base, p, f);
      GraftEdge(ms, a, path, base, p', f');
    }
  }

  lemma GraftTreeAt(ms: Arena, a: Ptr, path: Path, base: Ptr, p: Ptr, r: Path, q: Path)
    requires Forest(ms) && Missing(ms, a, path, base) && Find(ms, p, r) == Some(a)
    ensures q in TreeOf(Graft(ms, a, path, base), p) <==> q in AddPath(TreeOf(ms, p), r, path)
    ensures q in TreeOf(Graft(ms, a, path, base), p) ==>
              TreeOf(Graft(ms, a, path, base), p)[q] == AddPath(TreeOf(ms, p), r, path)[q]
  {
    var ms' := Graft(ms, a, path, base);
    FindGraft(ms, a, path, base, p, q);
    ViaIsPrefix(ms, a, p, r, q);
    if Find(ms, p, q).Some? {
      assert ms'[Find(ms, p, q).value].scalars == ms[Find(ms, p, q).value].scalars;
    } else if Find(ms', p, q).Some? {
      var x := Find(ms', p, q).value;
      assert q != r;
      assert ms'[x] == ChainMessage(base, path, x);
    }
  }

  lemma GraftTreeBelow(ms: Arena, a: Ptr, path: Path, base: Ptr, p: Ptr, r: Path)
    requires Forest(ms) && Missing(ms, a, path, base) && Find(ms, p, r) == Some(a)
    ensures Find(Graft(ms, a, path, base), p, r + path) == Some(base)
    ensures TreeOf(Graft(ms, a, path, base), p) == AddPath(TreeOf(ms, p), r, path)
  {
    var ms' := Graft(ms, a, path, base);
    forall q: Path
      ensures q in TreeOf(ms', p) <==> q in AddPath(TreeOf(ms, p), r, path)
      ensures q in TreeOf(ms', p) ==> TreeOf(ms', p)[q] == AddPath(TreeOf(ms, p), r, path)[q]
    {
      GraftTreeAt(ms, a, path, base, p, r, q);
    }
    FindConcat(ms', p, r, path);
    FindGraft(ms, a, path, base, p, r);
    FindInChain(ms, a, path, base, base + |path| - 1, path[1..]);
    assert Find(ms', a, path) == Some(base);
  }

  /**
    Growing a path changes the abstract value of every message, ancestors of the
    grown message included, by exactly the added path and nothing else.
   */
  lemma GraftTree(ms: Arena, a: Ptr, path: Path, base: Ptr, p: Ptr)
    requires Forest(ms) && Missing(ms, a, path, base) && p in ms
    ensures forall r | Find(ms, p, r) == Some(a) ::
              && Find(Graft(ms, a, path, base), p, r + path) == Some(base)
              && TreeOf(Graft(ms, a, path, base), p) == AddPath(TreeOf(ms, p), r, path)
    ensures !Reaches(ms, p, a) ==> TreeOf(Graft(ms, a, path, base), p) == TreeOf(ms, p)
  {
    var ms' := Graft(ms, a, path, base);
    forall r | Find(ms, p, r) == Some(a)
      ensures Find(ms', p, r + path) == Some(base)
      ensures TreeOf(ms', p) == AddPath(TreeOf(ms, p), r, path)
    {
      GraftTreeBelow(ms, a, path, base, p, r);
    }
    if !Reaches(ms, p, a) {
      forall q: Path
        ensures q in TreeOf(ms', p) <==> q in TreeOf(ms, p)
        ensures q in TreeOf(ms', p) ==> TreeOf(ms', p)[q] == TreeOf(ms, p)[q]
      {
        FindGraft(ms, a, path, base, p, q);
        if Via(ms, a, p, q).Some? { ViaIsFound(ms, a, p, q); }
      }
    }
  }

  // ----- Setting and clearing one field -----

  function WithScalar(ms: Arena, x: Ptr, f: Field, v: Value): Arena
    requires x in ms
  {
    ms[x := ms[x].(scalars := ms[x].scalars[f := v])]
  }

  lemma {:induction false} FindWithScalar(ms: Arena, x: Ptr, f: Field, v: Value, p: Ptr, q: Path)
    requires x in ms
    ensures Find(WithScalar(ms, x, f, v), p, q) == Find(ms, p, q)
    decreases |q|
  {
    if p in ms && q != [] && q[0] in ms[p].subs {
      FindWithScalar(ms, x, f, v, ms[p].subs[q[0]], q[1..]);
    }
  }

  lemma WithScalarTree(ms: Arena, x: Ptr, f: Field, v: Value, p: Ptr)
    requires Forest(ms) && x in ms
    ensures Forest(WithScalar(ms, x, f, v))
    ensures forall r | Find(ms, p, r) == Some(x) ::
              TreeOf(WithScalar(ms, x, f, v), p) == SetLeaf(TreeOf(ms, p), r, f, v)
    ensures !Reaches(ms, p, x) ==> TreeOf(WithScalar(ms, x, f, v), p) == TreeOf(ms, p)
  {
    var ms' := WithScalar(ms, x, f, v);
    var d :| Ranked(ms, d);
    assert Ranked(ms', d);
    forall q: Path ensures Find(ms', p, q) == Find(ms, p, q) {
      FindWithScalar(ms, x, f, v, p, q);
    }
    forall r | Find(ms, p, r) == Some(x)
      ensures TreeOf(ms', p) == SetLeaf(TreeOf(ms, p), r, f, v)
    {
      forall q: Path | Find(ms, p, q) == Some(x) ensures q == r {
        PathsAreUnique(ms, p, q, r);
      }
    }
  }

  function Without(ms: Arena, x: Ptr, fields: set<Field>): Arena
    requires x in ms
  {
    ms[x := Message(ms[x].subs - fields, ms[x].scalars - fields)]
  }

  lemma {:induction false} FindWithout(ms: Arena, x: Ptr, fields: set<Field>, p: Ptr, q: Path)
    requires Forest(ms) && x in ms
    ensures Find(Without(ms, x, fields), p, q) ==
            if Via(ms, x, p, q).Some? && Via(ms, x, p, q).value < |q| && q[Via(ms, x, p, q).value] in fields then None
            else Find(ms, p, q)
    decreases |q|
  {
    if p in ms && q != [] && q[0] in ms[p].subs {
      var c := ms[p].subs[q[0]];
      FindWithout(ms, x, fields, c, q[1..]);
      if p == x {
        if Via(ms, x, c, q[1..]).Some? {
          ViaIsFound(ms, x, c, q[1..]);
          NotBelowItself(ms, x, q[0]);
        }
      }
    }
  }

  lemma WithoutTree(ms: Arena, x: Ptr, fields: set<Field>, p: Ptr)
    requires Forest(ms) && x in ms
    ensures Forest(Without(ms, x, fields))
    ensures forall r | Find(ms, p, r) == Some(x) ::
              TreeOf(Without(ms, x, fields), p) == ClearAt(TreeOf(ms, p), r, fields)
    ensures !Reaches(ms, p, x) ==> TreeOf(Without(ms, x, fields), p) == TreeOf(ms, p)
  {
    var ms' := Without(ms, x, fields);
    var d :| Ranked(ms, d);
    assert Ranked(ms', d);
    forall r | Find(ms, p, r) == Some(x)
      ensures TreeOf(ms', p) == ClearAt(TreeOf(ms, p), r, fields)
    {
      forall q: Path
        ensures q in TreeOf(ms', p) <==> q in ClearAt(TreeOf(ms, p), r, fields)
        ensures q in TreeOf(ms', p) ==> TreeOf(ms', p)[q] == ClearAt(TreeOf(ms, p), r, fields)[q]
      {
        FindWithout(ms, x, fields, p, q);
        if Find(ms, p, q) == Some(x) { PathsAreUnique(ms, p, q, r); }
        ViaIsPrefix(ms, x, p, r, q);
      }
    }
    if !Reaches(ms, p, x) {
      forall q: Path
        ensures q in TreeOf(ms', p) <==> q in TreeOf(ms, p)
        ensures q in TreeOf(ms', p) ==> TreeOf(ms', p)[q] == TreeOf(ms, p)[q]
      {
        FindWithout(ms, x, fields, p, q);
        if Via(ms, x, p, q).Some? { ViaIsFound(ms, x, p, q); }
      }
    }
  }

  /** Emptying a message is removing every field it has. */
  lemma EmptiedTree(ms: Arena, x: Ptr, p: Ptr)
    requires Forest(ms) && x in ms
    ensures Forest(ms[x := EMPTY])
    ensures forall r | Find(ms, p, r) == Some(x) :: TreeOf(ms[x := EMPTY], p) == EmptyAt(TreeOf(ms, p), r)
    ensures !Reaches(ms, p, x) ==> TreeOf(ms[x := EMPTY], p) == TreeOf(ms, p)
  {
    var all := ms[x].subs.Keys + ms[x].scalars.Keys;
    assert Without(ms, x, all) == ms[x := EMPTY];
    WithoutTree(ms, x, all, p);
    forall r | Find(ms, p, r) == Some(x)
      ensures TreeOf(ms[x := EMPTY], p) == EmptyAt(TreeOf(ms, p), r)
    {
      forall q: Path | q in TreeOf(ms, p) && r < q ensures q[|r|] in all {
        assert q == r + q[|r|..];
        FindConcat(ms, p, r, q[|r|..]);
      }
      assert ClearAt(TreeOf(ms, p), r, all) == EmptyAt(TreeOf(ms, p), r);
    }
  }

  /** Clearing a field straight after its missing path was grown leaves no trace of it. */
  lemma ClearGrown(t: Tree, at: Path, f: Field)
    requires at in t && forall q | q in t :: !(at < q && q[|at|] == f)
    ensures ClearAt(AddPath(t, at, [f]), at, {f}) == ClearAt(t, at, {f})
  {
    forall q: Path | at <= q && q[|at|..] <= [f] ensures q == at || (at < q && q[|at|] == f) {
      assert q == at + q[|at|..];
    }
  }

  lemma EmptyTree(ms: Arena, x: Ptr)
    requires x in ms && ms[x] == EMPTY
    ensures TreeOf(ms, x) == imap[[] := map[]]
  {
    assert Find(ms, x, []) == Some(x);
  }

  // ----- Rebuilding one message -----

  ghost predicate OnlyChanges(ms: Arena, ms': Arena, x: Ptr) {
    x in ms && x in ms' && forall m | m in ms && m != x :: m in ms' && ms'[m] == ms[m]
  }

  lemma {:induction false} FindReplaced(ms: Arena, ms': Arena, x: Ptr, p: Ptr, q: Path)
    requires Closed(ms) && OnlyChanges(ms, ms', x) && p in ms
    ensures Find(ms', p, q) ==
            match Via(ms, x, p, q) { case Some(k) => Find(ms', x, q[k..]) case None => Find(ms, p, q) }
    decreases |q|
  {
    if p != x && q != [] && q[0] in ms[p].subs {
      var f := q[0];
      assert ms[p].subs[f] in ms;
      FindReplaced(ms, ms', x, ms[p].subs[f], q[1..]);
      match Via(ms, x, ms[p].subs[f], q[1..])
      case None =>
      case Some(k) => assert q[1..][k..] == q[k + 1..];
    }
  }

  lemma ReplacedAt(ms: Arena, ms': Arena, x: Ptr, p: Ptr, q: Path)
    requires Forest(ms) && OnlyChanges(ms, ms', x) && p in ms && Via(ms, x, p, q).None?
    ensures q in TreeOf(ms', p) <==> q in TreeOf(ms, p)
    ensures q in TreeOf(ms', p) ==> TreeOf(ms', p)[q] == TreeOf(ms, p)[q]
  {
    FindReplaced(ms, ms', x, p, q);
    if Find(ms, p, q).Some? {
      var y := Find(ms, p, q).value;
      if y == x { FoundIsVia(ms, x, p, q, q); }
      assert y in ms' && ms'[y] == ms[y];
    }
  }

  lemma ReplacedBelow(ms: Arena, ms': Arena, x: Ptr, p: Ptr, r: Path, q: Path)
    requires Forest(ms) && OnlyChanges(ms, ms', x) && p in ms && Find(ms, p, r) == Some(x)
    ensures q in TreeOf(ms', p) <==> q in SubstAt(TreeOf(ms, p), r, TreeOf(ms', x))
    ensures q in TreeOf(ms', p) ==> TreeOf(ms', p)[q] == SubstAt(TreeOf(ms, p), r, TreeOf(ms', x))[q]
  {
    ViaIsPrefix(ms, x, p, r, q);
    if r <= q {
      FindReplaced(ms, ms', x, p, q);
    } else {
      ReplacedAt(ms, ms', x, p, q);
    }
  }

  /** Rebuilding one message is seen in exactly the trees it is part of. */
  lemma ReplacedTree(ms: Arena, ms': Arena, x: Ptr, p: Ptr)
    requires Forest(ms) && OnlyChanges(ms, ms', x) && p in ms
    ensures forall r | Find(ms, p, r) == Some(x) :: TreeOf(ms', p) == SubstAt(TreeOf(ms, p), r, TreeOf(ms', x))
    ensures !Reaches(ms, p, x) ==> TreeOf(ms', p) == TreeOf(ms, p)
  {
    forall r | Find(ms, p, r) == Some(x)
      ensures TreeOf(ms', p) == SubstAt(TreeOf(ms, p), r, TreeOf(ms', x))
    {
      ReplacedInside(ms, ms', x, p, r);
    }
    if !Reaches(ms, p, x) {
      ReplacedOutside(ms, ms', x, p);
    }
  }

  lemma ReplacedInside(ms: Arena, ms': Arena, x: Ptr, p: Ptr, r: Path)
    requires Forest(ms) && OnlyChanges(ms, ms', x) && p in ms && Find(ms, p, r) == Some(x)
    ensures TreeOf(ms', p) == SubstAt(TreeOf(ms, p), r, TreeOf(ms', x))
  {
    forall q: Path
      ensures q in TreeOf(ms', p) <==> q in SubstAt(TreeOf(ms, p), r, TreeOf(ms', x))
      ensures q in TreeOf(ms', p) ==> TreeOf(ms', p)[q] == SubstAt(TreeOf(ms, p), r, TreeOf(ms', x))[q]
    {
      ReplacedBelow(ms, ms', x, p, r, q);
    }
  }

  lemma ReplacedOutside(ms: Arena, ms': Arena, x: Ptr, p: Ptr)
    requires Forest(ms) && OnlyChanges(ms, ms', x) && p in ms && !Reaches(ms, p, x)
    ensures TreeOf(ms', p) == TreeOf(ms, p)
  {
    forall q: Path
      ensures q in TreeOf(ms', p) <==> q in TreeOf(ms, p)
      ensures q in TreeOf(ms', p) ==> TreeOf(ms', p)[q] == TreeOf(ms, p)[q]
    {
      if Via(ms, x, p, q).Some? { ViaIsFound(ms, x, p, q); }
      ReplacedAt(ms, ms', x, p, q);
    }
  }

  // ----- Copying field by field -----

  ghost predicate ContainsItself(ms: Arena, x: Ptr) { exists q: Path :: q != [] && Find(ms, x, q) == Some(x) }

  /**
    What copying the fields of one message over another does before it goes
    below them: the copy then contains itself exactly if the source contains it,
    and going below its fields never ends.
   */
  lemma CopyContainsItself(ms: Arena, src: Ptr, dst: Ptr)
    requires Forest(ms) && src in ms && dst in ms && src != dst
    ensures ContainsItself(ms[dst := ms[src]], dst) <==> Reaches(ms, src, dst)
  {
    var ms' := ms[dst := ms[src]];
    if q: Path :| q != [] && Find(ms', dst, q) == Some(dst) {
      var c := ms[src].subs[q[0]];
      FindReplaced(ms, ms', dst, c, q[1..]);
      if Via(ms, dst, c, q[1..]).Some? { ViaIsFound(ms, dst, c, q[1..]); }
      assert Reaches(ms, c, dst);
      var r :| Find(ms, c, r) == Some(dst);
      assert ([q[0]] + r)[1..] == r;
      assert Find(ms, src, [q[0]] + r) == Some(dst);
    }
    if Reaches(ms, src, dst) {
      var q :| Find(ms, src, q) == Some(dst);
      var c := ms[src].subs[q[0]];
      assert c in ms;
      FoundIsVia(ms, dst, c, q[1..], q[1..]);
      FindReplaced(ms, ms', dst, c, q[1..]);
      assert Find(ms', dst, q) == Some(dst);
    }
  }
}
