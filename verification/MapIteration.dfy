/**
  A map container, its version counter, and the iterators that rely on it. A
  key or value arrives as an Option: None stands for a Python object that
  cannot be converted.
 */
module MapIteration {
  import opened Options

  /** `order` is the order in which the hash table is walked; a stub has no table. */
  datatype Table<K, V> = Table(stub: bool, order: seq<K>, values: map<K, V>, version: int)

  datatype Outcome<V> =
    | Done
    | Value(value: V)
    | KeyError
    | ConversionError
    | ValueError
    | OutOfMemory

  datatype Op<K, V> =
    | Assign(key: Option<K>, val: Option<V>, memory: bool)
    | Delete(key: Option<K>)
    | Subscript(key: Option<K>, zero: V, memory: bool)
    | Setdefault(key: Option<K>, given: bool, val: Option<V>, memory: bool)
    | Clear
    | Invalidate
    | Decode(entries: seq<(K, V)>)  // entries arrive with data merged into the message

  datatype Result<K, V> = Result(table: Table<K, V>, outcome: Outcome<V>)

  ghost predicate Walks<K, V>(order: seq<K>, values: map<K, V>) {
    && (forall k | k in order :: k in values) && (forall k | k in values :: k in order)
    && (forall i, j | 0 <= i < j < |order| :: order[i] != order[j])
  }

  ghost predicate Valid<K, V>(t: Table<K, V>) {
    Walks(t.order, t.values) && (t.stub ==> t.order == [])
  }

  function Reified<K, V>(t: Table<K, V>): Table<K, V> {
    t.(stub := false, version := t.version + 1)
  }

  /** Inserting takes back the invalidation if the key was there. */
  function Inserted<K, V>(t: Table<K, V>, key: K, val: V, memory: bool): Result<K, V> {
    if key in t.values then Result(t.(values := t.values[key := val], version := t.version - 1), Done)
    else if memory then Result(t.(order := t.order + [key], values := t.values[key := val]), Done)
    else Result(t, OutOfMemory)
  }

  function Without<K(==)>(order: seq<K>, key: K): (left: seq<K>)
    ensures forall k | k in left :: k in order && k != key
    ensures forall k | k in order :: k == key || k in left
  {
    if order == [] then []
    else if order[0] == key then Without(order[1..], key)
    else [order[0]] + Without(order[1..], key)
  }

  /**
    The decoder inserts into the table the message has, or makes one, which the
    stub is then given; neither asks the container.
   */
  function Filled<K, V>(t: Table<K, V>, entries: seq<(K, V)>): Table<K, V>
    decreases |entries|
  {
    if entries == [] then t
    else
      var (key, val) := entries[0];
      var order := if key in t.values then t.order else t.order + [key];
      Filled(t.(order := order, values := t.values[key := val]), entries[1..])
  }

  ghost function KeysOf<K, V>(entries: seq<(K, V)>): set<K> {
    if entries == [] then {} else {entries[0].0} + KeysOf(entries[1..])
  }

  lemma {:induction false} FilledTable<K, V>(t: Table<K, V>, entries: seq<(K, V)>)
    requires Valid(t) && !t.stub
    ensures Valid(Filled(t, entries)) && Filled(t, entries).version == t.version && !Filled(t, entries).stub
    ensures Filled(t, entries).values.Keys == t.values.Keys + KeysOf(entries)
    ensures KeysOf(entries) <= t.values.Keys ==> Filled(t, entries).order == t.order
    decreases |entries|
  {
    if entries != [] {
      var (key, val) := entries[0];
      var next := t.(order := if key in t.values then t.order else t.order + [key], values := t.values[key := val]);
      assert next.values.Keys == t.values.Keys + {key};
      FilledTable(next, entries[1..]);
    }
  }

  /** What was merged last under a key. */
  function Latest<K(==), V>(entries: seq<(K, V)>, key: K): Option<V>
    decreases |entries|
  {
    if entries == [] then None
    else
      var last := entries[|entries| - 1];
      if last.0 == key then Some(last.1) else Latest(entries[..|entries| - 1], key)
  }

  /** Merging puts what comes last under each key, and leaves the other keys alone. */
  lemma {:induction false} MergedMeans<K, V>(t: Table<K, V>, entries: seq<(K, V)>, key: K)
    ensures
      match Latest(entries, key)
      case Some(val) => key in Filled(t, entries).values && Filled(t, entries).values[key] == val
      case None =>
        && (key in Filled(t, entries).values <==> key in t.values)
        && (key in t.values ==> Filled(t, entries).values[key] == t.values[key])
    decreases |entries|
  {
    if entries != [] {
      var front, last := entries[..|entries| - 1], entries[|entries| - 1];
      assert entries == front + [last];
      FilledConcat(t, front, [last]);
      MergedMeans(t, front, key);
    }
  }

  lemma {:induction false} FilledConcat<K, V>(t: Table<K, V>, a: seq<(K, V)>, b: seq<(K, V)>)
    ensures Filled(t, a + b) == Filled(Filled(t, a), b)
    decreases |a|
  {
    if a == [] {
      assert a + b == b;
    } else {
      assert (a + b)[0] == a[0] && (a + b)[1..] == a[1..] + b;
      var (key, val) := a[0];
      var order := if key in t.values then t.order else t.order + [key];
      FilledConcat(t.(order := order, values := t.values[key := val]), a[1..], b);
    }
  }

  lemma {:induction false} WithoutDistinct<K>(order: seq<K>, key: K)
    requires forall i, j | 0 <= i < j < |order| :: order[i] != order[j]
    ensures forall i, j | 0 <= i < j < |Without(order, key)| :: Without(order, key)[i] != Without(order, key)[j]
    decreases |order|
  {
    if order != [] {
      WithoutDistinct(order[1..], key);
      var rest := Without(order[1..], key);
      forall j | 0 <= j < |rest| ensures rest[j] != order[0] {
        assert rest[j] in order[1..];
      }
    }
  }

  function Apply<K, V>(t: Table<K, V>, op: Op<K, V>): Result<K, V> {
    match op
    case Assign(key, val, memory) =>
      var r := Reified(t);
      if key.None? || val.None? then Result(r, ConversionError) else Inserted(r, key.value, val.value, memory)
    case Delete(key) =>
      var r := Reified(t);
      if key.None? then Result(r, ConversionError)
      else if key.value !in r.values then Result(r, KeyError)
      else Result(r.(order := Without(r.order, key.value), values := r.values - {key.value}), Done)
    case Subscript(key, zero, memory) =>
      if key.None? then Result(t, ConversionError)
      else if key.value in t.values then Result(t, Value(t.values[key.value]))
      else
        var put := Inserted(Reified(t), key.value, zero, memory);
        Result(put.table, if put.outcome.Done? then Value(zero) else put.outcome)
    case Setdefault(key, given, val, memory) =>
      if !given then Result(t, ValueError)
      else
        var r := Reified(t);
        if key.None? then Result(r, ConversionError)
        else if key.value in r.values then Result(r, Value(r.values[key.value]))
        else if val.None? then Result(r, ConversionError)
        else
          var put := Inserted(r, key.value, val.value, memory);
          Result(put.table, if put.outcome.Done? then Value(val.value) else put.outcome)
    case Clear => Result(Reified(t).(order := [], values := map[]), Done)
    case Invalidate => Result(t.(version := t.version + 1), Done)
    case Decode(entries) => Result(if entries == [] then t else Filled(t.(stub := false), entries), Done)
  }

  lemma ApplyKeepsValid<K, V>(t: Table<K, V>, op: Op<K, V>)
    requires Valid(t)
    ensures Valid(Apply(t, op).table)
  {
    if op.Decode? && op.entries != [] {
      FilledTable(t.(stub := false), op.entries);
    }
    if op.Delete? && op.key.Some? {
      WithoutDistinct(t.order, op.key.value);
    }
  }

  /** What the operations mean for the map: those of a Python dictionary, whatever happens to order and version. */
  lemma MeansDictionary<K, V>(t: Table<K, V>, key: K, val: V)
    requires Valid(t)
    ensures Apply(t, Assign(Some(key), Some(val), true)).table.values == t.values[key := val]
    ensures Apply(t, Delete(Some(key))).outcome == if key in t.values then Done else KeyError
    ensures Apply(t, Delete(Some(key))).table.values == t.values - {key}
    ensures Apply(t, Subscript(Some(key), val, true)).outcome == Value(if key in t.values then t.values[key] else val)
    ensures Apply(t, Setdefault(Some(key), true, Some(val), true)).outcome
            == Value(if key in t.values then t.values[key] else val)
    ensures Apply(t, Subscript(Some(key), val, true)).table.values
         == Apply(t, Setdefault(Some(key), true, Some(val), true)).table.values
         == if key in t.values then t.values else t.values[key := val]
    ensures Apply(t, Clear).outcome == Done
    ensures Apply(t, Clear).table.values == map[] && Apply(t, Clear).table.order == []
    ensures Apply(t, Invalidate).table.values == t.values && Apply(t, Invalidate).table.order == t.order
  {
    if key !in t.values {
      assert t.values - {key} == t.values;
    }
  }

  ghost predicate Unconvertible<K, V>(t: Table<K, V>, op: Op<K, V>) {
    match op
    case Assign(key, val, _) => key.None? || val.None?
    case Delete(key) => key.None?
    case Subscript(key, _, _) => key.None?
    case Setdefault(key, given, val, _) => given && (key.None? || (key.value !in t.values && val.None?))
    case _ => false
  }

  /** A key would have to be added, and there is no memory for it. */
  ghost predicate Overfull<K, V>(t: Table<K, V>, op: Op<K, V>) {
    match op
    case Assign(key, val, memory) => key.Some? && val.Some? && key.value !in t.values && !memory
    case Subscript(key, _, memory) => key.Some? && key.value !in t.values && !memory
    case Setdefault(key, given, val, memory) =>
      given && key.Some? && val.Some? && key.value !in t.values && !memory
    case _ => false
  }

  /** Each way to fail has its own cause, and an operation without one succeeds. */
  lemma FailsForCause<K, V>(t: Table<K, V>, op: Op<K, V>)
    ensures
      var outcome := Apply(t, op).outcome;
      && (outcome.ConversionError? <==> Unconvertible(t, op))
      && (outcome.OutOfMemory? <==> Overfull(t, op))
      && (outcome.ValueError? <==> op.Setdefault? && !op.given)
      && (outcome.KeyError? <==> op.Delete? && op.key.Some? && op.key.value !in t.values)
  {
  }

  /** An operation that fails leaves the map as it was; at most the version has moved. */
  lemma FailureChangesNothing<K, V>(t: Table<K, V>, op: Op<K, V>)
    requires Valid(t)
    requires var o := Apply(t, op).outcome; o.KeyError? || o.ConversionError? || o.ValueError? || o.OutOfMemory?
    ensures Apply(t, op).table.order == t.order && Apply(t, op).table.values == t.values
  {
  }

  // ----- The version -----

  /** The operation only looks, or puts a new value under a key that is there. */
  predicate KeepsVersion<K, V>(t: Table<K, V>, op: Op<K, V>) {
    match op
    case Assign(key, val, _) => key.Some? && val.Some? && key.value in t.values
    case Subscript(key, _, _) => key.None? || key.value in t.values
    case Setdefault(_, given, _, _) => !given
    case Decode(_) => true
    case _ => false
  }

  /** Data merged into the message bring a key of their own: the one change of keys that leaves the version alone. */
  ghost predicate Silent<K, V>(t: Table<K, V>, op: Op<K, V>) {
    op.Decode? && !(KeysOf(op.entries) <= t.values.Keys)
  }

  /**
    The version never falls; it stays exactly in the cases named; and the set of
    keys changes under an unchanged version exactly when merged data bring a new key.
   */
  lemma VersionTellsKeys<K, V>(t: Table<K, V>, op: Op<K, V>)
    requires Valid(t)
    ensures Apply(t, op).table.version == if KeepsVersion(t, op) then t.version else t.version + 1
    ensures Apply(t, op).table.version == t.version && Apply(t, op).table.values.Keys != t.values.Keys
            <==> Silent(t, op)
    ensures Apply(t, op).table.version == t.version && Apply(t, op).table.order != t.order ==> Silent(t, op)
  {
    var s := Apply(t, op).table;
    match op
    case Assign(key, val, _) =>
      if KeepsVersion(t, op) { assert s.values.Keys == t.values.Keys; }
    case Decode(entries) =>
      if entries != [] {
        FilledTable(t.(stub := false), entries);
      }
    case _ =>
  }

  /** Replacing a value does not invalidate iterators, and is the replacement it should be. */
  lemma ReplacingKeepsIterators<K, V>(t: Table<K, V>, key: K, val: V, memory: bool)
    requires Valid(t) && key in t.values
    ensures
      var r := Apply(t, Assign(Some(key), Some(val), memory));
      && r.outcome == Done && r.table.version == t.version && r.table.order == t.order
      && r.table.values == t.values[key := val]
  {
    assert !t.stub by { assert key in t.order; }
  }

  function Run<K, V>(t: Table<K, V>, ops: seq<Op<K, V>>): Table<K, V>
    decreases |ops|
  {
    if ops == [] then t else Run(Apply(t, ops[0]).table, ops[1..])
  }

  ghost predicate NoneSilent<K, V>(t: Table<K, V>, ops: seq<Op<K, V>>)
    decreases |ops|
  {
    ops == [] || (!Silent(t, ops[0]) && NoneSilent(Apply(t, ops[0]).table, ops[1..]))
  }

  /** Over any sequence of operations: a version that still matches means the same keys in the same order. */
  lemma {:induction false} MatchingVersionMeansSameKeys<K, V>(t: Table<K, V>, ops: seq<Op<K, V>>)
    requires Valid(t) && NoneSilent(t, ops)
    ensures Valid(Run(t, ops)) && Run(t, ops).version >= t.version
    ensures Run(t, ops).version == t.version ==>
            Run(t, ops).order == t.order && Run(t, ops).values.Keys == t.values.Keys
    decreases |ops|
  {
    if ops != [] {
      ApplyKeepsValid(t, ops[0]);
      VersionTellsKeys(t, ops[0]);
      MatchingVersionMeansSameKeys(Apply(t, ops[0]).table, ops[1..]);
    }
  }

  /**
    Without that proviso it fails: an iterator notices neither the table its
    message gives a stub nor a key that is decoded into a table in use.
   */
  lemma MergingGoesUnnoticed()
    ensures
      var stub: Table<int, int> := Table(true, [], map[], 0);
      var used: Table<int, int> := Table(false, [7], map[7 := 1], 1);
      && Valid(stub) && Valid(used)
      && Apply(stub, Decode([(7, 1)])).table == Table(false, [7], map[7 := 1], 0)
      && Apply(used, Decode([(8, 2)])).table == Table(false, [7, 8], map[7 := 1, 8 := 2], 1)
  {
    var stub: Table<int, int> := Table(true, [], map[], 0);
    var used: Table<int, int> := Table(false, [7], map[7 := 1], 1);
    var first, second := [(7, 1)], [(8, 2)];
    assert Filled(Table(false, [7], map[7 := 1], 0), first[1..]) == Table(false, [7], map[7 := 1], 0);
    assert Filled(stub.(stub := false), first) == Table(false, [7], map[7 := 1], 0);
    assert Filled(Table(false, [7, 8], map[7 := 1, 8 := 2], 1), second[1..])
           == Table(false, [7, 8], map[7 := 1, 8 := 2], 1);
  }

  // ----- Iterators -----

  datatype Iter = Iter(pos: nat, version: int)

  datatype Next<K> = Key(key: K) | StopIteration | RuntimeError

  datatype Stepped<K> = Stepped(iter: Iter, next: Next<K>)

  function IterNext<K, V>(t: Table<K, V>, it: Iter): Stepped<K> {
    if it.version != t.version then Stepped(it, RuntimeError)
    else if t.stub || it.pos >= |t.order| then Stepped(it, StopIteration)
    else Stepped(it.(pos := it.pos + 1), Key(t.order[it.pos]))
  }

  /** The keys a program got, and how its iteration ended if it has. */
  datatype Walk<K> = Walk(yielded: seq<K>, end: Option<Next<K>>)

  /** A program that iterates and operates on the map as it likes; the step None asks for the next key. */
  function Iterate<K, V>(t: Table<K, V>, it: Iter, steps: seq<Option<Op<K, V>>>, yielded: seq<K>): Walk<K>
    decreases |steps|
  {
    if steps == [] then Walk(yielded, None)
    else if steps[0].Some? then Iterate(Apply(t, steps[0].value).table, it, steps[1..], yielded)
    else
      var s := IterNext(t, it);
      if s.next.Key? then Iterate(t, s.iter, steps[1..], yielded + [s.next.key])
      else Walk(yielded, Some(s.next))
  }

  ghost predicate AllAudible<K, V>(t: Table<K, V>, steps: seq<Option<Op<K, V>>>)
    decreases |steps|
  {
    steps == [] ||
    (if steps[0].None? then AllAudible(t, steps[1..])
     else !Silent(t, steps[0].value) && AllAudible(Apply(t, steps[0].value).table, steps[1..]))
  }

  /**
    Iterator soundness: whatever is done to the map meanwhile, but for merging
    new keys into it behind its back, an iteration yields the keys there were
    when it began, each at most once and in one order; if it ends by itself it
    has yielded them all, otherwise it has reported the modification or is not over.
   */
  lemma {:induction false} IterationYieldsOriginalKeys<K, V>(t0: Table<K, V>, t: Table<K, V>, it: Iter,
                                                             steps: seq<Option<Op<K, V>>>)
    requires Valid(t0) && Valid(t) && AllAudible(t, steps)
    requires it.version == t0.version <= t.version && it.pos <= |t0.order|
    requires t.version == t0.version ==> t.order == t0.order
    ensures
      var walk := Iterate(t, it, steps, t0.order[..it.pos]);
      walk.yielded <= t0.order && (walk.end == Some(StopIteration) ==> walk.yielded == t0.order)
    decreases |steps|
  {
    if steps != [] {
      if steps[0].Some? {
        ApplyKeepsValid(t, steps[0].value);
        VersionTellsKeys(t, steps[0].value);
        IterationYieldsOriginalKeys(t0, Apply(t, steps[0].value).table, it, steps[1..]);
      } else {
        var s := IterNext(t, it);
        if s.next.Key? {
          assert !t.stub && t0.order[..it.pos] + [s.next.key] == t0.order[..it.pos + 1];
          IterationYieldsOriginalKeys(t0, t, s.iter, steps[1..]);
        }
      }
    }
  }

  /** No operation in between moves the version. */
  ghost predicate AllKeepVersion<K, V>(t: Table<K, V>, steps: seq<Option<Op<K, V>>>)
    decreases |steps|
  {
    steps == [] ||
    (if steps[0].None? then AllKeepVersion(t, steps[1..])
     else KeepsVersion(t, steps[0].value) && AllKeepVersion(Apply(t, steps[0].value).table, steps[1..]))
  }

  /** A modification is reported only if there was one. */
  lemma {:induction false} ReportedOnlyIfModified<K, V>(t: Table<K, V>, it: Iter, steps: seq<Option<Op<K, V>>>,
                                                        yielded: seq<K>)
    requires Valid(t) && it.version == t.version && AllKeepVersion(t, steps)
    ensures Iterate(t, it, steps, yielded).end != Some(RuntimeError)
    decreases |steps|
  {
    if steps != [] {
      if steps[0].Some? {
        ApplyKeepsValid(t, steps[0].value);
        VersionTellsKeys(t, steps[0].value);
        ReportedOnlyIfModified(Apply(t, steps[0].value).table, it, steps[1..], yielded);
      } else {
        var s := IterNext(t, it);
        if s.next.Key? { ReportedOnlyIfModified(t, s.iter, steps[1..], yielded + [s.next.key]); }
      }
    }
  }

  /** One that was is reported by the next request for a key. */
  lemma ModificationIsReported<K, V>(t: Table<K, V>, it: Iter, steps: seq<Option<Op<K, V>>>, yielded: seq<K>)
    requires it.version != t.version && steps != [] && steps[0].None?
    ensures Iterate(t, it, steps, yielded) == Walk(yielded, Some(RuntimeError))
  {
  }

  function Requests<K, V>(n: nat): seq<Option<Op<K, V>>> { seq(n, _ => None) }

  /** An iteration nobody disturbs yields all that is left and then ends. */
  lemma {:induction false} UndisturbedIterationEnds<K, V>(t: Table<K, V>, it: Iter)
    requires Valid(t) && it.version == t.version && it.pos <= |t.order|
    ensures
      Iterate(t, it, Requests(|t.order| - it.pos + 1), t.order[..it.pos]) == Walk(t.order, Some(StopIteration))
    decreases |t.order| - it.pos
  {
    var n := |t.order| - it.pos;
    var steps: seq<Option<Op<K, V>>> := Requests(n + 1);
    assert steps[1..] == Requests(n);
    if n > 0 {
      assert t.order[..it.pos] + [t.order[it.pos]] == t.order[..it.pos + 1];
      UndisturbedIterationEnds(t, it.(pos := it.pos + 1));
    } else {
      assert t.order[..it.pos] == t.order;
    }
  }

  // ----- The objects -----

  class MapContainer<K(==), V> {
    var stub: bool
    var order: seq<K>
    var values: map<K, V>
    var version: int

    ghost function T(): Table<K, V>
      reads this
    {
      Table(stub, order, values, version)
    }

    constructor NewStub()
      ensures T() == Table(true, [], map[], 0)
    {
      stub, order, values, version := true, [], map[], 0;
    }

    method EnsureReified()
      modifies `stub, `version
      ensures T() == Reified(old(T()))
    {
      version := version + 1;
      if stub {
        stub := false;
      }
    }

    method Set(key: K, val: V, memory: bool) returns (outcome: Outcome<V>)
      modifies `order, `values, `version
      ensures Result(T(), outcome) == Inserted(old(T()), key, val, memory)
    {
      if key in values {
        values := values[key := val];
        version := version - 1;
        return Done;
      }
      if !memory {
        return OutOfMemory;
      }
      order := order + [key];
      values := values[key := val];
      return Done;
    }

    method AssignSubscript(key: Option<K>, val: Option<V>, memory: bool) returns (outcome: Outcome<V>)
      modifies this
      ensures Result(T(), outcome) == Apply(old(T()), Assign(key, val, memory))
    {
      EnsureReified();
      if key.None? || val.None? {
        return ConversionError;
      }
      outcome := Set(key.value, val.value, memory);
    }

    method DeleteSubscript(key: Option<K>) returns (outcome: Outcome<V>)
      modifies this
      ensures Result(T(), outcome) == Apply(old(T()), Delete(key))
    {
      EnsureReified();
      if key.None? {
        return ConversionError;
      }
      if key.value !in values {
        return KeyError;
      }
      order, values := Without(order, key.value), values - {key.value};
      return Done;
    }

    method GetItem(key: Option<K>, zero: V, memory: bool) returns (outcome: Outcome<V>)
      requires Valid(T())
      modifies this
      ensures Result(T(), outcome) == Apply(old(T()), Subscript(key, zero, memory))
    {
      if key.None? {
        return ConversionError;
      }
      if stub || key.value !in values {
        EnsureReified();
        outcome := Set(key.value, zero, memory);
        return if outcome.Done? then Value(zero) else outcome;
      }
      return Value(values[key.value]);
    }

    method SetDefault(key: Option<K>, given: bool, val: Option<V>, memory: bool) returns (outcome: Outcome<V>)
      modifies this
      ensures Result(T(), outcome) == Apply(old(T()), Setdefault(key, given, val, memory))
    {
      if !given {
        return ValueError;
      }
      EnsureReified();
      if key.None? {
        return ConversionError;
      }
      if key.value in values {
        return Value(values[key.value]);
      }
      if val.None? {
        return ConversionError;
      }
      outcome := Set(key.value, val.value, memory);
      return if outcome.Done? then Value(val.value) else outcome;
    }

    method ClearAll()
      modifies this
      ensures T() == Apply(old(T()), Clear).table
    {
      EnsureReified();
      order, values := [], map[];
    }

    method MarkInvalid()
      modifies `version
      ensures T() == Apply(old(T()), Invalidate).table
    {
      version := version + 1;
    }

    /** Data with these entries are merged into the message; the container is not asked. */
    method Merged(entries: seq<(K, V)>)
      requires Valid(T())
      modifies `stub, `order, `values
      ensures T() == Apply(old(T()), Decode(entries)).table
    {
      var i := 0;
      assert entries[0..] == entries;
      if entries == [] {
        return;
      }
      stub := false;
      ghost var start := T();
      while i < |entries|
        invariant i <= |entries| && !stub
        invariant Filled(T(), entries[i..]) == Filled(start, entries)
      {
        var (key, val) := entries[i];
        assert entries[i..][0] == entries[i] && entries[i..][1..] == entries[i + 1..];
        if key !in values {
          order := order + [key];
        }
        values := values[key := val];
        i := i + 1;
      }
    }
  }

  class MapIterator<K(==), V> {
    const container: MapContainer<K, V>
    var pos: nat
    const version: int

    constructor (container: MapContainer<K, V>)
      ensures this.container == container && Iter(pos, version) == Iter(0, container.version)
    {
      this.container, pos, version := container, 0, container.version;
    }

    method MoveNext() returns (next: Next<K>)
      modifies `pos
      ensures Stepped(Iter(pos, version), next) == IterNext(container.T(), old(Iter(pos, version)))
    {
      if version != container.version {
        return RuntimeError;
      }
      if container.stub || pos >= |container.order| {
        return StopIteration;
      }
      pos := pos + 1;
      return Key(container.order[pos - 1]);
    }
  }
}
