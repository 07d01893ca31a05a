/**
  In-place deletion and assignment of slices of a repeated field, on a buffer
  with spare capacity.
 */
module RepeatedContainer {
  import opened Options
  import opened SliceSemantics

  /** Arithmetic on size_t wraps. */
  const SIZE_MODULUS: int := 0x1_0000_0000_0000_0000

  const PY_SSIZE_LIMIT: int := 0x8000_0000_0000_0000

  function SizeT(x: int): nat { x % SIZE_MODULUS }

  /** The buffer after a memmove. */
  ghost function Moved<T>(b: seq<T>, dst: nat, src: nat, count: nat): (r: seq<T>)
    requires dst + count <= |b| && src + count <= |b|
    ensures |r| == |b|
  {
    b[..dst] + b[src..src + count] + b[dst + count..]
  }

  /** Writing vals at every step-th position from idx. */
  ghost predicate StridedWrite<T>(s: seq<T>, s': seq<T>, idx: int, step: int, vals: seq<T>) {
    && |s'| == |s|
    && (forall i: nat | i < |vals| :: 0 <= idx + i * step < |s| && s'[idx + i * step] == vals[i])
    && (forall k: nat | k < |s| && !InSlice(k, idx, |vals|, step) :: s'[k] == s[k])
  }

  // ----- Lemmas for deletion -----

  /** The i-th position of a slice. */
  function Position(start: int, step: int, i: nat): int {
    if i == 0 then start else Position(start, step, i - 1) + step
  }

  lemma {:induction false} PositionIs(start: int, step: int, i: nat)
    ensures Position(start, step, i) == start + i * step
  {
    if i > 0 { PositionIs(start, step, i - 1); }
  }

  lemma KeptStep<T>(s: seq<T>, start: nat, count: nat, step: nat, i: nat, last: int)
    requires step >= 2 && 1 <= i < count && Position(start, step, count - 1) < |s|
             && last == Position(start, step, i - 1)
    ensures start <= last && last + step < |s|
    ensures Kept(s, last + 1 + step, start, count, step) ==
            Kept(s, last + 1, start, count, step) + s[last + 1..last + step]
  {
    PositionIs(start, step, i - 1);
    PositionIs(start, step, i);
    PositionIs(start, step, count - 1);
    MulMono(0, i - 1, step);
    MulMono(i, count - 1, step);
    assert last + step == start + i * step;
    forall k | last < k < last + step ensures !InSlice(k, start, count, step) {
      GapIsFree(start, count, step, i - 1, k);
    }
    KeptRun(s, last + 1, last + step, start, count, step);
    assert InSlice(last + step, start, count, step);
  }

  /** Before the loop: everything up to the first position, without it, is in place. */
  lemma KeptFirst<T>(s: seq<T>, start: nat, count: nat, step: nat)
    requires step >= 1 && count >= 1 && Position(start, step, count - 1) < |s|
    ensures start < |s| && Kept(s, start + 1, start, count, step) == s[..start]
  {
    PositionIs(start, step, count - 1);
    MulMono(0, count - 1, step);
    forall k | 0 <= k < start ensures !InSlice(k, start, count, step) {
      OutsideIsFree(start, count, step, k);
    }
    KeptRun(s, 0, start, start, count, step);
    assert InSlice(start, start, count, step) by { assert start == start + 0 * step; }
  }

  /** After the loop: beyond the last position everything is kept. */
  lemma KeptLast<T>(s: seq<T>, start: nat, count: nat, step: nat, src: nat)
    requires step >= 1 && count >= 1 && src == Position(start, step, count - 1) + 1 <= |s|
    ensures Kept(s, |s|, start, count, step) == Kept(s, src, start, count, step) + s[src..]
  {
    PositionIs(start, step, count - 1);
    forall k | src <= k < |s| ensures !InSlice(k, start, count, step) {
      OutsideIsFree(start, count, step, k);
    }
    KeptRun(s, src, |s|, start, count, step);
  }

  lemma ContiguousMember(k: int, start: nat, count: nat, step: nat)
    requires step == 1 || (step == 0 && count == 1)
    ensures InSlice(k, start, count, step) <==> start <= k < start + count
  {
    if start <= k < start + count {
      var i: nat := k - start;
      assert i < count && k == start + i * step;
    }
  }

  lemma ContiguousMembers(start: nat, count: nat, step: nat)
    requires step == 1 || (step == 0 && count == 1)
    ensures forall k {:trigger InSlice(k, start, count, step)} ::
            InSlice(k, start, count, step) <==> start <= k < start + count
  {
    forall k ensures InSlice(k, start, count, step) <==> start <= k < start + count {
      ContiguousMember(k, start, count, step);
    }
  }

  lemma KeptFront<T>(s: seq<T>, start: nat, count: nat, step: nat)
    requires step <= 1 && start + count <= |s| && (step == 0 ==> count == 1)
    ensures Kept(s, start + count, start, count, step) == s[..start]
  {
    ContiguousMembers(start, count, step);
    KeptRun(s, 0, start, start, count, step);
    DroppedRun(s, start, start + count, start, count, step);
  }

  /** A contiguous slice, or the single index that step 0 stands for. */
  lemma KeptContiguous<T>(s: seq<T>, start: nat, count: nat, step: nat)
    requires step <= 1 && start + count <= |s| && (step == 0 ==> count == 1)
    ensures Kept(s, |s|, start, count, step) == s[..start] + s[start + count..]
  {
    KeptFront(s, start, count, step);
    ContiguousMembers(start, count, step);
    KeptRun(s, start + count, |s|, start, count, step);
  }

  lemma KeptNothingDropped<T>(s: seq<T>, idx: int, step: int)
    ensures Kept(s, |s|, idx, 0, step) == s
  {
    KeptRun(s, 0, |s|, idx, 0, step);
  }

  /** What a strided move does to the part already in place and the part not yet read. */
  lemma MoveOnce<T>(b: seq<T>, s: seq<T>, size: nat, dst: nat, src: nat, step: nat)
    requires size <= |b| && |s| == size && dst < src && src + step <= size && step >= 1
    requires b[src..size] == s[src..]
    ensures Moved(b, dst, src, step)[..dst + step - 1] == b[..dst] + s[src..src + step - 1]
    ensures Moved(b, dst, src, step)[src + step..size] == s[src + step..]
  {
    var r := Moved(b, dst, src, step);
    var got, want := r[..dst + step - 1], b[..dst] + s[src..src + step - 1];
    forall k | 0 <= k < |got| ensures got[k] == want[k] {
      if k >= dst {
        assert r[k] == b[src + (k - dst)] == b[src..size][k - dst] == s[src..][k - dst];
      }
    }
    assert got == want;
    assert r[src + step..size] == b[src + step..size];
    assert b[src + step..size] == b[src..size][step..] == s[src..][step..];
  }

  // ----- Lemmas for assignment -----

  /** A Python value: what it converts to as an element, and as a sequence of elements. */
  datatype PyValue<T> = PyValue(scalar: Option<T>, items: Option<seq<Option<T>>>)

  /** The values converted before the first item that does not convert. */
  function Converted<T>(items: seq<Option<T>>): (vals: seq<T>)
    ensures |vals| <= |items|
    ensures forall i | 0 <= i < |vals| :: items[i] == Some(vals[i])
    ensures |vals| < |items| ==> items[|vals|].None?
  {
    if items == [] || items[0].None? then [] else [items[0].value] + Converted(items[1..])
  }

  lemma {:induction false} ConvertedAt<T>(items: seq<Option<T>>, i: nat)
    requires i < |items| && i <= |Converted(items)|
    ensures i < |Converted(items)| <==> items[i].Some?
  {
    if i == |Converted(items)| {
    } else {
      assert items[i] == Some(Converted(items)[i]);
    }
  }

  lemma PositionsDiffer(idx: int, step: int, i: nat, j: nat)
    requires step != 0 && i != j
    ensures Position(idx, step, i) != Position(idx, step, j)
  {
    PositionIs(idx, step, i);
    PositionIs(idx, step, j);
    assert (i - j) * step != 0;
    assert i * step - j * step == (i - j) * step;
  }

  ghost predicate WrittenUpTo<T>(b0: seq<T>, b: seq<T>, idx: int, step: int, vals: seq<T>, i: nat)
    requires i <= |vals|
  {
    && |b| == |b0|
    && (forall j: nat | j < i :: 0 <= Position(idx, step, j) < |b| && b[Position(idx, step, j)] == vals[j])
    && (forall k: nat | k < |b| && (forall j: nat | j < i :: Position(idx, step, j) != k) :: b[k] == b0[k])
  }

  lemma WriteNext<T>(b0: seq<T>, b: seq<T>, idx: int, step: int, vals: seq<T>, i: nat)
    requires i < |vals| && step != 0 && WrittenUpTo(b0, b, idx, step, vals, i)
    requires 0 <= Position(idx, step, i) < |b|
    ensures WrittenUpTo(b0, b[Position(idx, step, i) := vals[i]], idx, step, vals, i + 1)
  {
    var b' := b[Position(idx, step, i) := vals[i]];
    forall j: nat | j < i + 1 ensures 0 <= Position(idx, step, j) < |b'| && b'[Position(idx, step, j)] == vals[j] {
      if j < i { PositionsDiffer(idx, step, i, j); }
    }
  }

  lemma WrittenIsStrided<T>(b0: seq<T>, b: seq<T>, idx: int, step: int, vals: seq<T>, size: nat)
    requires WrittenUpTo(b0, b, idx, step, vals, |vals|) && size <= |b|
    requires forall i: nat | i < |vals| :: 0 <= idx + i * step < size
    ensures StridedWrite(b0[..size], b[..size], idx, step, vals)
  {
    forall i: nat | i < |vals| ensures b[..size][idx + i * step] == vals[i] {
      PositionIs(idx, step, i);
    }
    forall k: nat | k < size && !InSlice(k, idx, |vals|, step) ensures b[..size][k] == b0[..size][k] {
      forall j: nat | j < |vals| ensures Position(idx, step, j) != k {
        PositionIs(idx, step, j);
      }
    }
  }

  /** A contiguous strided write is a splice. */
  lemma StridedIsSplice<T>(s: seq<T>, s': seq<T>, idx: nat, vals: seq<T>)
    requires StridedWrite(s, s', idx, 1, vals) && idx + |vals| <= |s|
    ensures s' == s[..idx] + vals + s[idx + |vals|..]
  {
    forall i: nat | i < |vals| ensures s'[idx + i] == vals[i] {
      assert idx + i * 1 == idx + i;
    }
    forall k: nat | k < |s| && (k < idx || k >= idx + |vals|) ensures s'[k] == s[k] {
      OutsideIsFree(idx, |vals|, 1, k);
    }
  }

  /**
    The length of what follows src and the new size, in wrapping arithmetic:
    absurdly large when src is past the end.
   */
  method TailSizes(size: nat, dst: nat, src: nat, ghost capacity: nat) returns (tail: nat, newSize: nat)
    requires dst <= src && size <= capacity < PY_SSIZE_LIMIT
    ensures src <= size ==> tail == size - src && newSize == dst + tail
    ensures src > size ==> src + tail > capacity
  {
    tail := SizeT(size - src);
    newSize := SizeT(dst + tail);
  }

  lemma MovedTail<T>(b: seq<T>, dst: nat, src: nat, tail: nat)
    requires dst <= src && src + tail <= |b|
    ensures Moved(b, dst, src, tail)[..dst + tail] == b[..dst] + b[src..src + tail]
  {
    var got, want := Moved(b, dst, src, tail)[..dst + tail], b[..dst] + b[src..src + tail];
    forall k | 0 <= k < |got| ensures got[k] == want[k] {
      if k >= dst { assert got[k] == b[src + (k - dst)]; }
    }
    assert got == want;
  }

  lemma ReshapeFacts<T>(b: seq<T>, s: seq<T>, idx: nat, count: nat, n: nat, tail: nat, c: seq<T>)
    requires |s| == idx + count + tail <= |b| && b[..|s|] == s && idx + n + tail <= |b|
    requires c == Moved(b, idx + n, idx + count, tail)[..idx + n + tail]
    ensures c[..idx] == s[..idx] && c[idx + n..] == s[idx + count..]
  {
    var front, back := c[..idx], c[idx + n..];
    forall k | 0 <= k < idx ensures front[k] == s[k] {
      assert b[k] == b[..|s|][k];
    }
    forall k | 0 <= k < tail ensures back[k] == s[idx + count + k] {
      assert b[idx + count + k] == b[..|s|][idx + count + k];
    }
    assert front == s[..idx] && back == s[idx + count..];
  }

  lemma MovedIs<T>(b: seq<T>, c: seq<T>, dst: nat, src: nat, count: nat)
    requires dst + count <= |b| == |c| && src + count <= |b|
    requires forall k | dst <= k < dst + count :: c[k] == b[src + (k - dst)]
    requires forall k | 0 <= k < |b| && !(dst <= k < dst + count) :: c[k] == b[k]
    ensures c == Moved(b, dst, src, count)
  {
    var want := Moved(b, dst, src, count);
    forall k | 0 <= k < |c| ensures c[k] == want[k] {
      if dst <= k < dst + count { assert want[k] == b[src..src + count][k - dst]; }
    }
  }

  class UpbArray<T(0)> {
    var buf: array<T>
    var size: nat

    ghost predicate Valid()
      reads this
    {
      size <= buf.Length < PY_SSIZE_LIMIT
    }

    ghost function Contents(): seq<T>
      reads this, buf
      requires Valid()
    {
      buf[..size]
    }

    constructor (b: array<T>, n: nat)
      requires n <= b.Length < PY_SSIZE_LIMIT
      ensures Valid() && buf == b && size == n
    {
      buf, size := b, n;
    }

    /** memmove within the buffer; refused when it would leave the buffer. */
    method Move(dst: nat, src: nat, count: nat) returns (ok: bool)
      requires Valid()
      modifies buf
      ensures ok <==> dst + count <= buf.Length && src + count <= buf.Length
      ensures buf[..] == if ok then Moved(old(buf[..]), dst, src, count) else old(buf[..])
    {
      ok := dst + count <= buf.Length && src + count <= buf.Length;
      if ok {
        ghost var b := buf[..];
        forall i | 0 <= i < count {
          buf[dst + i] := buf[src + i];
        }
        forall k | dst <= k < dst + count ensures buf[k] == b[src + (k - dst)] {
          assert buf[dst + (k - dst)] == b[src + (k - dst)];
        }
        MovedIs(b, buf[..], dst, src, count);
      }
    }

    /** Sets the size; growing past the capacity moves to a larger buffer, shrinking erases nothing. */
    method Resize(n: nat)
      requires Valid() && n < PY_SSIZE_LIMIT
      modifies this
      ensures Valid() && size == n && (buf == old(buf) || fresh(buf))
      ensures n <= old(buf.Length) ==> buf == old(buf)
      ensures buf.Length >= old(buf.Length) && buf[..old(buf.Length)] == old(buf[..])
    {
      if n > buf.Length {
        var b := new T[n];
        forall i | 0 <= i < buf.Length {
          b[i] := buf[i];
        }
        assert b[..buf.Length] == buf[..];
        buf := b;
      }
      size := n;
    }

    /** One turn of the loop below. */
    method MoveBlock(dst: nat, src: nat, step: nat, ghost s: seq<T>)
      requires Valid() && |s| == size && dst < src && src + step <= size && step >= 1
      requires buf[src..size] == s[src..]
      modifies buf
      ensures buf[..dst + step - 1] == old(buf[..dst]) + s[src..src + step - 1]
      ensures buf[src + step..size] == s[src + step..]
    {
      ghost var b := buf[..];
      assert b[src..size] == buf[src..size];
      MoveOnce(b, s, size, dst, src, step);
      var ok := Move(dst, src, step);
      assert buf[..dst + step - 1] == buf[..][..dst + step - 1];
      assert buf[src + step..size] == buf[..][src + step..size];
      assert b[..dst] == old(buf[..dst]);
    }

    method Advance(dst: nat, src: nat, step: nat, ghost s: seq<T>, ghost start: nat, ghost count: nat, ghost i: nat)
      requires Valid() && step > 1 && Closed(s, dst, src, start, count, step, i) && i < count
      requires Position(start, step, count - 1) < |s|
      modifies buf
      ensures Closed(s, dst + step - 1, src + step, start, count, step, i + 1)
    {
      KeptStep(s, start, count, step, i, src - 1);
      MoveBlock(dst, src, step, s);
    }

    /** Closes the gaps between the positions of a strided slice, one block at a time. */
    method MoveBetweenSteps(start: nat, count: nat, step: nat) returns (dst: nat, src: nat)
      requires Valid() && step > 1 && (count >= 1 ==> Position(start, step, count - 1) < size)
      modifies buf
      ensures count == 0 ==> buf[..] == old(buf[..]) && dst == start && src == start + 1
      ensures count >= 1 ==> Closed(old(Contents()), dst, src, start, count, step, count)
    {
      dst, src := start, start + 1;
      ghost var s := Contents();
      if count >= 1 {
        KeptFirst(s, start, count, step);
      }
      var i := 1;
      while i < count
        invariant 1 <= i && (count >= 1 ==> i <= count)
        invariant count == 0 ==> i == 1 && dst == start && src == start + 1 && buf[..] == old(buf[..])
        invariant count >= 1 ==> Closed(s, dst, src, start, count, step, i)
      {
        Advance(dst, src, step, s, start, count, i);
        i, dst, src := i + 1, dst + step - 1, src + step;
      }
    }

    /** The first i positions are gone from buf[..dst]; from src on nothing has moved yet. */
    ghost predicate Closed(s: seq<T>, dst: nat, src: nat, start: nat, count: nat, step: nat, i: nat)
      reads this, buf
    {
      && size <= buf.Length && |s| == size && 1 <= i <= count
      && dst < src <= size && src == Position(start, step, i - 1) + 1 && src - dst == i
      && buf[..dst] == Kept(s, src, start, count, step)
      && buf[src..size] == s[src..]
    }

    /** Moves what follows the last removed element down and cuts the size, in wrapping arithmetic. */
    method MoveTail(dst: nat, src: nat) returns (ok: bool)
      requires Valid() && dst <= src
      modifies this, buf
      ensures Valid() && buf == old(buf) && (ok <==> src <= old(size))
      ensures ok ==> size == old(size) - (src - dst) && Contents() == old(buf[..dst]) + old(buf[src..size])
    {
      ghost var b := buf[..];
      ghost var kept := if src <= size then b[..dst] + b[src..size] else [];
      assert src <= size ==> kept == buf[..dst] + buf[src..size];
      var tail, newSize := TailSizes(size, dst, src, buf.Length);
      ok := Move(dst, src, tail);
      if ok {
        Shorten(newSize, kept, b, dst, src, tail);
      }
    }

    method Shorten(newSize: nat, ghost kept: seq<T>, ghost b: seq<T>, ghost dst: nat, ghost src: nat, ghost tail: nat)
      requires Valid() && newSize == dst + tail <= buf.Length && dst <= src && src + tail <= |b| == buf.Length
      requires buf[..] == Moved(b, dst, src, tail) && kept == b[..dst] + b[src..src + tail]
      modifies this
      ensures Valid() && buf == old(buf) && size == newSize && Contents() == kept
    {
      MovedTail(b, dst, src, tail);
      Resize(newSize);
      assert buf[..newSize] == buf[..][..newSize];
    }

    /** The element at one position goes, or the move would leave what is there. */
    ghost predicate LosesOne(s: seq<T>, at: int, ok: bool)
      reads this, buf
      requires Valid()
    {
      0 <= at && (ok <==> at < |s|) && (ok ==> Contents() == s[..at] + s[at + 1..])
    }

    /** The same for a slice turned to run forward. */
    method DeleteForward(start: nat, count: nat, step: nat) returns (ok: bool)
      requires Valid() && (step <= 1 ==> start + count <= size) && (step == 0 ==> count == 1)
      requires step > 1 && count >= 1 ==> Position(start, step, count - 1) < size
      modifies this, buf
      ensures Valid() && buf == old(buf)
      ensures count >= 1 || step <= 1 ==>
                ok && size == old(size) - count && Contents() == Kept(old(Contents()), old(size), start, count, step)
      ensures count == 0 && step > 1 ==> LosesOne(old(Contents()), start, ok)
    {
      ghost var s := Contents();
      var dst, src := start, 0;
      if step > 1 {
        dst, src := MoveBetweenSteps(start, count, step);
        if count >= 1 {
          KeptLast(s, start, count, step, src);
        } else if start < size {
          assert buf[..start] == s[..start] && buf[start + 1..size] == s[start + 1..];
        }
      } else {
        src := start + count;
        KeptContiguous(s, start, count, step);
        assert buf[..dst] == s[..start] && buf[src..size] == s[src..];
      }
      ok := MoveTail(dst, src);
    }

    /**
      Deletes the elements of a slice. It does exactly that, with every move
      inside the buffer, unless the slice is empty and its step is not 1 or -1:
      then it deletes the one element at which the slice would begin or, running
      backward, the one it would have come from, if there is such an element.
     */
    method DeleteSubscript(idx: int, count: nat, step: int) returns (ok: bool)
      requires Valid() && InRange(size, idx, count, step)
      modifies this, buf
      ensures Valid() && buf == old(buf)
      ensures ok && Contents() == Kept(old(Contents()), old(size), idx, count, step) <==> count >= 1 || -1 <= step <= 1
      ensures count >= 1 ==> size == old(size) - count
      ensures count == 0 && step > 1 ==> LosesOne(old(Contents()), idx, ok)
      ensures count == 0 && step < -1 ==> LosesOne(old(Contents()), idx - step, ok)
    {
      ghost var s := Contents();
      var start, st := idx, step;
      if step < 0 {
        var end := start + step * (count - 1);
        start := end;
        st := -step;
      }
      Turned(s, idx, count, step, start);
      ok := DeleteForward(start, count, st);
    }

    /** `del container[index]`: Python's meaning, up to the same exception. */
    method DeleteItem(index: Index) returns (r: Result<bool, IndexError>)
      requires Valid()
      modifies this, buf
      ensures Valid() && buf == old(buf)
      ensures r.Ok? <==> Acceptable(index, old(size))
      ensures r.Err? ==>
                Contents() == old(Contents()) && r.error == if index.Single? then OutOfRange else ZeroStep
      ensures r.Ok? ==>
                (r.value && Contents() == PythonKept(old(Contents()), old(size), index)
                 <==> index.Single? || -1 <= index.step <= 1 || exists k :: Selects(index, old(size), k))
      ensures index.Slice? && !(-1 <= index.step <= 1) && !(exists k :: Selects(index, old(size), k)) ==>
                var first := PythonEnd(old(size), index.start, index.step);
                r.Ok? && LosesOne(old(Contents()), if index.step < 0 then first - index.step else first, r.value)
    {
      RefusedIffPythonRefuses(index, size);
      match IndexToRange(index, size)
      case Err(e) => r := Err(e);
      case Ok(Range(idx, count, step)) =>
        NormalisedIsPythonic(index, size);
        SomethingSelected(index, size);
        KeptIsPythonic(Contents(), size, index);
        if index.Slice? { ClipIsPythonEnd(size, index.start, index.step); }
        var ok := DeleteSubscript(idx, count, step);
        r := Ok(ok);
    }

    /** Makes room for n elements in place of count at idx; growing or shrinking by moving the tail. */
    method Reshape(idx: nat, count: nat, n: nat)
      requires Valid() && idx + count <= size && size + n < PY_SSIZE_LIMIT
      modifies this, buf
      ensures Valid() && (buf == old(buf) || fresh(buf)) && size == old(size) - count + n
      ensures Contents()[..idx] == old(Contents())[..idx]
      ensures Contents()[idx + n..] == old(Contents())[idx + count..]
    {
      ghost var s := Contents();
      var tail := size - (idx + count);
      Resize(idx + n + tail);
      assert buf[..|s|] == s by { assert buf[..old(buf.Length)] == old(buf[..]); }
      ShiftTail(idx, count, n, tail, s);
    }

    method ShiftTail(idx: nat, count: nat, n: nat, tail: nat, ghost s: seq<T>)
      requires Valid() && size == idx + n + tail && |s| == idx + count + tail <= buf.Length && buf[..|s|] == s
      modifies buf
      ensures Contents()[..idx] == s[..idx] && Contents()[idx + n..] == s[idx + count..]
    {
      ghost var b := buf[..];
      assert b[..|s|] == s;
      var ok := Move(idx + n, idx + count, tail);
      ghost var c := Contents();
      assert c == buf[..][..size];
      ReshapeFacts(b, s, idx, count, n, tail, c);
    }

    /** One write of the loop below. */
    method WriteAt(at: nat, ghost b0: seq<T>, ghost idx: int, ghost step: int, ghost vals: seq<T>, ghost i: nat, v: T)
      requires Valid() && at < size && step != 0 && i < |vals| && v == vals[i] && at == Position(idx, step, i)
      requires WrittenUpTo(b0, buf[..], idx, step, vals, i)
      modifies buf
      ensures WrittenUpTo(b0, buf[..], idx, step, vals, i + 1)
    {
      ghost var b := buf[..];
      WriteNext(b0, b, idx, step, vals, i);
      buf[at] := v;
      assert buf[..] == b[at := v];
    }

    /** Writes converted items one step apart; stops at the first that does not convert. */
    method WriteItems(idx: int, step: int, items: seq<Option<T>>) returns (ok: bool)
      requires Valid() && step != 0
      requires forall i: nat | i < |items| :: 0 <= idx + i * step < size
      modifies buf
      ensures ok <==> |Converted(items)| == |items|
      ensures StridedWrite(old(Contents()), Contents(), idx, step, Converted(items))
    {
      ghost var b0, vals := buf[..], Converted(items);
      forall i: nat | i < |items| ensures 0 <= Position(idx, step, i) < size {
        PositionIs(idx, step, i);
      }
      ok := WriteLoop(idx, step, items);
      WrittenIsStrided(b0, buf[..], idx, step, vals, size);
      assert b0[..size] == old(Contents()) && buf[..][..size] == Contents();
    }

    method WriteLoop(idx: int, step: int, items: seq<Option<T>>) returns (ok: bool)
      requires Valid() && step != 0
      requires forall i: nat | i < |items| :: 0 <= Position(idx, step, i) < size
      modifies buf
      ensures ok <==> |Converted(items)| == |items|
      ensures WrittenUpTo(old(buf[..]), buf[..], idx, step, Converted(items), |Converted(items)|)
    {
      ghost var b0, vals := buf[..], Converted(items);
      var at, i := idx, 0;
      while i < |items|
        invariant i <= |vals| && at == Position(idx, step, i)
        invariant WrittenUpTo(b0, buf[..], idx, step, vals, i)
      {
        ConvertedAt(items, i);
        if items[i].None? {
          return false;
        }
        WriteAt(at, b0, idx, step, vals, i, items[i].value);
        at, i := at + step, i + 1;
      }
      return true;
    }

    /** The outcome of assigning items to a slice. */
    ghost predicate RangeSet(s: seq<T>, idx: int, count: nat, step: int, items: seq<Option<T>>, ok: bool)
      reads this, buf
      requires Valid()
    {
      var n, vals := |items|, Converted(items);
      if n != count && step != 1 then !ok && Contents() == s
      else
        && (ok <==> |vals| == n)
        && (n == count ==> StridedWrite(s, Contents(), idx, step, vals))
        && (step == 1 ==>
              && 0 <= idx && idx + count <= |s| && size == |s| - count + n
              && (ok ==> Contents() == s[..idx] + vals + s[idx + count..])
              && Contents()[..idx + |vals|] == s[..idx] + vals
              && Contents()[idx + n..] == s[idx + count..])
    }

    method SetRange(idx: int, count: nat, step: int, items: seq<Option<T>>) returns (ok: bool)
      requires Valid() && InRange(size, idx, count, step) && step != 0 && size + |items| < PY_SSIZE_LIMIT
      modifies this, buf
      ensures Valid() && (buf == old(buf) || fresh(buf))
      ensures RangeSet(old(Contents()), idx, count, step, items, ok)
    {
      if |items| != count {
        if step == 1 {
          ok := SetSplice(idx, count, items);
        } else {
          ok := false;
        }
      } else {
        ghost var s := Contents();
        ok := WriteItems(idx, step, items);
        if step == 1 {
          ContiguousInRange(|s|, idx, count);
          SpliceFacts(s, Contents(), idx, Converted(items), count);
        }
      }
    }

    method SetSplice(idx: int, count: nat, items: seq<Option<T>>) returns (ok: bool)
      requires Valid() && InRange(size, idx, count, 1) && |items| != count && size + |items| < PY_SSIZE_LIMIT
      modifies this, buf
      ensures Valid() && (buf == old(buf) || fresh(buf))
      ensures RangeSet(old(Contents()), idx, count, 1, items, ok)
    {
      ContiguousInRange(size, idx, count);
      Reshape(idx, count, |items|);
      ghost var mid := Contents();
      ok := WriteItems(idx, 1, items);
      SpliceFacts(mid, Contents(), idx, Converted(items), |items|);
    }

    /**
      Assigns to an index or a slice. Only step 1 may change the length; a length
      mismatch otherwise, or a value of the wrong kind, changes nothing; an item
      that does not convert stops the assignment where it stands.
     */
    method SetSubscript(isSubMessage: bool, idx: int, count: nat, step: int, value: PyValue<T>) returns (ok: bool)
      requires Valid() && InRange(size, idx, count, step)
      requires value.items.Some? ==> size + |value.items.value| < PY_SSIZE_LIMIT
      modifies this, buf
      ensures Valid() && (buf == old(buf) || fresh(buf))
      ensures isSubMessage ==> !ok && Contents() == old(Contents())
      ensures !isSubMessage && step == 0 ==>
                && 0 <= idx < old(size)
                && (ok <==> value.scalar.Some?)
                && Contents() == if ok then old(Contents())[idx := value.scalar.value] else old(Contents())
      ensures !isSubMessage && step != 0 && value.items.None? ==> !ok && Contents() == old(Contents())
      ensures !isSubMessage && step != 0 && value.items.Some? ==>
                RangeSet(old(Contents()), idx, count, step, value.items.value, ok)
    {
      if isSubMessage {
        return false;
      }
      if step == 0 {
        assert var i: nat := 0; i < count && 0 <= idx + i * step < size;
        if value.scalar.None? {
          return false;
        }
        buf[idx] := value.scalar.value;
        return true;
      }
      if value.items.None? {
        return false;
      }
      ok := SetRange(idx, count, step, value.items.value);
    }
  }

  lemma SpliceFacts<T>(mid: seq<T>, s': seq<T>, idx: nat, vals: seq<T>, n: nat)
    requires StridedWrite(mid, s', idx, 1, vals) && |vals| <= n && idx + n <= |mid|
    ensures s'[..idx + |vals|] == mid[..idx] + vals && s'[idx + n..] == mid[idx + n..]
    ensures |vals| == n ==> s' == mid[..idx] + vals + mid[idx + n..]
  {
    StridedIsSplice(mid, s', idx, vals);
  }

  lemma ContiguousInRange(size: nat, idx: int, count: nat)
    requires InRange(size, idx, count, 1)
    ensures 0 <= idx && idx + count <= size
  {
    if count >= 1 {
      var last: nat := count - 1;
      assert 0 <= idx + last * 1 < size;
    }
  }

  /** Where a slice begins when it is read forward. */
  lemma Turned<T>(s: seq<T>, idx: int, count: nat, step: int, start: int)
    requires InRange(|s|, idx, count, step) && start == if step < 0 then idx + step * (count - 1) else idx
    ensures
      var st := if step < 0 then -step else step;
      && 0 <= start && (st <= 1 ==> start + count <= |s|)
      && (count >= 1 ==> Position(start, st, count - 1) < |s|)
      && Kept(s, |s|, idx, count, step) == Kept(s, |s|, start, count, st)
    ensures count == 0 ==> Kept(s, |s|, idx, count, step) == s && start == if step < 0 then idx - step else idx
  {
    if count == 0 {
      KeptNothingDropped(s, idx, step);
      KeptNothingDropped(s, start, if step < 0 then -step else step);
    } else if step < 0 {
      StartBackward(s, idx, count, step);
    } else {
      StartForward(s, idx, count, step);
    }
  }

  /** A slice that runs backward, from its other end. */
  lemma StartBackward<T>(s: seq<T>, idx: int, count: nat, step: int)
    requires InRange(|s|, idx, count, step) && step < 0 && count >= 1
    ensures
      var start := idx + step * (count - 1);
      && 0 <= start && Position(start, -step, count - 1) == idx < |s|
      && (step == -1 ==> start + count <= |s|)
      && Kept(s, |s|, idx, count, step) == Kept(s, |s|, start, count, -step)
  {
    var last: nat := count - 1;
    var start := idx + step * last;
    assert 0 <= idx + last * step < |s|;
    assert last * step == step * last && last * -step == -(step * last);
    PositionIs(start, -step, last);
    KeptReversed(s, |s|, idx, count, step);
  }

  lemma StartForward<T>(s: seq<T>, idx: int, count: nat, step: int)
    requires InRange(|s|, idx, count, step) && step >= 0
    ensures 0 <= idx && (count >= 1 ==> Position(idx, step, count - 1) < |s|) && (step <= 1 ==> idx + count <= |s|)
  {
    if count >= 1 {
      var first, last: nat := 0, count - 1;
      assert 0 <= idx + first * step < |s| && 0 <= idx + last * step < |s|;
      PositionIs(idx, step, last);
      assert step == 1 ==> last * step == last;
    }
  }
}
