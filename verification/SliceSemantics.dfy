/**
  Python's meaning of an index or slice, and how protobuf.c normalises one into
  a first index, a count and a step.
 */
module SliceSemantics {
  import opened Options

  // ----- The positions of a normalised slice -----

  ghost predicate InSlice(k: int, idx: int, count: nat, step: int) {
    exists i: nat :: i < count && k == idx + i * step
  }

  /** What normalisation guarantees; step 0 stands for a single index. */
  ghost predicate InRange(size: nat, idx: int, count: nat, step: int) {
    && (forall i: nat | i < count :: 0 <= idx + i * step < size)
    && (step == 0 ==> count == 1)
    && (step > 0 ==> 0 <= idx <= size)
    && (step < 0 ==> -1 <= idx < size)
  }

  /** The elements of s[..hi] whose positions are not in the slice, in their order. */
  ghost function Kept<T>(s: seq<T>, hi: nat, idx: int, count: nat, step: int): (r: seq<T>)
    requires hi <= |s|
    ensures |r| <= hi
  {
    if hi == 0 then []
    else Kept(s, hi - 1, idx, count, step) + (if InSlice(hi - 1, idx, count, step) then [] else [s[hi - 1]])
  }

  lemma {:induction false} KeptRun<T>(s: seq<T>, lo: nat, hi: nat, idx: int, count: nat, step: int)
    requires lo <= hi <= |s|
    requires forall k | lo <= k < hi :: !InSlice(k, idx, count, step)
    ensures Kept(s, hi, idx, count, step) == Kept(s, lo, idx, count, step) + s[lo..hi]
  {
    if lo < hi {
      KeptRun(s, lo, hi - 1, idx, count, step);
      assert s[lo..hi] == s[lo..hi - 1] + [s[hi - 1]];
    } else {
      assert s[lo..hi] == [];
    }
  }

  lemma {:induction false} DroppedRun<T>(s: seq<T>, lo: nat, hi: nat, idx: int, count: nat, step: int)
    requires lo <= hi <= |s|
    requires forall k | lo <= k < hi :: InSlice(k, idx, count, step)
    ensures Kept(s, hi, idx, count, step) == Kept(s, lo, idx, count, step)
  {
    if lo < hi {
      DroppedRun(s, lo, hi - 1, idx, count, step);
    }
  }

  lemma MulMono(i: int, j: int, step: int)
    requires i <= j && step >= 0
    ensures i * step <= j * step
  {
  }

  /** Between two consecutive positions of a slice there is no other. */
  lemma GapIsFree(idx: int, count: nat, step: int, i: int, k: int)
    requires step >= 1 && idx + i * step < k < idx + (i + 1) * step
    ensures !InSlice(k, idx, count, step)
  {
    forall j: nat | j < count ensures k != idx + j * step {
      if j <= i { MulMono(j, i, step); } else { MulMono(i + 1, j, step); }
    }
  }

  lemma OutsideIsFree(idx: int, count: nat, step: int, k: int)
    requires step >= 1 && (k < idx || (count >= 1 && k > idx + (count - 1) * step) || count == 0)
    ensures !InSlice(k, idx, count, step)
  {
    forall j: nat | j < count ensures k != idx + j * step {
      MulMono(0, j, step);
      MulMono(j, count - 1, step);
    }
  }

  /** Deletion does not depend on direction: the slice read backwards has the same positions. */
  lemma SliceReversed(k: int, idx: int, count: nat, step: int)
    requires count >= 1
    ensures InSlice(k, idx, count, step) <==> InSlice(k, idx + step * (count - 1), count, -step)
  {
    var end := idx + step * (count - 1);
    if InSlice(k, idx, count, step) {
      var i: nat :| i < count && k == idx + i * step;
      Flip(idx, count, step, i);
      var j: nat := count - 1 - i;
      assert j < count && k == end + j * -step;
    }
    if InSlice(k, end, count, -step) {
      var j: nat :| j < count && k == end + j * -step;
      var i: nat := count - 1 - j;
      Flip(idx, count, step, i);
      assert i < count && k == idx + i * step;
    }
  }

  lemma Flip(idx: int, count: nat, step: int, i: nat)
    ensures idx + i * step == idx + step * (count - 1) + (count - 1 - i) * -step
  {
  }

  lemma {:induction false} KeptReversed<T>(s: seq<T>, hi: nat, idx: int, count: nat, step: int)
    requires hi <= |s| && count >= 1
    ensures Kept(s, hi, idx, count, step) == Kept(s, hi, idx + step * (count - 1), count, -step)
  {
    if hi > 0 {
      KeptReversed(s, hi - 1, idx, count, step);
      SliceReversed(hi - 1, idx, count, step);
    }
  }

  // ----- Normalisation -----

  datatype Index =
    | Single(i: int)
    | Slice(start: int, stop: int, step: int)

  datatype IndexError = ZeroStep | OutOfRange

  datatype Range = Range(idx: int, count: nat, step: int)

  /** One end of a slice, clipped to the sequence. */
  function ClipEnd(length: nat, end: int, step: int): int {
    if end < 0 then
      if end + length < 0 then (if step < 0 then -1 else 0) else end + length
    else if end >= length then (if step < 0 then length - 1 else length)
    else end
  }

  function AdjustIndices(length: nat, start: int, stop: int, step: int): (count: nat)
    requires step != 0
  {
    var a, b := ClipEnd(length, start, step), ClipEnd(length, stop, step);
    if step < 0 then if b < a then (a - b - 1) / -step + 1 else 0
    else if a < b then (b - a - 1) / step + 1 else 0
  }

  function IndexToRange(index: Index, size: nat): Result<Range, IndexError> {
    match index
    case Slice(start, stop, step) =>
      if step == 0 then Err(ZeroStep)
      else Ok(Range(ClipEnd(size, start, step), AdjustIndices(size, start, stop, step), step))
    case Single(i) =>
      var j := if i < 0 then i + size else i;
      if j < 0 || size <= j then Err(OutOfRange) else Ok(Range(j, 1, 0))
  }

  /** Python counts negative positions from the end. */
  function FromStart(size: nat, end: int): int { if end < 0 then end + size else end }

  function Between(lo: int, x: int, hi: int): int { if x < lo then lo else if x > hi then hi else x }

  /** An end of a slice as Python defines it: past the ends there is nothing, seen from the side it starts at. */
  function PythonEnd(size: nat, end: int, step: int): int {
    if step < 0 then Between(-1, FromStart(size, end), size - 1) else Between(0, FromStart(size, end), size)
  }

  lemma ClipIsPythonEnd(size: nat, end: int, step: int)
    ensures ClipEnd(size, end, step) == PythonEnd(size, end, step)
  {
  }

  /** The positions Python gives an index: one, or every step-th one from start short of stop. */
  ghost predicate Selects(index: Index, size: nat, k: int) {
    match index
    case Single(i) => 0 <= k < size && (k == i || k == i + size)
    case Slice(start, stop, step) =>
      var a, b := PythonEnd(size, start, step), PythonEnd(size, stop, step);
      if step > 0 then a <= k < b && (k - a) % step == 0
      else step < 0 && b < k <= a && (a - k) % -step == 0
  }

  /** Python takes an index if it is in range from either end, and a slice if its step is not zero. */
  predicate Acceptable(index: Index, size: nat) {
    match index
    case Single(i) => -(size as int) <= i < size
    case Slice(_, _, step) => step != 0
  }

  /** Normalisation refuses exactly what Python refuses, for the same reason. */
  lemma RefusedIffPythonRefuses(index: Index, size: nat)
    ensures IndexToRange(index, size).Ok? <==> Acceptable(index, size)
    ensures IndexToRange(index, size).Err? ==>
              IndexToRange(index, size).error == if index.Single? then OutOfRange else ZeroStep
  {
  }

  lemma CountCovers(span: nat, step: int, i: nat)
    requires step >= 1 && span >= 1
    ensures i < (span - 1) / step + 1 <==> i * step < span
  {
    var q, r := (span - 1) / step, (span - 1) % step;
    assert span - 1 == q * step + r;
    if i <= q {
      MulMono(i, q, step);
    } else {
      MulMono(q + 1, i, step);
      assert (q + 1) * step == q * step + step;
    }
  }

  lemma MultipleOf(i: nat, step: int)
    requires step >= 1
    ensures (i * step) % step == 0
  {
    MultipleOfUp(i, step);
  }

  lemma {:induction false} MultipleOfUp(i: nat, step: int)
    requires step >= 1
    ensures (i * step) % step == 0
  {
    if i > 0 {
      MultipleOfUp(i - 1, step);
      assert i * step == (i - 1) * step + step;
      AddStep((i - 1) * step, step);
    }
  }

  lemma AddStep(x: int, step: int)
    requires step >= 1
    ensures (x + step) % step == x % step
  {
    var q, r := x / step, x % step;
    assert x + step == (q + 1) * step + r by { assert x == q * step + r; }
    ModUnique(x + step, step, q + 1, r);
  }

  lemma ModUnique(x: int, step: int, q: int, r: int)
    requires step >= 1 && x == q * step + r && 0 <= r < step
    ensures x % step == r
  {
    var q', r' := x / step, x % step;
    assert x == q' * step + r';
    if q < q' { MulMono(q + 1, q', step); }
    if q' < q { MulMono(q' + 1, q, step); }
  }

  ghost predicate OnGrid(d: int, count: nat, mag: int) {
    exists i: nat :: i < count && d == i * mag
  }

  lemma GridIsSpan(d: int, mag: int, span: int, count: nat)
    requires mag >= 1 && count == if span >= 1 then (span - 1) / mag + 1 else 0
    ensures OnGrid(d, count, mag) <==> 0 <= d < span && d % mag == 0
  {
    if OnGrid(d, count, mag) {
      var i: nat :| i < count && d == i * mag;
      CountCovers(span, mag, i);
      MultipleOf(i, mag);
      MulMono(0, i, mag);
    }
    if 0 <= d < span && d % mag == 0 {
      var i: nat := d / mag;
      assert d == i * mag;
      CountCovers(span, mag, i);
    }
  }

  lemma SliceIsGrid(k: int, idx: int, count: nat, step: int)
    requires step != 0
    ensures InSlice(k, idx, count, step) <==>
            if step > 0 then OnGrid(k - idx, count, step) else OnGrid(idx - k, count, -step)
  {
    if InSlice(k, idx, count, step) {
      var i: nat :| i < count && k == idx + i * step;
      assert if step > 0 then k - idx == i * step else idx - k == i * -step;
    }
    if step > 0 && OnGrid(k - idx, count, step) {
      var i: nat :| i < count && k - idx == i * step;
      assert k == idx + i * step;
    }
    if step < 0 && OnGrid(idx - k, count, -step) {
      var i: nat :| i < count && idx - k == i * -step;
      assert k == idx + i * step;
    }
  }

  /** Normalisation picks exactly the positions Python picks, all of them in range. */
  lemma NormalisedIsPythonic(index: Index, size: nat)
    requires IndexToRange(index, size).Ok?
    ensures
      var Range(idx, count, step) := IndexToRange(index, size).value;
      && InRange(size, idx, count, step)
      && (forall k :: InSlice(k, idx, count, step) <==> Selects(index, size, k))
      && (if index.Slice? then step == index.step else step == 0 && count == 1)
  {
    var Range(idx, count, step) := IndexToRange(index, size).value;
    forall k ensures InSlice(k, idx, count, step) <==> Selects(index, size, k) {
      match index
      case Single(i) =>
        assert k == idx ==> k == idx + 0 * step;
      case Slice(start, stop, _) =>
        var b := PythonEnd(size, stop, step);
        ClipIsPythonEnd(size, start, step);
        ClipIsPythonEnd(size, stop, step);
        SliceIsGrid(k, idx, count, step);
        if step > 0 { GridIsSpan(k - idx, step, b - idx, count); } else { GridIsSpan(idx - k, -step, idx - b, count); }
    }
    forall i: nat | i < count ensures 0 <= idx + i * step < size {
      assert InSlice(idx + i * step, idx, count, step);
      assert Selects(index, size, idx + i * step);
    }
  }

  lemma SomethingSelected(index: Index, size: nat)
    requires IndexToRange(index, size).Ok?
    ensures IndexToRange(index, size).value.count >= 1 <==> exists k :: Selects(index, size, k)
  {
    NormalisedIsPythonic(index, size);
    var Range(idx, count, step) := IndexToRange(index, size).value;
    if count >= 1 {
      assert idx == idx + 0 * step;
      assert InSlice(idx, idx, count, step);
      assert Selects(index, size, idx);
    }
    if k :| Selects(index, size, k) {
      assert InSlice(k, idx, count, step);
    }
  }

  /** Python's `del s[index]`, restricted to s[..hi]. */
  ghost function PythonKept<T>(s: seq<T>, hi: nat, index: Index): seq<T>
    requires hi <= |s|
  {
    if hi == 0 then []
    else PythonKept(s, hi - 1, index) + (if Selects(index, |s|, hi - 1) then [] else [s[hi - 1]])
  }

  lemma {:induction false} KeptIsPythonic<T>(s: seq<T>, hi: nat, index: Index)
    requires hi <= |s| && IndexToRange(index, |s|).Ok?
    ensures
      var Range(idx, count, step) := IndexToRange(index, |s|).value;
      PythonKept(s, hi, index) == Kept(s, hi, idx, count, step)
  {
    NormalisedIsPythonic(index, |s|);
    if hi > 0 {
      KeptIsPythonic(s, hi - 1, index);
    }
  }

  /** An empty slice with a step of 2 is an ordinary input: s[1:1:2] on three elements. */
  lemma EmptyStridedSliceArises()
    ensures IndexToRange(Slice(1, 1, 2), 3) == Ok(Range(1, 0, 2))
    ensures forall k :: !Selects(Slice(1, 1, 2), 3, k)
    ensures PythonKept([10, 20, 30], 3, Slice(1, 1, 2)) == [10, 20, 30]
  {
    var s := [10, 20, 30];
    assert PythonKept(s, 1, Slice(1, 1, 2)) == [10];
    assert PythonKept(s, 2, Slice(1, 1, 2)) == [10, 20];
  }
}
