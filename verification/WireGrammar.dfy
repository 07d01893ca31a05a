/**
  Which inputs are unknown fields at all: a grammar of the wire format that says
  nothing of how it is read, and the proof that the reader accepts exactly it.
 */
module WireGrammar {
  import opened Octets
  import opened Options
  import opened WireFormat

  const MAX32 := TWO32 - 1

  const MAX64 := TWO64 - 1

  // ----- Varints -----

  /** Seven bits a byte, the lowest first. */
  function Weight(b: Input): nat {
    if b == [] then 0 else b[0] % 0x80 + 0x80 * Weight(b[1..])
  }

  ghost predicate Endless(b: Input) { forall i | 0 <= i < |b| :: b[i] >= 0x80 }

  /** The last byte is the first without a continuation bit. */
  ghost predicate Ended(b: Input) {
    b != [] && b[|b| - 1] < 0x80 && forall i | 0 <= i < |b| - 1 :: b[i] >= 0x80
  }

  /** A varint of at most so many bytes and at most this value; bits beyond the 64th are lost. */
  ghost predicate IsVarint(b: Input, maxLen: nat, maxVal: nat, v: nat) {
    Ended(b) && |b| <= maxLen && v == Weight(b) % TWO64 && v <= maxVal
  }

  lemma ModAdd(x: int, y: int)
    ensures (x % TWO64 + y) % TWO64 == (x + y) % TWO64
  {
  }

  lemma EndedRest(x: Input)
    requires Ended(x) && |x| > 1
    ensures x[0] >= 0x80 && Ended(x[1..])
  {
    assert forall i | 0 <= i < |x| - 1 :: x[1..][i] == x[i + 1];
  }

  /** The last byte of a long varint. */
  lemma LastByte(b: Input, i: nat, lo: nat, val: nat, scale: nat)
    requires i < 10 && b != [] && b[0] < 0x80 && val == (lo + scale) % TWO64
    ensures LongVarint(b, i, val, scale) == Some(Read((lo + scale * b[0]) % TWO64, b[1..]))
  {
    ModAdd(lo + scale, (b[0] - 1) * scale);
    assert lo + scale + (b[0] - 1) * scale == lo + scale * b[0];
  }

  /** Any other byte: its digit is added, and its bit cancels the one before and leaves one behind. */
  lemma InnerByte(b: Input, i: nat, lo: nat, val: nat, scale: nat)
    requires i < 10 && b != [] && b[0] >= 0x80 && val == (lo + scale) % TWO64
    ensures LongVarint(b, i, val, scale)
         == LongVarint(b[1..], i + 1, (lo + b[0] % 0x80 * scale + 0x80 * scale) % TWO64, 0x80 * scale)
  {
    ModAdd(lo + scale, (b[0] - 1) * scale);
    assert b[0] == b[0] % 0x80 + 0x80;
    assert scale + (b[0] - 1) * scale == b[0] * scale == b[0] % 0x80 * scale + 0x80 * scale;
  }

  function Total(lo: nat, scale: nat, weight: nat): nat { (lo + scale * weight) % TWO64 }

  lemma SumMoves(lo: nat, digit: nat, scale: nat, more: nat)
    ensures lo + digit * scale + (0x80 * scale) * more == lo + scale * (digit + 0x80 * more)
  {
    assert scale * (digit + 0x80 * more) == scale * digit + scale * (0x80 * more);
    assert scale * (0x80 * more) == (0x80 * scale) * more;
  }

  lemma DigitMoves(lo: nat, scale: nat, digit: nat, more: nat)
    ensures Total(lo + digit * scale, 0x80 * scale, more) == Total(lo, scale, digit + 0x80 * more)
  {
    SumMoves(lo, digit, scale, more);
    var a, b := lo + digit * scale + (0x80 * scale) * more, lo + scale * (digit + 0x80 * more);
    assert a == b;
  }

  /** The bytes after the first add up, and there may be at most ten in all. */
  lemma {:induction false} LongVarintAt(b: Input, n: nat, i: nat, lo: nat, scale: nat, total: nat)
    requires n <= |b| && Ended(b[..n]) && i <= 10 && total == Total(lo, scale, Weight(b[..n]))
    ensures LongVarint(b, i, (lo + scale) % TWO64, scale) == if i + n <= 10 then Some(Read(total, b[n..])) else None
    decreases n
  {
    if i == 10 {
    } else if n == 1 {
      assert b[..n][1..] == [] && Weight(b[..n]) == b[0];
      LastByte(b, i, lo, (lo + scale) % TWO64, scale);
    } else {
      EndedRest(b[..n]);
      assert b[..n][1..] == b[1..][..n - 1];
      InnerByte(b, i, lo, (lo + scale) % TWO64, scale);
      DigitMoves(lo, scale, b[0] % 0x80, Weight(b[1..][..n - 1]));
      LongVarintAt(b[1..], n - 1, i + 1, lo + b[0] % 0x80 * scale, 0x80 * scale, total);
    }
  }

  lemma {:induction false} LongVarintEndless(b: Input, i: nat, val: nat, scale: nat)
    requires Endless(b) && i <= 10
    ensures LongVarint(b, i, val, scale) == None
    decreases |b|
  {
    if i < 10 && b != [] {
      LongVarintEndless(b[1..], i + 1, (val + (b[0] - 1) * scale) % TWO64, 0x80 * scale);
    }
  }

  lemma FirstByte(x: Input)
    requires Ended(x) && |x| > 1
    ensures x[0] == x[0] % 0x80 + 0x80 && (x[0] % 0x80 + 0x80) % TWO64 == x[0]
    ensures Total(x[0] % 0x80, 0x80, Weight(x[1..])) == Weight(x) % TWO64
  {
    EndedRest(x);
  }

  lemma Bounded(b: Input, n: nat, maxLen: nat, maxVal: nat, v: nat)
    requires n <= |b| && b != [] && b[0] >= 0x80 && 1 <= maxLen <= 10
    requires LongVarint(b[1..], 1, b[0], 0x80) == if n <= 10 then Some(Read(v, b[n..])) else None
    ensures ReadBounded(b, maxLen, maxVal) == if n <= maxLen && v <= maxVal then Some(Read(v, b[n..])) else None
  {
  }

  /** The first byte is all that has been added up when the others are read. */
  lemma ManyBytesAt(b: Input, n: nat, v: nat, scale: nat)
    requires 1 < n <= |b| && Ended(b[..n]) && v == Weight(b[..n]) % TWO64 && scale == 0x80
    ensures b[0] >= 0x80
    ensures LongVarint(b[1..], 1, b[0], scale) == if n <= 10 then Some(Read(v, b[n..])) else None
  {
    EndedRest(b[..n]);
    FirstByte(b[..n]);
    assert b[..n][1..] == b[1..][..n - 1] && b[1..][n - 1..] == b[n..];
    LongVarintAt(b[1..], n - 1, 1, b[0] % 0x80, scale, v);
  }

  /** Reading where a varint of n bytes stands. */
  lemma ReadAt(b: Input, n: nat, maxLen: nat, maxVal: nat, v: nat)
    requires n <= |b| && Ended(b[..n]) && 1 <= maxLen <= 10 && 0x7f <= maxVal < TWO64
    requires v == Weight(b[..n]) % TWO64
    ensures ReadBounded(b, maxLen, maxVal) == if n <= maxLen && v <= maxVal then Some(Read(v, b[n..])) else None
  {
    if n == 1 {
      assert b[..n][1..] == [] && v == b[0] < 0x80;
    } else {
      ManyBytesAt(b, n, v, 0x80);
      Bounded(b, n, maxLen, maxVal, v);
    }
  }

  lemma ReadEndless(b: Input, maxLen: nat, maxVal: nat)
    requires Endless(b)
    ensures ReadBounded(b, maxLen, maxVal) == None
  {
    if b != [] {
      LongVarintEndless(b[1..], 1, b[0], 0x80);
    }
  }

  lemma {:induction false} EndedOrEndless(b: Input) returns (n: nat)
    ensures n <= |b| && (if n == 0 then Endless(b) else Ended(b[..n]))
    decreases |b|
  {
    if b == [] {
      n := 0;
    } else if b[0] < 0x80 {
      n := 1;
    } else {
      var m := EndedOrEndless(b[1..]);
      if m == 0 {
        n := 0;
      } else {
        n := m + 1;
        assert b[..n] == [b[0]] + b[1..][..m];
      }
    }
  }

  /** A varint stands at the beginning of the input, and the rest follows it. */
  ghost predicate VarintAt(b: Input, n: nat, maxLen: nat, maxVal: nat, v: nat, rest: Input) {
    n <= |b| && IsVarint(b[..n], maxLen, maxVal, v) && rest == b[n..]
  }

  /** The reader takes a varint exactly where one stands. */
  lemma ReadsVarint(b: Input, maxLen: nat, maxVal: nat, v: nat, rest: Input)
    requires 1 <= maxLen <= 10 && 0x7f <= maxVal < TWO64
    ensures ReadBounded(b, maxLen, maxVal) == Some(Read(v, rest))
            <==> exists n :: VarintAt(b, n, maxLen, maxVal, v, rest)
  {
    if ReadBounded(b, maxLen, maxVal) == Some(Read(v, rest)) {
      var n := EndedOrEndless(b);
      if n == 0 {
        ReadEndless(b, maxLen, maxVal);
      } else {
        ReadAt(b, n, maxLen, maxVal, Weight(b[..n]) % TWO64);
        assert VarintAt(b, n, maxLen, maxVal, v, rest);
      }
    }
    if n: nat :| VarintAt(b, n, maxLen, maxVal, v, rest) {
      ReadAt(b, n, maxLen, maxVal, v);
    }
  }

  // ----- Fields -----

  ghost predicate TagAt(b: Input, n: nat, number: nat, wireType: nat, rest: Input) {
    wireType < 8 && VarintAt(b, n, 5, MAX32, number * 8 + wireType, rest)
  }

  ghost predicate DataAt(b: Input, n: nat, data: Input, rest: Input) {
    && VarintAt(b, n, 10, INT32_MAX - 1, |data|, b[if n <= |b| then n else 0..])
    && n + |data| <= |b| && data == b[n..n + |data|] && rest == b[n + |data|..]
  }

  ghost predicate FixedAt(b: Input, width: nat, v: nat, rest: Input) {
    width <= |b| && v == LittleEndian(b[..width]) && rest == b[width..]
  }

  /** The input begins with these fields and the end of their group, or of everything; the rest follows. */
  ghost predicate FieldsAt(b: Input, group: int, fs: seq<Field>, rest: Input)
    decreases fs, 2
  {
    if fs == [] then
      (b == [] && rest == []) || (group >= 0 && exists n :: TagAt(b, n, group, END_GROUP, rest))
    else exists n, value, next :: FieldThen(b, group, fs, rest, n, value, next)
  }

  /** First the tag, then the value, then the other fields. */
  ghost predicate FieldThen(b: Input, group: int, fs: seq<Field>, rest: Input, n: nat, value: Input, next: Input)
    requires fs != []
    decreases fs, 1
  {
    && TagAt(b, n, fs[0].number, WireType(fs[0].value), value)
    && ValueAt(value, fs[0], next)
    && FieldsAt(next, group, fs[1..], rest)
  }

  ghost predicate ValueAt(b: Input, f: Field, rest: Input)
    decreases f, 0
  {
    match f.value
    case Varint(v) => exists n :: VarintAt(b, n, 10, MAX64, v, rest)
    case Fixed64(v) => FixedAt(b, 8, v, rest)
    case Fixed32(v) => FixedAt(b, 4, v, rest)
    case Delimited(data) => exists n :: DataAt(b, n, data, rest)
    case Group(fields) => FieldsAt(b, f.number, fields, rest)
  }

  lemma ReadsTag(b: Input, number: nat, wireType: nat, rest: Input)
    requires wireType < 8
    ensures ReadTag(b) == Some(Read(TagParts(number, wireType), rest))
            <==> exists n :: TagAt(b, n, number, wireType, rest)
  {
    ReadsVarint(b, 5, MAX32, number * 8 + wireType, rest);
    if ReadTag(b) == Some(Read(TagParts(number, wireType), rest)) {
      var n: nat :| VarintAt(b, n, 5, MAX32, number * 8 + wireType, rest);
      assert TagAt(b, n, number, wireType, rest);
    }
    if n: nat :| TagAt(b, n, number, wireType, rest) {
      assert VarintAt(b, n, 5, MAX32, number * 8 + wireType, rest);
      assert (number * 8 + wireType) / 8 == number;
    }
  }

  lemma TakesData(b: Input, data: Input, rest: Input) returns (n: nat)
    requires ReadDelimited(b) == Some(Read(data, rest))
    ensures DataAt(b, n, data, rest)
  {
    var size := ReadSize(b).value;
    ReadsVarint(b, 10, MAX64, size.value, size.rest);
    n :| VarintAt(b, n, 10, MAX64, size.value, size.rest);
    assert data == b[n..][..size.value] && b[n..][size.value..] == b[n + size.value..];
  }

  lemma GivesData(b: Input, n: nat, data: Input, rest: Input)
    requires DataAt(b, n, data, rest)
    ensures ReadDelimited(b) == Some(Read(data, rest))
  {
    assert VarintAt(b, n, 10, MAX64, |data|, b[n..]);
    ReadsVarint(b, 10, MAX64, |data|, b[n..]);
    assert b[n..][..|data|] == data && b[n..][|data|..] == rest;
  }

  // ----- What is read is in the grammar -----

  lemma {:induction false} ParsedIsWritten(b: Input, group: int, fs: seq<Field>, rest: Input)
    requires Parse(b, group) == Some(Read(fs, rest))
    ensures FieldsAt(b, group, fs, rest)
    decreases |b|, 0
  {
    if b != [] {
      var tag := ReadTag(b).value;
      var TagParts(number, wireType) := tag.value;
      ReadsTag(b, number, wireType, tag.rest);
      var n: nat :| TagAt(b, n, number, wireType, tag.rest);
      if wireType != END_GROUP {
        var value := ParseValue(tag.rest, number, wireType).value;
        ValueIsWritten(tag.rest, number, wireType, value.value, value.rest);
        ParsedIsWritten(value.rest, group, fs[1..], rest);
        assert FieldThen(b, group, fs, rest, n, tag.rest, value.rest);
      }
    }
  }

  lemma {:induction false} ValueIsWritten(b: Input, number: nat, wireType: nat, value: Value, rest: Input)
    requires ParseValue(b, number, wireType) == Some(Read(value, rest))
    ensures wireType == WireType(value) && ValueAt(b, Field(number, value), rest)
    decreases |b|, 1
  {
    match value
    case Varint(v) => ReadsVarint(b, 10, MAX64, v, rest);
    case Delimited(data) =>
      var n := TakesData(b, data, rest);
    case Group(fields) => ParsedIsWritten(b, number, fields, rest);
    case _ =>
  }

  // ----- What is in the grammar is read -----

  lemma {:induction false} WrittenIsParsed(b: Input, group: int, fs: seq<Field>, rest: Input)
    requires FieldsAt(b, group, fs, rest)
    ensures Parse(b, group) == Some(Read(fs, rest))
    decreases fs, 1
  {
    if fs == [] {
      if b != [] || rest != [] {
        var n: nat :| TagAt(b, n, group, END_GROUP, rest);
        ReadsTag(b, group, END_GROUP, rest);
      }
    } else {
      var n: nat, value, next :| FieldThen(b, group, fs, rest, n, value, next);
      ReadsTag(b, fs[0].number, WireType(fs[0].value), value);
      WrittenValueIsParsed(value, fs[0], next);
      WrittenIsParsed(next, group, fs[1..], rest);
      assert [fs[0]] + fs[1..] == fs;
    }
  }

  lemma {:induction false} WrittenValueIsParsed(b: Input, f: Field, rest: Input)
    requires ValueAt(b, f, rest)
    ensures ParseValue(b, f.number, WireType(f.value)) == Some(Read(f.value, rest))
    decreases f, 0
  {
    match f.value
    case Varint(v) => ReadsVarint(b, 10, MAX64, v, rest);
    case Delimited(data) =>
      var n: nat :| DataAt(b, n, data, rest);
      GivesData(b, n, data, rest);
    case Group(fields) => WrittenIsParsed(b, f.number, fields, rest);
    case _ =>
  }

  /**
    The reader gives these fields and stops there exactly if the input begins
    with them: no other input is accepted, and none is read in another way.
   */
  lemma ParsesExactly(b: Input, group: int, fs: seq<Field>, rest: Input)
    ensures Parse(b, group) == Some(Read(fs, rest)) <==> FieldsAt(b, group, fs, rest)
  {
    if Parse(b, group) == Some(Read(fs, rest)) { ParsedIsWritten(b, group, fs, rest); }
    if FieldsAt(b, group, fs, rest) { WrittenIsParsed(b, group, fs, rest); }
  }
}
