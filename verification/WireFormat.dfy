/**
  The Protocol Buffers wire encoding of a list of fields, groups nested to any
  depth: the encoder is the definition of the format, the parser is what
  the reader does.
 */
module WireFormat {
  import opened Octets
  import opened Options

  type Input = seq<ByteValue>

  const TWO32 := 0x1_0000_0000
  const TWO64 := 0x1_0000_0000_0000_0000
  const INT32_MAX := 0x7fff_ffff

  const VARINT := 0
  const FIXED64 := 1
  const DELIMITED := 2
  const START_GROUP := 3
  const END_GROUP := 4
  const FIXED32 := 5

  datatype Value =
    | Varint(v: nat)
    | Fixed64(v: nat)
    | Fixed32(v: nat)
    | Delimited(data: Input)
    | Group(fields: seq<Field>)

  datatype Field = Field(number: nat, value: Value)

  function WireType(value: Value): nat {
    match value
    case Varint(_) => VARINT
    case Fixed64(_) => FIXED64
    case Fixed32(_) => FIXED32
    case Delimited(_) => DELIMITED
    case Group(_) => START_GROUP
  }

  /** The fields the format can carry: numbers of 29 bits, integers of their width, sizes below INT32_MAX. */
  ghost predicate Encodable(fs: seq<Field>)
    decreases fs, 1
  {
    forall i | 0 <= i < |fs| :: EncodableField(fs[i])
  }

  ghost predicate EncodableField(f: Field)
    decreases f, 0
  {
    && f.number < TWO32 / 8
    && match f.value
       case Varint(v) => v < TWO64
       case Fixed64(v) => v < TWO64
       case Fixed32(v) => v < TWO32
       case Delimited(data) => |data| < INT32_MAX
       case Group(fields) => Encodable(fields)
  }

  // ----- Encoding -----

  function EncodeVarint(v: nat): (b: Input)
    ensures b != []
  {
    if v < 0x80 then [v] else [v % 0x80 + 0x80] + EncodeVarint(v / 0x80)
  }

  function EncodeFixed(width: nat, v: nat): (b: Input)
    ensures |b| == width
  {
    if width == 0 then [] else [v % 0x100] + EncodeFixed(width - 1, v / 0x100)
  }

  function Tag(number: nat, wireType: nat): Input { EncodeVarint(number * 8 + wireType) }

  function Encode(fs: seq<Field>): Input
    decreases fs, 1
  {
    if fs == [] then [] else Tag(fs[0].number, WireType(fs[0].value)) + EncodeValue(fs[0]) + Encode(fs[1..])
  }

  function EncodeValue(f: Field): Input
    decreases f, 0
  {
    match f.value
    case Varint(v) => EncodeVarint(v)
    case Fixed64(v) => EncodeFixed(8, v)
    case Fixed32(v) => EncodeFixed(4, v)
    case Delimited(data) => EncodeVarint(|data|) + data
    case Group(fields) => Encode(fields) + Tag(f.number, END_GROUP)
  }

  // ----- Reading -----

  datatype Read<+T> = Read(value: T, rest: Input)

  /** The bytes after the first of a long varint; each cancels the continuation bit before it. */
  function LongVarint(b: Input, i: nat, val: nat, scale: nat): (r: Option<Read<nat>>)
    requires i <= 10
    ensures r.Some? ==> r.value.value < TWO64 && |r.value.rest| < |b|
    decreases |b|
  {
    if i == 10 || b == [] then None
    else
      var val' := (val + (b[0] - 1) * scale) % TWO64;
      if b[0] < 0x80 then Some(Read(val', b[1..])) else LongVarint(b[1..], i + 1, val', 0x80 * scale)
  }

  function ReadBounded(b: Input, maxLen: nat, maxVal: nat): (r: Option<Read<nat>>)
    ensures r.Some? ==> r.value.value < TWO64 && |r.value.rest| < |b|
  {
    if b == [] then None
    else if b[0] < 0x80 then Some(Read(b[0], b[1..]))
    else
      match LongVarint(b[1..], 1, b[0], 0x80)
      case None => None
      case Some(read) =>
        if (maxLen < 10 && |b| - |read.rest| > maxLen) || read.value > maxVal then None else Some(read)
  }

  function ReadVarint(b: Input): (r: Option<Read<nat>>)
    ensures r.Some? ==> |r.value.rest| < |b|
  {
    ReadBounded(b, 10, TWO64 - 1)
  }

  datatype TagParts = TagParts(number: nat, wireType: nat)

  function ReadTag(b: Input): (r: Option<Read<TagParts>>)
    ensures r.Some? ==> |r.value.rest| < |b|
  {
    match ReadBounded(b, 5, TWO32 - 1)
    case None => None
    case Some(read) => Some(Read(TagParts(read.value / 8, read.value % 8), read.rest))
  }

  function ReadSize(b: Input): (r: Option<Read<nat>>)
    ensures r.Some? ==> |r.value.rest| < |b|
  {
    match ReadVarint(b)
    case None => None
    case Some(read) => if read.value >= INT32_MAX then None else Some(read)
  }

  function LittleEndian(b: Input): nat {
    if b == [] then 0 else b[0] + 0x100 * LittleEndian(b[1..])
  }

  function ReadFixed(b: Input, width: nat): Option<Read<nat>> {
    if |b| < width then None else Some(Read(LittleEndian(b[..width]), b[width..]))
  }

  function ReadDelimited(b: Input): (r: Option<Read<Input>>)
    ensures r.Some? ==> |r.value.rest| < |b|
  {
    match ReadSize(b)
    case None => None
    case Some(size) =>
      if size.value > |size.rest| then None else Some(Read(size.rest[..size.value], size.rest[size.value..]))
  }

  // ----- Parsing -----

  /** Fields up to the end of the group with this number, or of the input. */
  function Parse(b: Input, group: int): (r: Option<Read<seq<Field>>>)
    ensures r.Some? ==> |r.value.rest| <= |b|
    decreases |b|, 0
  {
    if b == [] then Some(Read([], []))
    else
      match ReadTag(b)
      case None => None
      case Some(tag) =>
        var TagParts(number, wireType) := tag.value;
        if wireType == END_GROUP then (if number == group then Some(Read([], tag.rest)) else None)
        else
          match ParseValue(tag.rest, number, wireType)
          case None => None
          case Some(value) =>
            match Parse(value.rest, group)
            case None => None
            case Some(more) => Some(Read([Field(number, value.value)] + more.value, more.rest))
  }

  function ParseValue(b: Input, number: nat, wireType: nat): (r: Option<Read<Value>>)
    ensures r.Some? ==> |r.value.rest| <= |b|
    decreases |b|, 1
  {
    if wireType == VARINT then
      match ReadVarint(b) { case None => None case Some(r) => Some(Read(Varint(r.value), r.rest)) }
    else if wireType == FIXED64 then
      match ReadFixed(b, 8) { case None => None case Some(r) => Some(Read(Fixed64(r.value), r.rest)) }
    else if wireType == FIXED32 then
      match ReadFixed(b, 4) { case None => None case Some(r) => Some(Read(Fixed32(r.value), r.rest)) }
    else if wireType == DELIMITED then
      match ReadDelimited(b) { case None => None case Some(r) => Some(Read(Delimited(r.value), r.rest)) }
    else if wireType == START_GROUP then
      match Parse(b, number) { case None => None case Some(r) => Some(Read(Group(r.value), r.rest)) }
    else None
  }

  // ----- Integers come back -----

  function Scale(i: nat): nat { if i == 0 then 1 else 0x80 * Scale(i - 1) }

  lemma Scales()
    ensures Scale(1) == 0x80 && Scale(5) == 0x8_0000_0000 && Scale(10) == 0x40_0000_0000_0000_0000
  {
    assert Scale(2) == 0x4000 && Scale(3) == 0x20_0000 && Scale(4) == 0x1000_0000;
    assert Scale(6) == 0x400_0000_0000 && Scale(7) == 0x2_0000_0000_0000;
    assert Scale(8) == 0x100_0000_0000_0000 && Scale(9) == 0x8000_0000_0000_0000;
  }

  lemma ScalePositive(i: nat)
    ensures Scale(i) >= 1
  {
    if i > 0 { ScalePositive(i - 1); }
  }

  lemma OneDigit(lo: nat, w: nat, scale: nat)
    ensures lo + scale + (w % 0x80 + 0x80 - 1) * scale == (lo + w % 0x80 * scale) + 0x80 * scale
    ensures (lo + w % 0x80 * scale) + w / 0x80 * (0x80 * scale) == lo + w * scale
    ensures w >= 0x80 ==> 0x80 * scale <= w / 0x80 * (0x80 * scale)
    ensures lo + scale + (w - 1) * scale == lo + w * scale
  {
    var d, m := w / 0x80, w % 0x80;
    assert w == 0x80 * d + m;
    assert (m + 0x80 - 1) * scale == m * scale + 0x80 * scale - scale;
    assert w * scale == (0x80 * d) * scale + m * scale;
    assert (0x80 * d) * scale == d * (0x80 * scale);
    assert (w - 1) * scale == w * scale - scale;
    if w >= 0x80 {
      assert d >= 1;
      assert (d - 1) * (0x80 * scale) >= 0;
      assert d * (0x80 * scale) == (d - 1) * (0x80 * scale) + 0x80 * scale;
    }
  }

  /** What the reader has added up before a digit: the lower digits and the uncancelled bit. */
  function Before(lo: nat, i: nat): nat { lo + Scale(i) }

  function WithDigit(lo: nat, w: nat, i: nat): nat { lo + w % 0x80 * Scale(i) }

  lemma DigitAdds(v: nat, lo: nat, w: nat, i: nat)
    requires w >= 1 && v == lo + w * Scale(i) < TWO64
    ensures w < 0x80 ==> (Before(lo, i) + (w - 1) * Scale(i)) % TWO64 == v
    ensures w >= 0x80 ==>
              && (Before(lo, i) + (w % 0x80 + 0x80 - 1) * Scale(i)) % TWO64 == Before(WithDigit(lo, w, i), i + 1)
              && v == WithDigit(lo, w, i) + w / 0x80 * Scale(i + 1)
    ensures i < 10
  {
    ScalePositive(i);
    OneDigit(lo, w, Scale(i));
    assert Scale(i + 1) == 0x80 * Scale(i);
    NotTooLong(lo, w, i);
  }

  lemma AtLeast(w: nat, scale: nat)
    requires w >= 1
    ensures scale <= w * scale
  {
    assert w * scale == (w - 1) * scale + scale;
  }

  lemma NotTooLong(lo: nat, w: nat, i: nat)
    requires w >= 1 && lo + w * Scale(i) < TWO64
    ensures i < 10
  {
    AtLeast(w, Scale(i));
    assert Scale(i) < TWO64;
    ScaleGrows(10, i);
    Scales();
  }

  lemma ScaleGrows(i: nat, j: nat)
    ensures i <= j ==> Scale(i) <= Scale(j)
    decreases j
  {
    if i < j { ScaleGrows(i, j - 1); }
  }

  /** Having read the digits below position i, the rest of the encoding gives the whole number. */
  lemma {:induction false} LongVarintReads(v: nat, lo: nat, w: nat, i: nat, rest: Input)
    requires i <= 10 && w >= 1 && v == lo + w * Scale(i) < TWO64
    ensures LongVarint(EncodeVarint(w) + rest, i, Before(lo, i), Scale(i)) == Some(Read(v, rest))
    decreases 10 - i
  {
    DigitAdds(v, lo, w, i);
    var b := EncodeVarint(w) + rest;
    if w < 0x80 {
      assert b[0] == w && b[1..] == rest;
    } else {
      assert b[0] == w % 0x80 + 0x80 && b[1..] == EncodeVarint(w / 0x80) + rest;
      LongVarintReads(v, WithDigit(lo, w, i), w / 0x80, i + 1, rest);
    }
  }

  lemma {:induction false} VarintLength(v: nat, n: nat)
    requires 1 <= n && v < Scale(n)
    ensures |EncodeVarint(v)| <= n
    decreases n
  {
    if v >= 0x80 {
      assert n > 1 by { if n == 1 { Scales(); } }
      VarintLength(v / 0x80, n - 1);
    }
  }

  lemma SplitVarint(v: nat) returns (lo: nat, w: nat)
    requires v >= 0x80
    ensures lo < 0x80 && w >= 1 && v == lo + w * Scale(1)
    ensures EncodeVarint(v) == [lo + 0x80] + EncodeVarint(w)
    ensures Scale(1) == 0x80 && Before(lo, 1) == lo + 0x80
  {
    lo, w := v % 0x80, v / 0x80;
    assert Scale(0) == 1 && Scale(1) == 0x80 * Scale(0);
  }

  lemma LongReads(v: nat, rest: Input)
    requires 0x80 <= v < TWO64
    ensures
      var b := EncodeVarint(v) + rest;
      b[0] >= 0x80 && LongVarint(b[1..], 1, b[0], 0x80) == Some(Read(v, rest))
  {
    var lo, w := SplitVarint(v);
    var b := EncodeVarint(v) + rest;
    assert b[0] == lo + 0x80 && b[1..] == EncodeVarint(w) + rest;
    LongVarintReads(v, lo, w, 1, rest);
  }

  lemma BoundedReads(v: nat, rest: Input, maxLen: nat, maxVal: nat)
    requires v <= maxVal < TWO64 && (maxLen < 10 ==> |EncodeVarint(v)| <= maxLen)
    ensures ReadBounded(EncodeVarint(v) + rest, maxLen, maxVal) == Some(Read(v, rest))
  {
    var b := EncodeVarint(v) + rest;
    if v < 0x80 {
      assert b[0] == v && b[1..] == rest;
    } else {
      LongReads(v, rest);
      assert |b| - |rest| == |EncodeVarint(v)|;
    }
  }

  lemma VarintReads(v: nat, rest: Input)
    requires v < TWO64
    ensures ReadVarint(EncodeVarint(v) + rest) == Some(Read(v, rest))
  {
    BoundedReads(v, rest, 10, TWO64 - 1);
  }

  lemma TagReads(number: nat, wireType: nat, rest: Input)
    requires number < TWO32 / 8 && wireType < 8
    ensures ReadTag(Tag(number, wireType) + rest) == Some(Read(TagParts(number, wireType), rest))
  {
    Scales();
    VarintLength(number * 8 + wireType, 5);
    BoundedReads(number * 8 + wireType, rest, 5, TWO32 - 1);
  }

  function Radix(width: nat): nat { if width == 0 then 1 else 0x100 * Radix(width - 1) }

  lemma {:induction false} LittleEndianReads(width: nat, v: nat)
    requires v < Radix(width)
    ensures LittleEndian(EncodeFixed(width, v)) == v
    decreases width
  {
    if width > 0 {
      assert v / 0x100 < Radix(width - 1);
      LittleEndianReads(width - 1, v / 0x100);
      assert EncodeFixed(width, v)[1..] == EncodeFixed(width - 1, v / 0x100);
    }
  }

  lemma FixedReads(width: nat, v: nat, rest: Input)
    requires v < Radix(width)
    ensures ReadFixed(EncodeFixed(width, v) + rest, width) == Some(Read(v, rest))
  {
    LittleEndianReads(width, v);
    var b := EncodeFixed(width, v) + rest;
    assert b[..width] == EncodeFixed(width, v) && b[width..] == rest;
  }

  lemma Radixes()
    ensures Radix(4) == TWO32 && Radix(8) == TWO64
  {
    assert Radix(2) == 0x1_0000 && Radix(6) == 0x1_0000_0000_0000;
  }

  lemma DelimitedReads(data: Input, rest: Input)
    requires |data| < INT32_MAX
    ensures ReadDelimited(EncodeVarint(|data|) + data + rest) == Some(Read(data, rest))
  {
    var b, after := EncodeVarint(|data|) + data + rest, data + rest;
    assert b == EncodeVarint(|data|) + after;
    VarintReads(|data|, after);
    assert ReadSize(b) == Some(Read(|data|, after));
    assert after[..|data|] == data && after[|data|..] == rest;
  }

  // ----- Lists of fields come back -----

  function Prepend(fs: seq<Field>, r: Option<Read<seq<Field>>>): Option<Read<seq<Field>>> {
    match r
    case None => None
    case Some(more) => Some(Read(fs + more.value, more.rest))
  }

  lemma PrependNone(r: Option<Read<seq<Field>>>)
    ensures Prepend([], r) == r
  {
    if r.Some? { assert [] + r.value.value == r.value.value; }
  }

  lemma PrependBoth(fs: seq<Field>, gs: seq<Field>, r: Option<Read<seq<Field>>>)
    ensures Prepend(fs, Prepend(gs, r)) == Prepend(fs + gs, r)
  {
    if r.Some? { assert fs + (gs + r.value.value) == (fs + gs) + r.value.value; }
  }

  /** One field in front: its tag is not that of a group's end. */
  lemma FieldParses(f: Field, group: int, after: Input)
    requires f.number < TWO32 / 8
    requires ParseValue(EncodeValue(f) + after, f.number, WireType(f.value)) == Some(Read(f.value, after))
    ensures Parse(Tag(f.number, WireType(f.value)) + (EncodeValue(f) + after), group)
            == Prepend([f], Parse(after, group))
  {
    TagReads(f.number, WireType(f.value), EncodeValue(f) + after);
  }

  /** Parsing the encoding of some fields, followed by anything, gives these fields and then what follows. */
  lemma {:induction false} FieldsParse(fs: seq<Field>, group: int, rest: Input)
    requires Encodable(fs)
    ensures Parse(Encode(fs) + rest, group) == Prepend(fs, Parse(rest, group))
    decreases fs, 1
  {
    if fs == [] {
      assert Encode(fs) + rest == rest;
      PrependNone(Parse(rest, group));
    } else {
      var f := fs[0];
      var tag, value, after := Tag(f.number, WireType(f.value)), EncodeValue(f), Encode(fs[1..]) + rest;
      assert Encode(fs) + rest == tag + (value + after);
      ValueParses(f, after);
      FieldParses(f, group, after);
      FieldsParse(fs[1..], group, rest);
      PrependBoth([f], fs[1..], Parse(rest, group));
      assert [f] + fs[1..] == fs;
    }
  }

  lemma {:induction false} ValueParses(f: Field, rest: Input)
    requires EncodableField(f)
    ensures ParseValue(EncodeValue(f) + rest, f.number, WireType(f.value)) == Some(Read(f.value, rest))
    decreases f, 0
  {
    Radixes();
    match f.value
    case Varint(v) => VarintReads(v, rest);
    case Fixed64(v) => FixedReads(8, v, rest);
    case Fixed32(v) => FixedReads(4, v, rest);
    case Delimited(data) => DelimitedReads(data, rest);
    case Group(fields) =>
      var end := Tag(f.number, END_GROUP);
      assert EncodeValue(f) + rest == Encode(fields) + (end + rest);
      FieldsParse(fields, f.number, end + rest);
      EndParses(f.number, f.number, rest);
      assert fields + [] == fields;
  }

  /** An end-group tag ends the group it names; any other group it makes fail. */
  lemma EndParses(number: nat, group: int, rest: Input)
    requires number < TWO32 / 8
    ensures Parse(Tag(number, END_GROUP) + rest, group) == if number == group then Some(Read([], rest)) else None
  {
    TagReads(number, END_GROUP, rest);
  }

  /** Round trip: an encoded message parses back to its fields, group for group, and nothing is left over. */
  lemma RoundTrip(fs: seq<Field>)
    requires Encodable(fs)
    ensures Parse(Encode(fs), -1) == Some(Read(fs, []))
  {
    FieldsParse(fs, -1, []);
    assert Encode(fs) + [] == Encode(fs) && fs + [] == fs;
  }

  // ----- Inside groups -----

  /** A group that is open, and the fields before it at its level. */
  datatype Level = Level(before: seq<Field>, number: nat)

  ghost predicate Openable(levels: seq<Level>) {
    forall i | 0 <= i < |levels| :: Encodable(levels[i].before) && levels[i].number < TWO32 / 8
  }

  function Open(levels: seq<Level>): Input {
    if levels == [] then []
    else Encode(levels[0].before) + Tag(levels[0].number, START_GROUP) + Open(levels[1..])
  }

  function Innermost(levels: seq<Level>, group: int): int {
    if levels == [] then group else levels[|levels| - 1].number
  }

  function Nest(levels: seq<Level>, fs: seq<Field>): seq<Field> {
    if levels == [] then fs else levels[0].before + [Field(levels[0].number, Group(Nest(levels[1..], fs)))]
  }

  lemma GroupStarts(number: nat, group: int, inner: Input)
    requires number < TWO32 / 8
    ensures Parse(Tag(number, START_GROUP) + inner, group) ==
            match Parse(inner, number)
            case None => None
            case Some(r) => Prepend([Field(number, Group(r.value))], Parse(r.rest, group))
  {
    TagReads(number, START_GROUP, inner);
  }

  lemma LevelParses(level: Level, group: int, inner: Input)
    requires Encodable(level.before) && level.number < TWO32 / 8
    ensures
      var all := Parse(Encode(level.before) + Tag(level.number, START_GROUP) + inner, group);
      match Parse(inner, level.number)
      case None => all == None
      case Some(r) => r.rest == [] ==> all == Some(Read(level.before + [Field(level.number, Group(r.value))], []))
  {
    var tag := Tag(level.number, START_GROUP);
    assert Encode(level.before) + tag + inner == Encode(level.before) + (tag + inner);
    FieldsParse(level.before, group, tag + inner);
    GroupStarts(level.number, group, inner);
    var r := Parse(inner, level.number);
    if r.Some? && r.value.rest == [] {
      var f := Field(level.number, Group(r.value.value));
      assert Parse([], group) == Some(Read([], []));
      assert [f] + [] == [f];
    }
  }

  /** What happens at the innermost level decides: a failure fails the whole, the end of input ends it. */
  lemma {:induction false} OpenParses(levels: seq<Level>, x: Input, group: int)
    requires Openable(levels)
    ensures
      match Parse(x, Innermost(levels, group))
      case None => Parse(Open(levels) + x, group) == None
      case Some(r) => r.rest == [] ==> Parse(Open(levels) + x, group) == Some(Read(Nest(levels, r.value), []))
    decreases |levels|
  {
    if levels == [] {
      assert Open(levels) + x == x;
    } else {
      var inner := Open(levels[1..]) + x;
      OpenParses(levels[1..], x, levels[0].number);
      LevelParses(levels[0], group, inner);
      assert Open(levels) + x == Encode(levels[0].before) + Tag(levels[0].number, START_GROUP) + inner;
    }
  }

  /** At every depth, an end-group tag with the wrong number is refused, whatever stands before and after it. */
  lemma WrongEndIsRefused(levels: seq<Level>, fs: seq<Field>, number: nat, rest: Input)
    requires Openable(levels) && Encodable(fs) && number < TWO32 / 8 && number != Innermost(levels, -1)
    ensures Parse(Open(levels) + (Encode(fs) + (Tag(number, END_GROUP) + rest)), -1) == None
  {
    var group := Innermost(levels, -1);
    EndParses(number, group, rest);
    FieldsParse(fs, group, Tag(number, END_GROUP) + rest);
    OpenParses(levels, Encode(fs) + (Tag(number, END_GROUP) + rest), -1);
  }

  /**
    The end of the input closes every open group: a message cut off between two
    fields, however deep inside groups, is accepted with the same fields as if
    all its groups had been ended properly.
   */
  lemma CutOffIsAccepted(levels: seq<Level>, fs: seq<Field>)
    requires Openable(levels) && Encodable(fs)
    ensures Parse(Open(levels) + Encode(fs), -1) == Some(Read(Nest(levels, fs), []))
    ensures Parse(Encode(Nest(levels, fs)), -1) == Some(Read(Nest(levels, fs), []))
  {
    var group := Innermost(levels, -1);
    FieldsParse(fs, group, []);
    assert Encode(fs) + [] == Encode(fs) && fs + [] == fs;
    OpenParses(levels, Encode(fs), -1);
    NestEncodable(levels, fs);
    RoundTrip(Nest(levels, fs));
  }

  lemma {:induction false} NestEncodable(levels: seq<Level>, fs: seq<Field>)
    requires Openable(levels) && Encodable(fs)
    ensures Encodable(Nest(levels, fs))
    decreases |levels|
  {
    if levels != [] {
      NestEncodable(levels[1..], fs);
      assert EncodableField(Field(levels[0].number, Group(Nest(levels[1..], fs))));
    }
  }

  // ----- Which cut-off messages are refused -----

  lemma PrefixOfSum(p: Input, a: Input, b: Input)
    requires p <= a + b
    ensures |p| < |a| ==> p < a
    ensures |p| >= |a| ==> p == a + p[|a|..] && p[|a|..] <= b
  {
  }

  lemma SumAssociates(a: Input, b: Input, c: Input)
    ensures a + (b + c) == (a + b) + c
  {
  }

  /** A proper beginning of a varint runs out before its last byte. */
  lemma {:induction false} VarintCut(w: nat, u: Input, i: nat, val: nat, scale: nat)
    requires u < EncodeVarint(w) && i <= 10
    ensures LongVarint(u, i, val, scale) == None
    decreases |u|
  {
    if u != [] && i < 10 {
      assert u[0] == EncodeVarint(w)[0] && u[1..] < EncodeVarint(w)[1..];
      VarintCut(w / 0x80, u[1..], i + 1, (val + (u[0] - 1) * scale) % TWO64, 0x80 * scale);
    }
  }

  lemma BoundedCut(v: nat, u: Input, maxLen: nat, maxVal: nat)
    requires u < EncodeVarint(v)
    ensures ReadBounded(u, maxLen, maxVal) == None
  {
    if u != [] {
      assert u[0] == EncodeVarint(v)[0] && u[1..] < EncodeVarint(v)[1..];
      VarintCut(v / 0x80, u[1..], 1, u[0], 0x80);
    }
  }

  lemma TagCut(number: nat, wireType: nat, u: Input, group: int)
    requires u < Tag(number, wireType) && u != []
    ensures Parse(u, group) == None
  {
    BoundedCut(number * 8 + wireType, u, 5, TWO32 - 1);
  }

  lemma ShortData(n: nat, d: Input)
    requires |d| < n < INT32_MAX
    ensures ReadDelimited(EncodeVarint(n) + d) == None
  {
    VarintReads(n, d);
    assert ReadSize(EncodeVarint(n) + d) == Some(Read(n, d));
  }

  lemma DelimitedCut(data: Input, u: Input)
    requires |data| < INT32_MAX && u < EncodeVarint(|data|) + data
    ensures ReadDelimited(u) == None
  {
    var size := EncodeVarint(|data|);
    if |u| < |size| {
      assert u < size;
      BoundedCut(|data|, u, 10, TWO64 - 1);
      assert ReadSize(u) == None;
    } else {
      assert u == size + u[|size|..];
      ShortData(|data|, u[|size|..]);
    }
  }

  /** A value that is cut off is refused, unless it is a group. */
  lemma ValueCut(f: Field, u: Input)
    requires EncodableField(f) && !f.value.Group? && u < EncodeValue(f)
    ensures ParseValue(u, f.number, WireType(f.value)) == None
  {
    match f.value
    case Varint(v) => BoundedCut(v, u, 10, TWO64 - 1);
    case Delimited(data) => DelimitedCut(data, u);
    case _ =>
  }

  lemma FieldCut(f: Field, u: Input, group: int)
    requires EncodableField(f) && !f.value.Group? && u < EncodeValue(f)
    ensures Parse(Tag(f.number, WireType(f.value)) + u, group) == None
  {
    TagReads(f.number, WireType(f.value), u);
    ValueCut(f, u);
  }

  /** Where a message may end: open groups, then whole fields. */
  ghost predicate EndsBetween(p: Input, levels: seq<Level>, gs: seq<Field>) {
    Openable(levels) && Encodable(gs) && p == Open(levels) + Encode(gs)
  }

  lemma {:induction false} EncodeConcat(fs: seq<Field>, gs: seq<Field>)
    ensures Encode(fs + gs) == Encode(fs) + Encode(gs)
    decreases |fs|
  {
    if fs == [] {
      assert fs + gs == gs;
    } else {
      assert (fs + gs)[0] == fs[0] && (fs + gs)[1..] == fs[1..] + gs;
      EncodeConcat(fs[1..], gs);
    }
  }

  lemma OpenBefore(f: Field, level: Level, inner: seq<Level>)
    ensures Open([Level([f] + level.before, level.number)] + inner) == Encode([f]) + Open([level] + inner)
  {
    var first, tag := Level([f] + level.before, level.number), Tag(level.number, START_GROUP);
    EncodeConcat([f], level.before);
    assert ([first] + inner)[1..] == inner && ([level] + inner)[1..] == inner;
    SumAssociates(Encode([f]), Encode(level.before), tag);
    SumAssociates(Encode([f]), Encode(level.before) + tag, Open(inner));
  }

  /** A field in front of such an end. */
  lemma FieldBefore(f: Field, p: Input, levels: seq<Level>, gs: seq<Field>) returns (levels': seq<Level>,
                    gs': seq<Field>)
    requires EncodableField(f) && EndsBetween(p, levels, gs)
    ensures EndsBetween(Encode([f]) + p, levels', gs')
  {
    if levels == [] {
      levels', gs' := [], [f] + gs;
      EncodeConcat([f], gs);
    } else {
      levels', gs' := [Level([f] + levels[0].before, levels[0].number)] + levels[1..], gs;
      OpenBefore(f, levels[0], levels[1..]);
      assert [levels[0]] + levels[1..] == levels;
      SumAssociates(Encode([f]), Open(levels), Encode(gs));
    }
  }

  /** A group opened in front of such an end. */
  lemma GroupBefore(number: nat, p: Input, levels: seq<Level>, gs: seq<Field>) returns (levels': seq<Level>)
    requires number < TWO32 / 8 && EndsBetween(p, levels, gs)
    ensures EndsBetween(Tag(number, START_GROUP) + p, levels', gs)
  {
    levels' := [Level([], number)] + levels;
    assert levels'[1..] == levels;
    assert Open(levels') == Encode([]) + Tag(number, START_GROUP) + Open(levels);
  }

  /** A beginning of an encoding goes on past its first tag, or parses as nothing. */
  lemma PastTag(fs: seq<Field>, group: int, p: Input) returns (u: Input)
    requires Encodable(fs) && fs != [] && p <= Encode(fs) && p != [] && Parse(p, group).Some?
    ensures p == Tag(fs[0].number, WireType(fs[0].value)) + u && u <= EncodeValue(fs[0]) + Encode(fs[1..])
  {
    var tag, rest := Tag(fs[0].number, WireType(fs[0].value)), EncodeValue(fs[0]) + Encode(fs[1..]);
    SumAssociates(tag, EncodeValue(fs[0]), Encode(fs[1..]));
    PrefixOfSum(p, tag, rest);
    if |p| < |tag| {
      TagCut(fs[0].number, WireType(fs[0].value), p, group);
    }
    u := p[|tag|..];
  }

  lemma OneEncoded(f: Field, rest: Input)
    ensures Tag(f.number, WireType(f.value)) + (EncodeValue(f) + rest) == Encode([f]) + rest
  {
    var tag := Tag(f.number, WireType(f.value));
    assert [f][1..] == [];
    assert Encode([f]) == tag + EncodeValue(f);
    SumAssociates(tag, EncodeValue(f), rest);
  }

  lemma FieldThen(f: Field, group: int, rest: Input)
    requires EncodableField(f)
    ensures Tag(f.number, WireType(f.value)) + (EncodeValue(f) + rest) == Encode([f]) + rest
    ensures Parse(Encode([f]) + rest, group) == Prepend([f], Parse(rest, group))
  {
    ValueParses(f, rest);
    FieldParses(f, group, rest);
    OneEncoded(f, rest);
  }

  /** A beginning of an encoding that parses ends between two fields. */
  lemma {:induction false} CutParsesBetween(fs: seq<Field>, group: int, p: Input) returns (levels: seq<Level>,
                                            gs: seq<Field>)
    requires Encodable(fs) && p <= Encode(fs) && Parse(p, group).Some?
    ensures EndsBetween(p, levels, gs)
    decreases fs, 1
  {
    if p == [] {
      levels, gs := [], [];
    } else {
      var f, value := fs[0], EncodeValue(fs[0]);
      var u := PastTag(fs, group, p);
      if |u| < |value| {
        PrefixOfSum(u, value, Encode(fs[1..]));
        levels, gs := FieldCutBetween(f, group, u);
      } else {
        PrefixOfSum(u, value, Encode(fs[1..]));
        var rest := u[|value|..];
        FieldThen(f, group, rest);
        levels, gs := CutParsesBetween(fs[1..], group, rest);
        levels, gs := FieldBefore(f, rest, levels, gs);
      }
    }
  }

  lemma {:induction false} FieldCutBetween(f: Field, group: int, u: Input) returns (levels: seq<Level>, gs: seq<Field>)
    requires EncodableField(f) && u < EncodeValue(f) && Parse(Tag(f.number, WireType(f.value)) + u, group).Some?
    ensures EndsBetween(Tag(f.number, WireType(f.value)) + u, levels, gs)
    decreases f, 0
  {
    if !f.value.Group? {
      FieldCut(f, u, group);
      levels, gs := [], [];
    } else {
      var fields, end := f.value.fields, Tag(f.number, END_GROUP);
      GroupStarts(f.number, group, u);
      if |u| > |Encode(fields)| {
        var e := u[|Encode(fields)|..];
        assert u == Encode(fields) + e && e < end;
        FieldsParse(fields, f.number, e);
        TagCut(f.number, END_GROUP, e, f.number);
      }
      assert u <= Encode(fields);
      levels, gs := CutParsesBetween(fields, f.number, u);
      levels := GroupBefore(f.number, u, levels, gs);
    }
  }

  /**
    A message cut off anywhere is accepted exactly if it was cut between two
    fields, with any number of groups open; inside a tag or a value it is refused.
   */
  lemma CutOffIffBetween(fs: seq<Field>, p: Input)
    requires Encodable(fs) && p <= Encode(fs)
    ensures Parse(p, -1).Some? <==> exists levels, gs :: EndsBetween(p, levels, gs)
  {
    if Parse(p, -1).Some? {
      var levels, gs := CutParsesBetween(fs, -1, p);
    }
    forall levels, gs | EndsBetween(p, levels, gs) ensures Parse(p, -1).Some? {
      CutOffIsAccepted(levels, gs);
    }
  }
}
