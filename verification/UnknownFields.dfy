/** Building the set of unknown fields: a cursor over the input and recursion for groups. */
module UnknownFields {
  import opened Options
  import opened WireFormat

  /** Where a reader leaves the cursor, with what it read. */
  datatype Cursor<+T> = Cursor(value: T, ptr: nat)

  /** A reader at `ptr` agrees with what the format says of the input from there on. */
  ghost predicate Agrees<T>(b: Input, read: Option<Read<T>>, cursor: Option<Cursor<T>>) {
    match read
    case None => cursor.None?
    case Some(r) =>
      && cursor.Some? && cursor.value.value == r.value
      && cursor.value.ptr <= |b| && b[cursor.value.ptr..] == r.rest
  }

  method ReadLongVarint(b: Input, ptr: nat, first: nat, maxLen: nat, maxVal: nat) returns (cursor: Option<Cursor<nat>>)
    requires ptr < |b| && first == b[ptr] >= 0x80
    ensures Agrees(b, ReadBounded(b[ptr..], maxLen, maxVal), cursor)
  {
    var val, scale, i := first, 0x80, 1;
    assert b[ptr..][1..] == b[ptr + 1..];
    while i < 10
      invariant 1 <= i <= 10 && ptr + i <= |b| && 0 <= val && 0 <= scale
      invariant LongVarint(b[ptr + i..], i, val, scale) == LongVarint(b[ptr + 1..], 1, first, 0x80)
    {
      if ptr + i == |b| {
        return None;
      }
      var byte := b[ptr + i];
      assert b[ptr + i..][0] == byte && b[ptr + i..][1..] == b[ptr + i + 1..];
      val := (val + (byte - 1) * scale) % TWO64;
      i := i + 1;
      if byte < 0x80 {
        if (maxLen < 10 && i > maxLen) || val > maxVal {
          return None;
        }
        return Some(Cursor(val, ptr + i));
      }
      scale := 0x80 * scale;
    }
    return None;
  }

  method ReadVarintUpTo(b: Input, ptr: nat, maxLen: nat, maxVal: nat) returns (cursor: Option<Cursor<nat>>)
    requires ptr <= |b|
    ensures Agrees(b, ReadBounded(b[ptr..], maxLen, maxVal), cursor)
  {
    if ptr == |b| {
      return None;
    }
    if b[ptr] < 0x80 {
      return Some(Cursor(b[ptr], ptr + 1));
    }
    cursor := ReadLongVarint(b, ptr, b[ptr], maxLen, maxVal);
  }

  class UnknownFieldSet {
    var fields: seq<Field>

    constructor ()
      ensures fields == []
    {
      fields := [];
    }

    /** The value after a tag; for a group, a set of its own. */
    method BuildValue(b: Input, ptr: nat, number: nat, wireType: nat) returns (data: Option<Cursor<Value>>)
      requires ptr <= |b|
      ensures Agrees(b, ParseValue(b[ptr..], number, wireType), data)
      decreases |b| - ptr, 1
    {
      var at := b[ptr..];
      if wireType == VARINT {
        var v := ReadVarintUpTo(b, ptr, 10, TWO64 - 1);
        return if v.None? then None else Some(Cursor(Varint(v.value.value), v.value.ptr));
      } else if wireType == FIXED64 || wireType == FIXED32 {
        var width := if wireType == FIXED64 then 8 else 4;
        if |b| - ptr < width {
          return None;
        }
        var v := LittleEndian(b[ptr..ptr + width]);
        assert at[..width] == b[ptr..ptr + width] && at[width..] == b[ptr + width..];
        return Some(Cursor(if wireType == FIXED64 then Fixed64(v) else Fixed32(v), ptr + width));
      } else if wireType == DELIMITED {
        data := BuildDelimited(b, ptr);
      } else if wireType == START_GROUP {
        var sub := new UnknownFieldSet();
        var next := sub.Build(b, ptr, number);
        if next.None? {
          return None;
        }
        assert sub.fields == [] + Parse(at, number).value.value == Parse(at, number).value.value;
        return Some(Cursor(Group(sub.fields), next.value));
      } else {
        return None;
      }
    }

    method BuildDelimited(b: Input, ptr: nat) returns (data: Option<Cursor<Value>>)
      requires ptr <= |b|
      ensures Agrees(b, ParseValue(b[ptr..], 0, DELIMITED), data)
    {
      var size := ReadVarintUpTo(b, ptr, 10, TWO64 - 1);
      if size.None? || size.value.value >= INT32_MAX {
        return None;
      }
      var start, end := size.value.ptr, size.value.ptr + size.value.value;
      if end > |b| {
        return None;
      }
      assert b[start..][..size.value.value] == b[start..end] && b[start..][size.value.value..] == b[end..];
      return Some(Cursor(Delimited(b[start..end]), end));
    }

    /** Appends the fields up to the end of the group, or of the input; None when the input is malformed. */
    method Build(b: Input, ptr: nat, group: int) returns (next: Option<nat>)
      requires ptr <= |b|
      modifies this
      ensures match Parse(b[ptr..], group)
              case None => next.None?
              case Some(r) =>
                && next.Some? && next.value <= |b| && b[next.value..] == r.rest
                && fields == old(fields) + r.value
      decreases |b| - ptr, 0
    {
      var p := ptr;
      ghost var read := [];
      PrependNone(Parse(b[ptr..], group));
      while p < |b|
        invariant ptr <= p <= |b| && fields == old(fields) + read
        invariant Parse(b[ptr..], group) == Prepend(read, Parse(b[p..], group))
        decreases |b| - p
      {
        var tag := ReadVarintUpTo(b, p, 5, TWO32 - 1);
        if tag.None? {
          return None;
        }
        var number, wireType := tag.value.value / 8, tag.value.value % 8;
        if wireType == END_GROUP {
          return if number == group then Some(tag.value.ptr) else None;
        }
        var data := BuildValue(b, tag.value.ptr, number, wireType);
        if data.None? {
          return None;
        }
        var field := Field(number, data.value.value);
        PrependBoth(read, [field], Parse(b[data.value.ptr..], group));
        fields := fields + [field];
        read := read + [field];
        p := data.value.ptr;
      }
      return Some(p);
    }
  }
}
