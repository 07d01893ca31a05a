/** The validator: an ASCII skip by words, then a loop over characters. */
module Utf8Range {
  import opened Octets
  import opened Utf8Grammar
  import opened Utf8Words

  /** A byte read as a signed char. */
  function Int8(c: byte): int {
    if c < 0x80 then c as int else c as int - 256
  }

  predicate AsciiIsAscii(c: byte) { c < 128 }

  predicate IsTrailByteOk(c: byte) { Int8(c) <= Int8(0xBF) }

  lemma {:induction false} AsciiIsWellFormed(s: Bytes)
    requires forall i | 0 <= i < |s| :: s[i] < 128
    ensures WellFormed(s)
  {
    if s == [] {
      EmptyIsWellFormed();
    } else {
      assert s == s[..1] + s[1..];
      CharIsWellFormed(s[..1]);
      AsciiIsWellFormed(s[1..]);
      WellFormedConcat(s[..1], s[1..]);
    }
  }

  /** Skips whole words of ASCII, then single ASCII bytes. */
  method SkipAscii(bytes: Bytes, start: nat, end: nat) returns (data: nat)
    requires start <= end == |bytes|
    ensures start <= data <= end
    ensures forall i | start <= i < data :: bytes[i] < 128
    ensures data < end ==> bytes[data] >= 128
  {
    data := start;
    while 8 <= end - data && UnalignedLoad64(bytes, data) & 0x8080808080808080 == 0
      invariant start <= data <= end
      invariant forall i | start <= i < data :: bytes[i] < 128
    {
      WordTest(bytes, data);
      data := data + 8;
    }
    while data < end && AsciiIsAscii(bytes[data])
      invariant start <= data <= end
      invariant forall i | start <= i < data :: bytes[i] < 128
    {
      data := data + 1;
    }
  }

  /** The verdict of the byte loop: how far the string is valid, or whether it is. */
  ghost predicate Verdict(s: Bytes, returnPosition: nat, r: nat) {
    if returnPosition == 1 then LongestPrefix(s, r) else r == if WellFormed(s) then 1 else 0
  }

  /** The condition on the first two bytes under which three bytes are accepted. */
  predicate ThreeLead(byte1: byte, byte2: byte) {
    (byte1 == 0xE0 && byte2 >= 0xA0) || (byte1 >= 0xE1 && byte1 <= 0xEC) ||
    (byte1 == 0xED && byte2 <= 0x9F) || (byte1 >= 0xEE && byte1 <= 0xEF)
  }

  predicate FourLead(byte1: byte, byte2: byte) {
    (byte1 == 0xF0 && byte2 >= 0x90) || (byte1 >= 0xF1 && byte1 <= 0xF3) || (byte1 == 0xF4 && byte2 <= 0x8F)
  }

  lemma SliceOfSlice(bytes: Bytes, start: nat, d: nat, k: nat)
    requires start <= d && d + k <= |bytes|
    ensures bytes[start..][d - start..d - start + k] == bytes[d..d + k]
  {
  }

  /** Where the branches of the loop give up, no character starts. */
  lemma GiveUp(bytes: Bytes, start: nat, d: nat)
    requires start <= d < |bytes| && WellFormed(bytes[start..][..d - start]) && bytes[d] >= 128
    requires |bytes| - d >= 2 ==> !(0xC2 <= bytes[d] <= 0xDF && Tail(bytes[d + 1]))
    requires |bytes| - d >= 3 && Tail(bytes[d + 1]) && Tail(bytes[d + 2]) ==> !ThreeLead(bytes[d], bytes[d + 1])
    requires |bytes| - d >= 4 && Tail(bytes[d + 1]) && Tail(bytes[d + 2]) && Tail(bytes[d + 3]) ==>
               !FourLead(bytes[d], bytes[d + 1])
    ensures LongestPrefix(bytes[start..], d - start) && !WellFormed(bytes[start..])
  {
    var s, n := bytes[start..], d - start;
    forall k: nat ensures !CharAt(s, n, k) {
      if 1 <= k <= 4 && n + k <= |s| {
        SliceOfSlice(bytes, start, d, k);
      }
    }
    StuckIsLongest(s, n);
  }

  /** Where a branch of the loop accepts k bytes, the valid part grows by them. */
  lemma Accept(bytes: Bytes, start: nat, d: nat, k: nat)
    requires start <= d && 1 <= k <= 4 && d + k <= |bytes| && WellFormed(bytes[start..][..d - start])
    requires (k > 1 ==> Tail(bytes[d + 1])) && (k > 2 ==> Tail(bytes[d + 2])) && (k > 3 ==> Tail(bytes[d + 3]))
    requires k == 1 ==> bytes[d] < 128
    requires k == 2 ==> 0xC2 <= bytes[d] <= 0xDF
    requires k == 3 ==> ThreeLead(bytes[d], bytes[d + 1])
    requires k == 4 ==> FourLead(bytes[d], bytes[d + 1])
    ensures WellFormed(bytes[start..][..d + k - start])
  {
    var s, n := bytes[start..], d - start;
    SliceOfSlice(bytes, start, d, k);
    OneMoreChar(s, n, k);
  }

  lemma WholeIsLongest(s: Bytes)
    requires WellFormed(s[..|s|])
    ensures WellFormed(s) && LongestPrefix(s, |s|)
  {
    assert s[..|s|] == s;
  }

  /** The byte loop over bytes[start..end], with its two early returns. */
  method ValidateUTF8Naive(bytes: Bytes, start: nat, end: nat, returnPosition: nat) returns (r: nat)
    requires start <= end == |bytes| && returnPosition <= 1
    ensures Verdict(bytes[start..], returnPosition, r)
  {
    var data, errPos, codepointBytes := start, 0, 0;
    EmptyIsWellFormed();
    while data + codepointBytes < end
      invariant start <= data && data + codepointBytes <= end
      invariant errPos == if returnPosition == 1 then data - start else 0
      invariant WellFormed(bytes[start..][..data + codepointBytes - start])
      decreases end - data - codepointBytes
    {
      if returnPosition == 1 {
        errPos := errPos + codepointBytes;
      }
      data := data + codepointBytes;
      var len := end - data;
      var byte1 := bytes[data];
      if AsciiIsAscii(byte1) {
        codepointBytes := 1;
        Accept(bytes, start, data, 1);
        continue;
      }
      if len >= 2 && byte1 >= 0xC2 && byte1 <= 0xDF && IsTrailByteOk(bytes[data + 1]) {
        codepointBytes := 2;
        Accept(bytes, start, data, 2);
        continue;
      }
      if len >= 3 {
        var byte2 := bytes[data + 1];
        var byte3 := bytes[data + 2];
        if !IsTrailByteOk(byte2) || !IsTrailByteOk(byte3) {
          GiveUp(bytes, start, data);
          return errPos;
        }
        if ThreeLead(byte1, byte2) {
          codepointBytes := 3;
          Accept(bytes, start, data, 3);
          continue;
        }
        if len >= 4 {
          var byte4 := bytes[data + 3];
          if !IsTrailByteOk(byte4) {
            GiveUp(bytes, start, data);
            return errPos;
          }
          if FourLead(byte1, byte2) {
            codepointBytes := 4;
            Accept(bytes, start, data, 4);
            continue;
          }
        }
      }
      GiveUp(bytes, start, data);
      return errPos;
    }
    if returnPosition == 1 {
      errPos := errPos + codepointBytes;
    }
    WholeIsLongest(bytes[start..]);
    return errPos + (1 - returnPosition);
  }

  /** The non-vectorised path: skip ASCII, then let the byte loop decide. */
  method Validate(bytes: Bytes, returnPosition: nat) returns (r: nat)
    requires returnPosition <= 1
    ensures Verdict(bytes, returnPosition, r)
  {
    EmptyIsWellFormed();
    var len := |bytes|;
    if len == 0 {
      return 1 - returnPosition;
    }
    var data := SkipAscii(bytes, 0, len);
    AsciiIsWellFormed(bytes[..data]);
    var rest := ValidateUTF8Naive(bytes, data, len, returnPosition);
    SkipPrefix(bytes, data, rest);
    return (if returnPosition == 1 then data else 0) + rest;
  }

  method IsValid(bytes: Bytes) returns (valid: bool)
    ensures valid <==> WellFormed(bytes)
  {
    var r := Validate(bytes, 0);
    valid := r != 0;
  }

  method ValidPrefix(bytes: Bytes) returns (n: nat)
    ensures LongestPrefix(bytes, n)
    ensures n == |bytes| <==> WellFormed(bytes)
  {
    n := Validate(bytes, 1);
    LongestIsUnique(bytes, n, n);
  }
}
