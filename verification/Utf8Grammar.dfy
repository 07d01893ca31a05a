/**
  UTF-8 validation: the eight-bytes-at-a-time ASCII skip and the branching byte
  loop, against the grammar of section 4 of RFC 3629.
 */
module Utf8Grammar {
  import opened Octets

  predicate Tail(b: byte) { 0x80 <= b <= 0xBF }

  /** The productions UTF8-1 to UTF8-4. */
  predicate Utf8Char(c: Bytes) {
    match |c|
    case 1 => c[0] <= 0x7F
    case 2 => 0xC2 <= c[0] <= 0xDF && Tail(c[1])
    case 3 =>
      || (c[0] == 0xE0 && 0xA0 <= c[1] <= 0xBF && Tail(c[2]))
      || (0xE1 <= c[0] <= 0xEC && Tail(c[1]) && Tail(c[2]))
      || (c[0] == 0xED && 0x80 <= c[1] <= 0x9F && Tail(c[2]))
      || (0xEE <= c[0] <= 0xEF && Tail(c[1]) && Tail(c[2]))
    case 4 =>
      || (c[0] == 0xF0 && 0x90 <= c[1] <= 0xBF && Tail(c[2]) && Tail(c[3]))
      || (0xF1 <= c[0] <= 0xF3 && Tail(c[1]) && Tail(c[2]) && Tail(c[3]))
      || (c[0] == 0xF4 && 0x80 <= c[1] <= 0x8F && Tail(c[2]) && Tail(c[3]))
    case _ => false
  }

  function Flatten(cs: seq<Bytes>): Bytes {
    if cs == [] then [] else cs[0] + Flatten(cs[1..])
  }

  ghost predicate AllChars(cs: seq<Bytes>) {
    forall i | 0 <= i < |cs| :: Utf8Char(cs[i])
  }

  /** UTF8-octets: a concatenation of characters. */
  ghost predicate WellFormed(s: Bytes) {
    exists cs: seq<Bytes> :: AllChars(cs) && Flatten(cs) == s
  }

  lemma EmptyIsWellFormed()
    ensures WellFormed([])
  {
    assert AllChars([]) && Flatten([]) == [];
  }

  lemma {:induction false} FlattenConcat(cs: seq<Bytes>, ds: seq<Bytes>)
    ensures Flatten(cs + ds) == Flatten(cs) + Flatten(ds)
  {
    if cs == [] {
      assert cs + ds == ds;
    } else {
      assert (cs + ds)[1..] == cs[1..] + ds;
      FlattenConcat(cs[1..], ds);
    }
  }

  lemma WellFormedConcat(a: Bytes, b: Bytes)
    requires WellFormed(a) && WellFormed(b)
    ensures WellFormed(a + b)
  {
    var cs :| AllChars(cs) && Flatten(cs) == a;
    var ds :| AllChars(ds) && Flatten(ds) == b;
    FlattenConcat(cs, ds);
    assert AllChars(cs + ds);
  }

  lemma CharIsWellFormed(c: Bytes)
    requires Utf8Char(c)
    ensures WellFormed(c)
  {
    assert Flatten([c]) == c + Flatten([]) == c;
    assert AllChars([c]);
  }

  lemma FirstChar(s: Bytes) returns (k: nat)
    requires WellFormed(s) && s != []
    ensures 1 <= k <= 4 && k <= |s| && Utf8Char(s[..k])
  {
    var cs :| AllChars(cs) && Flatten(cs) == s;
    assert cs != [] && Utf8Char(cs[0]);
    k := |cs[0]|;
    assert s[..k] == cs[0];
  }

  /** Two characters at the front of one string are the same: the encoding is unambiguous. */
  lemma PrefixFree(c: Bytes, d: Bytes, s: Bytes)
    requires Utf8Char(c) && Utf8Char(d) && c <= s && d <= s
    ensures c == d
  {
    assert c[0] == s[0] == d[0];
    assert c == s[..|c|] && d == s[..|d|];
  }

  /** Cutting a well-formed prefix off a well-formed string leaves a well-formed string. */
  lemma {:induction false} Cancel(a: Bytes, b: Bytes)
    requires WellFormed(a) && WellFormed(a + b)
    ensures WellFormed(b)
  {
    var cs :| AllChars(cs) && Flatten(cs) == a;
    var ds :| AllChars(ds) && Flatten(ds) == a + b;
    CancelChars(cs, ds, b);
  }

  lemma {:induction false} CancelChars(cs: seq<Bytes>, ds: seq<Bytes>, b: Bytes)
    requires AllChars(cs) && AllChars(ds) && Flatten(ds) == Flatten(cs) + b
    ensures WellFormed(b)
    decreases |cs|
  {
    if cs == [] {
      assert Flatten(cs) + b == b;
    } else {
      assert Utf8Char(cs[0]);
      assert |Flatten(ds)| > 0 && ds != [];
      assert Utf8Char(ds[0]);
      var c, d, s := cs[0], ds[0], Flatten(ds);
      assert s == c + (Flatten(cs[1..]) + b) && s == d + Flatten(ds[1..]);
      PrefixFree(c, d, s);
      assert Flatten(ds[1..]) == Flatten(cs[1..]) + b by {
        assert s[|c|..] == Flatten(ds[1..]) && s[|c|..] == Flatten(cs[1..]) + b;
      }
      CancelChars(cs[1..], ds[1..], b);
    }
  }

  /** n is the length of the longest well-formed prefix of s. */
  ghost predicate LongestPrefix(s: Bytes, n: nat) {
    n <= |s| && WellFormed(s[..n]) && forall m | n < m <= |s| :: !WellFormed(s[..m])
  }

  predicate CharAt(s: Bytes, n: nat, k: nat) {
    1 <= k <= 4 && n + k <= |s| && Utf8Char(s[n..n + k])
  }

  lemma LongerHasChar(s: Bytes, n: nat, m: nat) returns (k: nat)
    requires n < m <= |s| && WellFormed(s[..n]) && WellFormed(s[..m])
    ensures CharAt(s, n, k)
  {
    assert s[..m] == s[..n] + s[n..m];
    Cancel(s[..n], s[n..m]);
    k := FirstChar(s[n..m]);
    assert s[n..m][..k] == s[n..n + k];
  }

  /** The valid part of a string ends exactly where no character starts. */
  lemma StuckIsLongest(s: Bytes, n: nat)
    requires n <= |s| && WellFormed(s[..n])
    requires forall k: nat :: !CharAt(s, n, k)
    ensures LongestPrefix(s, n)
    ensures n < |s| ==> !WellFormed(s)
  {
    forall m | n < m <= |s| ensures !WellFormed(s[..m]) {
      if WellFormed(s[..m]) {
        var k := LongerHasChar(s, n, m);
      }
    }
    assert s[..|s|] == s;
  }

  lemma LongestIsUnique(s: Bytes, n: nat, m: nat)
    requires LongestPrefix(s, n) && LongestPrefix(s, m)
    ensures n == m
    ensures WellFormed(s) <==> n == |s|
  {
    assert s[..|s|] == s;
  }

  lemma OneMoreChar(s: Bytes, n: nat, k: nat)
    requires n <= |s| && WellFormed(s[..n]) && CharAt(s, n, k)
    ensures WellFormed(s[..n + k])
  {
    assert s[..n + k] == s[..n] + s[n..n + k];
    CharIsWellFormed(s[n..n + k]);
    WellFormedConcat(s[..n], s[n..n + k]);
  }

  /** A well-formed prefix changes neither the verdict nor where the valid part ends. */
  lemma SkipPrefix(s: Bytes, d: nat, n: nat)
    requires d <= |s| && WellFormed(s[..d])
    ensures WellFormed(s) <==> WellFormed(s[d..])
    ensures LongestPrefix(s[d..], n) ==> LongestPrefix(s, d + n)
  {
    assert s == s[..d] + s[d..];
    if WellFormed(s) { Cancel(s[..d], s[d..]); }
    if WellFormed(s[d..]) { WellFormedConcat(s[..d], s[d..]); }
    if LongestPrefix(s[d..], n) {
      assert s[..d + n] == s[..d] + s[d..][..n];
      WellFormedConcat(s[..d], s[d..][..n]);
      forall m | d + n < m <= |s| ensures !WellFormed(s[..m]) {
        assert s[..m] == s[..d] + s[d..][..m - d];
        if WellFormed(s[..m]) { Cancel(s[..d], s[d..][..m - d]); }
      }
    }
  }
}
