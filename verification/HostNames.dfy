/** Display names for remote machines: the first free one of "h", "h[1]", "h[2]", and so on. */
module HostNames {
  import opened Collections

  // ----- Decimal numerals -----

  function Digit(d: nat): (c: char)
    requires d < 10
  {
    ['0', '1', '2', '3', '4', '5', '6', '7', '8', '9'][d]
  }

  function DigitValue(c: char): nat { if '0' <= c <= '9' then c as int - '0' as int else 0 }

  /** What "%d" makes of a number. */
  function Decimal(n: nat): (s: string)
    ensures s != ""
  {
    if n < 10 then [Digit(n)] else Decimal(n / 10) + [Digit(n % 10)]
  }

  function Numeral(s: string): nat {
    if s == "" then 0 else 10 * Numeral(s[..|s| - 1]) + DigitValue(s[|s| - 1])
  }

  lemma {:induction false} DecimalReadsBack(n: nat)
    ensures Numeral(Decimal(n)) == n
  {
    var s := Decimal(n);
    assert Numeral("") == 0;
    if n >= 10 {
      DecimalReadsBack(n / 10);
      assert s[..|s| - 1] == Decimal(n / 10);
    }
  }

  function Candidate(hostname: string, k: nat): string {
    if k == 0 then hostname else hostname + "[" + Decimal(k) + "]"
  }

  predicate IsDigit(c: char) { '0' <= c <= '9' }

  /** Digits only, and no zero in front. */
  lemma {:induction false} DecimalIsPlain(n: nat)
    ensures forall i | 0 <= i < |Decimal(n)| :: IsDigit(Decimal(n)[i])
    ensures n > 0 ==> Decimal(n)[0] != '0'
  {
    if n >= 10 { DecimalIsPlain(n / 10); }
  }

  /** A candidate is the host name itself or has, in brackets behind it, the numeral of its suffix. */
  lemma CandidateNumber(hostname: string, k: nat)
    ensures Candidate(hostname, 0) == hostname
    ensures k > 0 ==>
              var c := Candidate(hostname, k);
              && |c| > |hostname| + 2 && c[..|hostname|] == hostname
              && c[|hostname|] == '[' && c[|c| - 1] == ']' && c[|hostname| + 1] != '0'
              && (forall i | |hostname| < i < |c| - 1 :: IsDigit(c[i]))
              && Numeral(c[|hostname| + 1..|c| - 1]) == k
  {
    DecimalReadsBack(k);
    DecimalIsPlain(k);
    if k > 0 {
      var c := Candidate(hostname, k);
      assert c[|hostname| + 1..|c| - 1] == Decimal(k);
    }
  }

  lemma CandidatesDiffer(hostname: string, j: nat, k: nat)
    requires j != k
    ensures Candidate(hostname, j) != Candidate(hostname, k)
  {
    CandidateNumber(hostname, j);
    CandidateNumber(hostname, k);
  }

  // ----- The pigeonhole -----

  function FirstCandidates(hostname: string, n: nat): set<string> {
    if n == 0 then {} else FirstCandidates(hostname, n - 1) + {Candidate(hostname, n - 1)}
  }

  lemma {:induction false} FirstCandidatesAre(hostname: string, n: nat)
    ensures |FirstCandidates(hostname, n)| == n
    ensures forall s | s in FirstCandidates(hostname, n) :: exists k :: 0 <= k < n && s == Candidate(hostname, k)
  {
    if n > 0 {
      FirstCandidatesAre(hostname, n - 1);
      var last := Candidate(hostname, n - 1);
      if last in FirstCandidates(hostname, n - 1) {
        var k :| 0 <= k < n - 1 && last == Candidate(hostname, k);
        CandidatesDiffer(hostname, k, n - 1);
      }
    }
  }

  lemma SubsetSize<T>(a: set<T>, b: set<T>)
    requires a <= b
    ensures |a| <= |b|
  {
    assert b == a + (b - a);
  }

  lemma {:induction false} FewValues<K, V>(m: map<K, V>)
    ensures |m.Values| <= |m|
    decreases |m|
  {
    if |m| > 0 {
      var k := SomeMember(m.Keys);
      var rest := m - {k};
      assert m.Keys == rest.Keys + {k};
      FewValues(rest);
      forall v | v in m.Values ensures v in rest.Values + {m[k]} {
        var l := KeyOf(m, v);
        assert l == k || (l in rest && rest[l] == v);
      }
      SubsetSize(m.Values, rest.Values + {m[k]});
    } else {
      assert m.Values == {};
    }
  }

  ghost predicate Taken(displayed: set<string>, hostname: string, n: nat) {
    forall k | 0 <= k < n :: Candidate(hostname, k) in displayed
  }

  /** No more candidates can be taken than there are remotes. */
  lemma Pigeonhole(remotes: map<string, string>, hostname: string, n: nat)
    requires Taken(remotes.Values, hostname, n)
    ensures n <= |remotes|
  {
    FirstCandidatesAre(hostname, n);
    SubsetSize(FirstCandidates(hostname, n), remotes.Values);
    FewValues(remotes);
  }

  // ----- The server -----

  class Server {
    /** The display name of every known remote, by identity. */
    var remoteMachines: map<string, string>

    ghost predicate PairwiseDistinct()
      reads this
    {
      forall a, b | a in remoteMachines && b in remoteMachines && a != b :: remoteMachines[a] != remoteMachines[b]
    }

    constructor ()
      ensures remoteMachines == map[] && PairwiseDistinct()
    {
      remoteMachines := map[];
    }

    /** One pass over the table, in whatever order it yields its keys. */
    method IsDisplayed(name: string) returns (found: bool)
      ensures found <==> name in remoteMachines.Values
    {
      var keys := remoteMachines.Keys;
      while keys != {}
        invariant keys <= remoteMachines.Keys
        invariant forall key | key in remoteMachines && key !in keys :: remoteMachines[key] != name
        decreases |keys|
      {
        var key := Pick(keys);
        if remoteMachines[key] == name {
          return true;
        }
        keys := keys - {key};
      }
      return false;
    }

    /** The first free candidate, found within one pass more than there are remotes. */
    method EnsureUniqueHostname(hostname: string) returns (displayHostname: string, suffix: nat, passes: nat)
      ensures displayHostname == Candidate(hostname, suffix)
      ensures displayHostname !in remoteMachines.Values
      ensures Taken(remoteMachines.Values, hostname, suffix)
      ensures passes <= |remoteMachines| + 1
    {
      displayHostname := hostname;
      var i := 1;
      passes := 0;
      while true
        invariant i == passes + 1 && displayHostname == Candidate(hostname, passes)
        invariant Taken(remoteMachines.Values, hostname, passes)
        invariant passes <= |remoteMachines|
        decreases |remoteMachines| - passes
      {
        var found := IsDisplayed(displayHostname);
        if !found {
          return displayHostname, passes, passes + 1;
        }
        displayHostname := hostname + "[" + Decimal(i) + "]";
        i := i + 1;
        passes := passes + 1;
        Pigeonhole(remoteMachines, hostname, passes);
      }
    }

    /** A machine not seen before is added under a name of its own, unless its registration fails. */
    method AddRemote(ident: string, hostname: string, registered: bool) returns (displayHostname: string)
      requires ident !in remoteMachines && PairwiseDistinct()
      modifies this
      ensures PairwiseDistinct()
      ensures displayHostname !in old(remoteMachines).Values
      ensures exists k :: displayHostname == Candidate(hostname, k) && Taken(old(remoteMachines).Values, hostname, k)
      ensures remoteMachines ==
              if registered then old(remoteMachines)[ident := displayHostname] else old(remoteMachines)
    {
      var suffix, passes;
      displayHostname, suffix, passes := EnsureUniqueHostname(hostname);
      if registered {
        remoteMachines := remoteMachines[ident := displayHostname];
      }
    }
  }
}
