/** SampleNTT (section 4.2.2 of FIPS 203): rejection sampling from a byte stream. */
module Sample {
  import opened Modular
  import opened Bytes

  /** The unbounded output of an extendable-output function. */
  type Stream = nat -> byte

  /** Candidate n: two 12-bit numbers are read from every three bytes. */
  function Candidate(s: Stream, n: nat): (v: nat) {
    var t := n / 2;
    if n % 2 == 0 then Value8(s(3 * t)) + 256 * (Value8(s(3 * t + 1)) % 16)
    else Value8(s(3 * t + 1)) / 16 + 16 * Value8(s(3 * t + 2))
  }

  /** The candidates below Q among the first n. */
  function Accepted(s: Stream, n: nat): (a: seq<nat>)
    ensures |a| <= n && forall i :: 0 <= i < |a| ==> a[i] < 3329
  {
    if n == 0 then []
    else if Candidate(s, n - 1) < Q then Accepted(s, n - 1) + [Candidate(s, n - 1)]
    else Accepted(s, n - 1)
  }

  lemma {:induction false} AcceptedGrows(s: Stream, m: nat, n: nat)
    requires m <= n
    ensures Accepted(s, m) <= Accepted(s, n)
    decreases n
  {
    hide Candidate;
    if m < n {
      AcceptedGrows(s, m, n - 1);
    }
  }

  ghost predicate Sampleable(s: Stream) {
    exists n: nat :: |Accepted(s, n)| >= 256
  }

  /** The first 256 accepted candidates, however many are read. */
  ghost function SampleNtt(s: Stream): (a: seq<int16>)
    requires Sampleable(s)
    ensures |a| == 256 && forall i :: 0 <= i < 256 ==> 0 <= a[i] < 3329
  {
    var n: nat :| |Accepted(s, n)| >= 256;
    seq(256, i requires 0 <= i < 256 => Accepted(s, n)[i])
  }

  lemma SampleIsPrefix(s: Stream, n: nat, i: nat)
    requires Sampleable(s) && i < |Accepted(s, n)| && i < 256
    ensures SampleNtt(s)[i] == Accepted(s, n)[i]
  {
    hide Accepted;
    var m: nat :| |Accepted(s, m)| >= 256 && forall k :: 0 <= k < 256 ==> SampleNtt(s)[k] == Accepted(s, m)[k];
    if m <= n {
      AcceptedGrows(s, m, n);
    } else {
      AcceptedGrows(s, n, m);
    }
  }

  /** ctr coefficients have been found among the first n candidates. */
  ghost predicate Found(s: Stream, n: nat, ctr: nat) {
    if ctr < 256 then |Accepted(s, n)| == ctr else ctr == 256 && |Accepted(s, n)| >= 256
  }

  lemma FoundNext(s: Stream, n: nat, ctr: nat)
    requires Sampleable(s) && Found(s, n, ctr)
    ensures ctr < 256 && Candidate(s, n) < 3329 ==> Found(s, n + 1, ctr + 1) && SampleNtt(s)[ctr] == Candidate(s, n)
    ensures ctr == 256 || Candidate(s, n) >= 3329 ==> Found(s, n + 1, ctr)
  {
    hide Candidate, SampleNtt;
    if ctr < 256 && Candidate(s, n) < Q {
      SampleIsPrefix(s, n + 1, ctr);
    }
  }

  /** How many candidates it takes. */
  ghost function Needed(s: Stream): (n: nat)
    requires Sampleable(s)
    ensures forall m: nat, ctr: nat :: ctr < 256 && Found(s, m, ctr) ==> m < n
  {
    var n: nat :| |Accepted(s, n)| >= 256;
    NeededBound(s, n);
    n
  }

  lemma NeededBound(s: Stream, n: nat)
    requires |Accepted(s, n)| >= 256
    ensures forall m: nat, ctr: nat :: ctr < 256 && Found(s, m, ctr) ==> m < n
  {
    forall m: nat, ctr: nat | ctr < 256 && Found(s, m, ctr) ensures m < n {
      if n <= m {
        AcceptedGrows(s, n, m);
      }
    }
  }
}
