/** Numbers as the tables print them with `irrep.__aux.str_`, and what
    `float` reads back from the printed text. */
module Printing {
  import opened Wrappers
  import opened Text
  import opened Numbers
  import opened Foreign

  /** `str_` of each entry. */
  function FormatAll(h: Host, xs: seq<real>): (r: seq<string>)
    ensures |r| == |xs|
  {
    seq(|xs|, i requires 0 <= i < |xs| => h.formatNumber(xs[i]))
  }

  /** `np.abs` of each entry. */
  function AbsAll(h: Host, cs: seq<Complex>): (r: seq<real>)
    ensures |r| == |cs|
  {
    seq(|cs|, i requires 0 <= i < |cs| => h.absOf(cs[i]))
  }

  /** `np.angle(cs) / np.pi` of each entry. */
  function AnglePiAll(h: Host, cs: seq<Complex>): (r: seq<real>)
    ensures |r| == |cs|
  {
    seq(|cs|, i requires 0 <= i < |cs| => h.anglePiOf(cs[i]))
  }

  /** `np.real` of each entry. */
  function RealAll(h: Host, cs: seq<Complex>): (r: seq<real>)
    ensures |r| == |cs|
  {
    seq(|cs|, i requires 0 <= i < |cs| => h.realOf(cs[i]))
  }

  /** Every number prints as one token that `float` reads back. */
  predicate PrintsAsTokens(h: Host, xs: seq<real>)
  {
    forall i :: 0 <= i < |xs| ==> IsToken(h.formatNumber(xs[i])) && ParseFloat(h.formatNumber(xs[i])).Some?
  }

  /** What `float` reads back from the printed form of x. */
  function Reread(h: Host, x: real): real
    requires ParseFloat(h.formatNumber(x)).Some?
  {
    ParseFloat(h.formatNumber(x)).value
  }

  /** What `float` reads back from the printed form of each entry. */
  function RereadAll(h: Host, xs: seq<real>): (r: seq<real>)
    requires PrintsAsTokens(h, xs)
    ensures |r| == |xs|
  {
    seq(|xs|, i requires 0 <= i < |xs| => Reread(h, xs[i]))
  }

  /** Printed numbers joined by spaces split back into the printed numbers. */
  lemma NumberTokens(h: Host, xs: seq<real>)
    requires PrintsAsTokens(h, xs)
    ensures SplitWs(Join(FormatAll(h, xs), " ")) == FormatAll(h, xs)
    ensures SplitWs(Join(FormatAll(h, xs), "  ")) == FormatAll(h, xs)
  {
    SplitWsJoin(FormatAll(h, xs), " ");
    SplitWsJoin(FormatAll(h, xs), "  ");
  }

  /** Where a run of tokens is the printed form of xs, `float` reads xs back. */
  lemma StrNumberValues(h: Host, xs: seq<real>, n: seq<string>, lo: nat)
    requires PrintsAsTokens(h, xs) && lo + |xs| <= |n| && n[lo..lo + |xs|] == FormatAll(h, xs)
    ensures forall i :: 0 <= i < |xs| ==> ParseFloat(n[lo + i]) == Some(RereadAll(h, xs)[i])
  {
    forall i | 0 <= i < |xs| ensures ParseFloat(n[lo + i]) == Some(RereadAll(h, xs)[i]) {
      assert n[lo + i] == n[lo..lo + |xs|][i];
    }
  }

  /** Entries m * exp(i*pi*p) from moduli and phases side by side. */
  function Polar(ms: seq<real>, ps: seq<real>): (r: seq<Complex>)
    requires |ms| == |ps|
    ensures |r| == |ms|
  {
    seq(|ms|, k requires 0 <= k < |ms| => Exp(ms[k], ps[k]))
  }
}
