/** `CharFunction`: a character of a symmetry that depends on the
    parameters u, v, w of a k-point, as a list of terms. */
module CharFunctions {
  import opened Wrappers
  import opened Numbers
  import opened Foreign

  /** Term [a0, a1, a2, a3, a4] stands for a0 * exp(i*pi*(a1 + a2*u + a3*v + a4*w)). */
  datatype CharFunction = CharFunction(abcde: seq<seq<real>>)

  /** `sum(a * x for a, x in zip(as, xs))`: `zip` stops at the shorter list. */
  function ZipDot(coeffs: seq<real>, xs: seq<real>): real
  {
    if |coeffs| == 0 || |xs| == 0 then 0.0 else coeffs[0] * xs[0] + ZipDot(coeffs[1..], xs[1..])
  }

  /** The exponent of one term (in units of i*pi). */
  function Exponent(term: seq<real>, u: real, v: real, w: real): real
    requires |term| >= 1
  {
    ZipDot(term[1..], [1.0, u, v, w])
  }

  /** One term's value; a term without entries has no `aaa[0]`: IndexError. */
  function TermValue(u: real, v: real, w: real): seq<real> -> Option<Complex>
  {
    term => if |term| >= 1 then Some(Exp(term[0], Exponent(term, u, v, w))) else None
  }

  /** `f(u, v, w)`: the sum of the terms. */
  function Eval(f: CharFunction, u: real, v: real, w: real): (r: Result<Complex>)
    ensures r.Ok? <==> forall i :: 0 <= i < |f.abcde| ==> |f.abcde[i]| >= 1
    ensures r.Err? ==> r.error == IndexError
    ensures r.Ok? ==> r.value.Sum? && |r.value.parts| == |f.abcde|
    ensures r.Ok? ==> forall i :: 0 <= i < |f.abcde| ==>
      r.value.parts[i] == Exp(f.abcde[i][0], Exponent(f.abcde[i], u, v, w))
  {
    MapAllAt(f.abcde, TermValue(u, v, w));
    match MapAll(f.abcde, TermValue(u, v, w))
    case None => Err(IndexError)
    case Some(parts) => Ok(Sum(parts))
  }

  /** At u = v = w = 0 only a0 and a1 matter. */
  lemma ExponentAtZero(term: seq<real>)
    requires |term| >= 1
    ensures Exponent(term, 0.0, 0.0, 0.0) == if |term| >= 2 then term[1] else 0.0
  {
    var c := term[1..];
    if |c| >= 1 {
      var xs: seq<real> := [1.0, 0.0, 0.0, 0.0];
      assert xs[1..] == [0.0, 0.0, 0.0];
      ZipDotZeros(c[1..], [0.0, 0.0, 0.0]);
    }
  }

  lemma {:induction false} ZipDotZeros(coeffs: seq<real>, xs: seq<real>)
    requires forall i :: 0 <= i < |xs| ==> xs[i] == 0.0
    ensures ZipDot(coeffs, xs) == 0.0
  {
    if |coeffs| > 0 && |xs| > 0 {
      ZipDotZeros(coeffs[1..], xs[1..]);
    }
  }

  /** Evaluation at the defaults `f()`: term k contributes a0 * exp(i*pi*a1)
      (just a0 when the term has one entry); an empty term is an IndexError. */
  lemma EvalAtDefaults(f: CharFunction)
    ensures Eval(f, 0.0, 0.0, 0.0).Ok? <==> forall i :: 0 <= i < |f.abcde| ==> |f.abcde[i]| >= 1
    ensures Eval(f, 0.0, 0.0, 0.0).Ok? ==>
      var parts := Eval(f, 0.0, 0.0, 0.0).value.parts;
      |parts| == |f.abcde| && forall i :: 0 <= i < |f.abcde| ==>
        parts[i] == Exp(f.abcde[i][0], if |f.abcde[i]| >= 2 then f.abcde[i][1] else 0.0)
  {
    if Eval(f, 0.0, 0.0, 0.0).Ok? {
      forall i | 0 <= i < |f.abcde| ensures Exponent(f.abcde[i], 0.0, 0.0, 0.0) == if |f.abcde[i]| >= 2 then f.abcde[i][1] else 0.0 {
        ExponentAtZero(f.abcde[i]);
      }
    }
  }
}
