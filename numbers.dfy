/** Python's `int(s)`, `str(i)` and `float(s)` on text, and numpy's
    broadcasting of two one-dimensional arrays. */
module Numbers {
  import opened Wrappers
  import opened Text

  predicate IsDigit(c: char)
  {
    '0' <= c <= '9'
  }

  predicate AllDigits(s: string)
  {
    forall i :: 0 <= i < |s| ==> IsDigit(s[i])
  }

  function DigitValue(c: char): nat
    requires IsDigit(c)
  {
    c as int - '0' as int
  }

  function DigitChar(d: nat): (c: char)
    requires d < 10
    ensures IsDigit(c) && DigitValue(c) == d
  {
    ('0' as int + d) as char
  }

  /** Decimal digits of a natural number, without leading zeros. */
  function NatToStr(n: nat): (r: string)
    ensures |r| > 0 && AllDigits(r)
  {
    if n < 10 then [DigitChar(n)] else NatToStr(n / 10) + [DigitChar(n % 10)]
  }

  /** Python's `str(i)` on an int. */
  function IntToStr(i: int): (r: string)
    ensures IsToken(r)
  {
    if i < 0 then "-" + NatToStr(-i) else NatToStr(i)
  }

  /** Where a left-to-right scan of `int`'s argument stands: leading
      whitespace, after the sign, among the digits, trailing whitespace. */
  datatype IntPhase = IntLeading | IntSigned | IntDigits | IntTrailing

  datatype IntScan = IntScan(phase: IntPhase, neg: bool, value: nat)

  const IntStart := IntScan(IntLeading, false, 0)

  function IntStep(c: char, a: IntScan): Option<IntScan>
  {
    match a.phase
    case IntLeading =>
      if IsSpace(c) then Some(a)
      else if c == '-' || c == '+' then Some(a.(phase := IntSigned, neg := c == '-'))
      else if IsDigit(c) then Some(a.(phase := IntDigits, value := DigitValue(c)))
      else None
    case IntSigned =>
      if IsDigit(c) then Some(a.(phase := IntDigits, value := DigitValue(c))) else None
    case IntDigits =>
      if IsDigit(c) then Some(a.(value := a.value * 10 + DigitValue(c)))
      else if IsSpace(c) then Some(a.(phase := IntTrailing))
      else None
    case IntTrailing => if IsSpace(c) then Some(a) else None
  }

  /** The state after scanning all of `t` from `a`, `None` once a character
      does not fit. */
  function IntScanAll(t: string, a: IntScan): Option<IntScan>
    decreases |t|
  {
    if |t| == 0 then Some(a)
    else
      match IntStep(t[0], a)
      case None => None
      case Some(a') => IntScanAll(t[1..], a')
  }

  /** Python's `int(s)` on a string: surrounding whitespace, an optional
      sign, then one or more decimal digits; anything else is a ValueError,
      here `None`. */
  function ParseInt(s: string): Option<int>
  {
    match IntScanAll(s, IntStart)
    case Some(a) =>
      if a.phase == IntDigits || a.phase == IntTrailing then
        Some(if a.neg then -(a.value as int) else a.value as int)
      else None
    case None => None
  }

  lemma {:induction false} IntScanAllSnoc(s: string, c: char, a: IntScan)
    ensures IntScanAll(s + [c], a) ==
      match IntScanAll(s, a) case None => None case Some(b) => IntStep(c, b)
    decreases |s|
  {
    if |s| == 0 {
      assert s + [c] == [c];
    } else {
      assert (s + [c])[1..] == s[1..] + [c];
      match IntStep(s[0], a)
      case None =>
      case Some(a') => IntScanAllSnoc(s[1..], c, a');
    }
  }

  /** Scanning the digits of n from before the first digit ends among the
      digits, with value n. */
  lemma {:induction false} IntScanAllNatToStr(n: nat, a: IntScan)
    requires a.phase == IntLeading || a.phase == IntSigned
    ensures IntScanAll(NatToStr(n), a) == Some(IntScan(IntDigits, a.neg, n))
  {
    if n >= 10 {
      IntScanAllNatToStr(n / 10, a);
      IntScanAllSnoc(NatToStr(n / 10), DigitChar(n % 10), a);
    } else {
      assert NatToStr(n)[1..] == [];
    }
  }

  /** `int(str(i)) == i`. */
  lemma ParseIntIntToStr(i: int)
    ensures ParseInt(IntToStr(i)) == Some(i)
  {
    if i < 0 {
      var d := NatToStr(-i);
      assert IntToStr(i)[1..] == d;
      IntScanAllNatToStr(-i, IntScan(IntSigned, true, 0));
    } else {
      IntScanAllNatToStr(i, IntStart);
    }
  }

  /** `f` applied to each element; `None` as soon as one application fails. */
  function MapAll<A, B>(xs: seq<A>, f: A -> Option<B>): (r: Option<seq<B>>)
    ensures r.Some? ==> |r.value| == |xs|
  {
    if |xs| == 0 then Some([])
    else
      match f(xs[0])
      case None => None
      case Some(y) =>
        match MapAll(xs[1..], f)
        case None => None
        case Some(ys) => Some([y] + ys)
  }

  /** MapAll succeeds exactly when every application does, and then holds
      their results in order. */
  lemma {:induction false} MapAllAt<A, B>(xs: seq<A>, f: A -> Option<B>)
    ensures MapAll(xs, f).Some? <==> forall i :: 0 <= i < |xs| ==> f(xs[i]).Some?
    ensures MapAll(xs, f).Some? ==> forall i :: 0 <= i < |xs| ==> MapAll(xs, f).value[i] == f(xs[i]).value
  {
    if |xs| > 0 {
      MapAllAt(xs[1..], f);
      assert forall i :: 1 <= i < |xs| ==> xs[1..][i - 1] == xs[i];
    }
  }

  /** Entry i of a MapAll that succeeds. */
  lemma MapAllIndex<A, B>(xs: seq<A>, f: A -> Option<B>, i: nat)
    requires MapAll(xs, f).Some? && i < |xs|
    ensures f(xs[i]).Some? && MapAll(xs, f).value[i] == f(xs[i]).value
  {
    MapAllAt(xs, f);
  }

  /** `np.array(toks, dtype=int)`: all tokens converted, or a ValueError. */
  function ParseInts(toks: seq<string>): Option<seq<int>>
  {
    MapAll(toks, ParseInt)
  }

  /** Tokens lo..hi-1 (those that exist) are integers. */
  predicate IntTokens(n: seq<string>, lo: nat, hi: nat)
  {
    forall i :: lo <= i < hi && i < |n| ==> ParseInt(n[i]).Some?
  }

  /** Tokens lo..hi-1 (those that exist) are decimal numbers. */
  predicate FloatTokens(n: seq<string>, lo: nat, hi: nat)
  {
    forall i :: lo <= i < hi && i < |n| ==> ParseFloat(n[i]).Some?
  }

  lemma SliceFloats(n: seq<string>, lo: nat, hi: nat)
    requires lo <= hi
    ensures ParseFloats(Slice(n, lo, hi)).Some? <==> FloatTokens(n, lo, hi)
  {
    var ts := Slice(n, lo, hi);
    MapAllAt(ts, ParseFloat);
    if ParseFloats(ts).Some? {
      forall i | lo <= i < hi && i < |n| ensures ParseFloat(n[i]).Some? {
        assert ts[i - lo] == n[i];
      }
    }
    if FloatTokens(n, lo, hi) {
      forall j | 0 <= j < |ts| ensures ParseFloat(ts[j]).Some? {
        assert ts[j] == n[lo + j];
      }
    }
  }

  function Pow10(n: nat): (r: nat)
    ensures r >= 1
  {
    if n == 0 then 1 else 10 * Pow10(n - 1)
  }

  /** `m * 10^e` for an integer exponent. */
  function Scale(m: real, e: int): real
  {
    if e >= 0 then m * Pow10(e) as real else m / Pow10(-e) as real
  }

  /** Where a left-to-right scan of `float`'s argument stands. */
  datatype Phase = Leading | Signed | Mantissa | Fraction | ExponentStart | ExponentDigits | Trailing

  /** The scan so far: the sign, the mantissa digits read as one integer,
      how many of them follow the point, whether any digit was seen, and
      the exponent. */
  datatype FloatScan = FloatScan(
    phase: Phase, neg: bool, mantissa: nat, fracLen: nat, sawDigit: bool,
    expNeg: bool, exponent: nat, sawExpDigit: bool)

  const ScanStart := FloatScan(Leading, false, 0, 0, false, false, 0, false)

  /** Whether the literal read so far is complete. */
  predicate Complete(a: FloatScan)
  {
    match a.phase
    case Mantissa => a.sawDigit
    case Fraction => a.sawDigit
    case ExponentDigits => a.sawExpDigit
    case Trailing => true
    case _ => false
  }

  /** The value of a complete scan. */
  function ScanValue(a: FloatScan): real
  {
    var m := Scale(a.mantissa as real / Pow10(a.fracLen) as real,
                   if a.expNeg then -(a.exponent as int) else a.exponent as int);
    if a.neg then -m else m
  }

  /** One character inside the literal: digits with an optional point (at
      least one digit in all), then an optional `e`/`E`, sign and digits;
      whitespace after a complete literal starts the trailing part. */
  function NumberStep(c: char, a: FloatScan): Option<FloatScan>
  {
    if IsSpace(c) then (if Complete(a) then Some(a.(phase := Trailing)) else None)
    else
      match a.phase
      case Fraction =>
        if IsDigit(c) then
          Some(a.(mantissa := a.mantissa * 10 + DigitValue(c), fracLen := a.fracLen + 1, sawDigit := true))
        else if (c == 'e' || c == 'E') && a.sawDigit then Some(a.(phase := ExponentStart))
        else None
      case ExponentStart =>
        if c == '-' || c == '+' then Some(a.(phase := ExponentDigits, expNeg := c == '-'))
        else if IsDigit(c) then Some(a.(phase := ExponentDigits, exponent := DigitValue(c), sawExpDigit := true))
        else None
      case ExponentDigits =>
        if IsDigit(c) then Some(a.(exponent := a.exponent * 10 + DigitValue(c), sawExpDigit := true))
        else None
      case _ =>
        if IsDigit(c) then Some(a.(phase := Mantissa, mantissa := a.mantissa * 10 + DigitValue(c), sawDigit := true))
        else if c == '.' then Some(a.(phase := Fraction))
        else if (c == 'e' || c == 'E') && a.sawDigit then Some(a.(phase := ExponentStart))
        else None
  }

  /** One character of `float`'s argument: leading whitespace, an optional
      sign, the literal, trailing whitespace. */
  function FloatStep(c: char, a: FloatScan): Option<FloatScan>
  {
    match a.phase
    case Leading =>
      if IsSpace(c) then Some(a)
      else if c == '-' || c == '+' then Some(a.(phase := Signed, neg := c == '-'))
      else NumberStep(c, a)
    case Signed => if IsSpace(c) then None else NumberStep(c, a)
    case Trailing => if IsSpace(c) then Some(a) else None
    case _ => NumberStep(c, a)
  }

  function ScanFloat(t: string, a: FloatScan): Option<real>
    decreases |t|
  {
    if |t| == 0 then (if Complete(a) then Some(ScanValue(a)) else None)
    else
      match FloatStep(t[0], a)
      case None => None
      case Some(a') => ScanFloat(t[1..], a')
  }

  /** Python's `float(s)` on a decimal literal: surrounding whitespace, an
      optional sign, a decimal mantissa and an optional exponent. */
  function ParseFloat(s: string): Option<real>
  {
    ScanFloat(s, ScanStart)
  }

  /** `np.array(toks, dtype=float)`: all tokens converted, or a ValueError. */
  function ParseFloats(toks: seq<string>): Option<seq<real>>
  {
    MapAll(toks, ParseFloat)
  }

  /** Python's `s[lo:hi]` for 0 <= lo: out-of-range bounds are clipped. */
  function Slice<T>(s: seq<T>, lo: nat, hi: nat): (r: seq<T>)
    ensures |r| == if lo <= hi && lo <= |s| then (if hi <= |s| then hi else |s|) - lo else 0
    ensures var h := if hi <= |s| then hi else |s|; lo <= h ==> r == s[lo..h]
  {
    var h := if hi <= |s| then hi else |s|;
    if lo <= h then s[lo..h] else []
  }

  /** Entry i of a MapAll over a slice that succeeds: f applied to
      element lo + i of the sequence. */
  lemma MapAllSliceIndex<A, B>(s: seq<A>, lo: nat, hi: nat, f: A -> Option<B>, i: nat)
    requires MapAll(Slice(s, lo, hi), f).Some? && i < |Slice(s, lo, hi)|
    ensures lo + i < |s| && f(s[lo + i]).Some? && MapAll(Slice(s, lo, hi), f).value[i] == f(s[lo + i]).value
  {
    MapAllIndex(Slice(s, lo, hi), f, i);
    assert Slice(s, lo, hi)[i] == s[lo + i];
  }

  /** numpy broadcasting of two one-dimensional arrays in an elementwise
      operation: equal lengths pair up, a length-1 array is repeated, any
      other combination is a ValueError (`None`). */
  function Broadcast<A, B>(a: seq<A>, b: seq<B>): (r: Option<seq<(A, B)>>)
    ensures r.Some? <==> (|a| == |b| || |a| == 1 || |b| == 1)
    ensures r.Some? ==> |r.value| == if |a| == 1 then |b| else |a|
    ensures r.Some? ==> forall i :: 0 <= i < |r.value| ==>
      r.value[i] == (a[if |a| == 1 then 0 else i], b[if |b| == 1 then 0 else i])
  {
    if |a| == |b| || |a| == 1 || |b| == 1 then
      var n := if |a| == 1 then |b| else |a|;
      Some(seq(n, i requires 0 <= i < n => (a[if |a| == 1 then 0 else i], b[if |b| == 1 then 0 else i])))
    else None
  }

  /** The integer part of a true division by two, `int(n / 2)`: truncation toward zero. */
  function HalfTrunc(n: int): (r: int)
    ensures 2 * r <= n ==> n - 2 * r <= 1
    ensures n >= 0 ==> 0 <= r && 2 * r <= n && n - 2 * r <= 1
    ensures n < 0 ==> r <= 0 && 2 * r >= n && 2 * r - n <= 1
  {
    if n >= 0 then n / 2 else -((-n) / 2)
  }
}
