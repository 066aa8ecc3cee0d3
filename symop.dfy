/** `SymopTable`: one symmetry operation of the space group, read from a line
    in either of the two layouts and written back in the user layout. */
module Symop {
  import opened Wrappers
  import opened Text
  import opened Numbers
  import opened Foreign
  import opened Printing

  /** R is the 3x3 rotation, row-major (R[3*i+j] is row i, column j); t the
      translation (numbers 9..11 of the line, so shorter when the line is);
      S the 2x2 spinor matrix, row-major. */
  datatype SymopTable = SymopTable(R: seq<int>, t: seq<real>, S: seq<Complex>)

  /** `np.eye(2)`, row-major. */
  const IdentityS: seq<Complex> := [Re(1.0), Re(0.0), Re(0.0), Re(1.0)]

  /** `np.array(numbers[:9], dtype=int).reshape(3, 3)`. */
  function ParseRotation(numbers: seq<string>): (r: Result<seq<int>>)
    ensures r.Ok? <==> |numbers| >= 9 && forall i :: 0 <= i < 9 ==> ParseInt(numbers[i]).Some?
    ensures r.Ok? ==> |r.value| == 9 && forall i :: 0 <= i < 9 ==> r.value[i] == ParseInt(numbers[i]).value
    ensures r.Err? ==> r.error == ValueError
  {
    MapAllAt(Slice(numbers, 0, 9), ParseInt);
    match ParseInts(Slice(numbers, 0, 9))
    case None => Err(ValueError)
    case Some(rs) => if |rs| != 9 then Err(ValueError) else Ok(rs)
  }

  /** `np.array(numbers[9:12], dtype=float)`: no length check. */
  function ParseTranslation(numbers: seq<string>): (r: Result<seq<real>>)
    ensures var ts := Slice(numbers, 9, 12);
      && (r.Ok? <==> forall i :: 0 <= i < |ts| ==> ParseFloat(ts[i]).Some?)
      && (r.Ok? ==> |r.value| == |ts| && forall i :: 0 <= i < |ts| ==> r.value[i] == ParseFloat(ts[i]).value)
  {
    var ts := Slice(numbers, 9, 12);
    MapAllAt(ts, ParseFloat);
    var p := ParseFloats(ts);
    if p.Some? then Ok(p.value) else Err(ValueError)
  }

  /** Elements start, start+2, start+4, ... (Python's `s[start::2]`). */
  function EveryOther<T>(s: seq<T>, start: nat): (r: seq<T>)
    ensures |r| == if start < |s| then (|s| - start + 1) / 2 else 0
    ensures forall i :: 0 <= i < |r| ==> r[i] == s[start + 2 * i]
    decreases |s| - start
  {
    if start < |s| then [s[start]] + EveryOther(s, start + 2) else []
  }

  /** `(np.array(mags, dtype=float) * np.exp(1j*np.pi*np.array(phases, dtype=float))).reshape(2, 2)`. */
  function PolarMatrix(mags: seq<string>, phases: seq<string>): Result<seq<Complex>>
  {
    match (ParseFloats(mags), ParseFloats(phases))
    case (Some(ms), Some(ps)) =>
      (match Broadcast(ms, ps)
       case None => Err(ValueError)
       case Some(pairs) =>
         if |pairs| != 4 then Err(ValueError)
         else Ok(seq(4, i requires 0 <= i < 4 => Exp(pairs[i].0, pairs[i].1))))
    case _ => Err(ValueError)
  }

  /** `SymopTable(line)`: the machine layout, magnitudes and phases interleaved. */
  function ParseMachine(line: string): Result<SymopTable>
  {
    var numbers := SplitWs(line);
    var R :- ParseRotation(numbers);
    var t :- ParseTranslation(numbers);
    var S :- PolarMatrix(EveryOther(numbers, 12), EveryOther(numbers, 13));
    Ok(SymopTable(R, t, S))
  }

  /** `SymopTable(line, from_user=True)`: the user layout, a block of four
      magnitudes then a block of phases, or no spinor part at all. */
  function ParseUser(line: string): Result<SymopTable>
  {
    var numbers := SplitWs(line);
    var R :- ParseRotation(numbers);
    var t :- ParseTranslation(numbers);
    var S :- if |numbers| > 12 then PolarMatrix(Slice(numbers, 12, 16), Slice(numbers, 16, 20))
             else Ok(IdentityS);
    Ok(SymopTable(R, t, S))
  }

  /** The nine entries of R as `str` prints them, row-major. */
  function RotationTexts(R: seq<int>): (r: seq<string>)
    ensures |r| == |R|
  {
    seq(|R|, i requires 0 <= i < |R| => IntToStr(R[i]))
  }

  /** One row of R: `" ".join(str(x) for x in r)`. */
  function RowText(R: seq<int>, i: nat): string
    requires |R| == 9 && i < 3
  {
    Join(RotationTexts(R)[3 * i..3 * i + 3], " ")
  }

  /** `SymopTable.str(spinor)`: R row by row, then t, then (with `spinor`)
      the moduli of S followed by its phases in units of pi. */
  function Str(op: SymopTable, spinor: bool, h: Host): string
    requires |op.R| == 9
  {
    Join([RowText(op.R, 0), RowText(op.R, 1), RowText(op.R, 2)], "   ")
    + "     " + Join(FormatAll(h, op.t), " ")
    + (if spinor then
         "      " + Join([Join(FormatAll(h, AbsAll(h, op.S)), "  "),
                          Join(FormatAll(h, AnglePiAll(h, op.S)), "  ")], "    ")
       else "")
  }

  lemma PolarMatrixOk(ms: seq<string>, ps: seq<string>)
    ensures PolarMatrix(ms, ps).Ok? <==>
      && (forall i :: 0 <= i < |ms| ==> ParseFloat(ms[i]).Some?)
      && (forall i :: 0 <= i < |ps| ==> ParseFloat(ps[i]).Some?)
      && ((|ms| == 4 && (|ps| == 4 || |ps| == 1)) || (|ms| == 1 && |ps| == 4))
    ensures PolarMatrix(ms, ps).Ok? ==>
      var S := PolarMatrix(ms, ps).value;
      |S| == 4 && forall k :: 0 <= k < 4 ==>
        S[k] == Exp(ParseFloat(ms[if |ms| == 1 then 0 else k]).value,
                    ParseFloat(ps[if |ps| == 1 then 0 else k]).value)
  {
    MapAllAt(ms, ParseFloat);
    MapAllAt(ps, ParseFloat);
  }

  lemma PolarMatrixEntries(ms: seq<string>, ps: seq<string>, S: seq<Complex>, k: nat)
    requires PolarMatrix(ms, ps) == Ok(S) && k < 4
    ensures |S| == 4
    ensures ParseFloat(ms[if |ms| == 1 then 0 else k]).Some? && ParseFloat(ps[if |ps| == 1 then 0 else k]).Some?
    ensures S[k] == Exp(ParseFloat(ms[if |ms| == 1 then 0 else k]).value,
                        ParseFloat(ps[if |ps| == 1 then 0 else k]).value)
  {
    PolarMatrixOk(ms, ps);
  }

  /** How a symmetry line decomposes into its three parts. */
  lemma ParseParts(line: string, user: bool)
    ensures var n := SplitWs(line);
      var R, t := ParseRotation(n), ParseTranslation(n);
      var S := if !user then PolarMatrix(EveryOther(n, 12), EveryOther(n, 13))
               else if |n| > 12 then PolarMatrix(Slice(n, 12, 16), Slice(n, 16, 20))
               else Ok(IdentityS);
      (if user then ParseUser(line) else ParseMachine(line)) ==
        if R.Ok? && t.Ok? && S.Ok? then Ok(SymopTable(R.value, t.value, S.value))
        else Err(ValueError)
  {
  }

  lemma EveryOtherFloats(n: seq<string>, start: nat, k: nat)
    requires ParseFloats(EveryOther(n, start)).Some? && start + 2 * k < |n|
    ensures ParseFloat(n[start + 2 * k]).Some?
  {
    var es := EveryOther(n, start);
    MapAllAt(es, ParseFloat);
    assert es[k] == n[start + 2 * k];
  }

  lemma MachineOkShape(n: seq<string>, line: string)
    requires n == SplitWs(line) && ParseMachine(line).Ok?
    ensures |n| == 20 && IntTokens(n, 0, 9) && FloatTokens(n, 9, 20)
  {
    var mags, phases := EveryOther(n, 12), EveryOther(n, 13);
    ParseParts(line, false);
    assert PolarMatrix(mags, phases).Ok?;
    assert ParseFloats(mags).Some? && ParseFloats(phases).Some?;
    PolarMatrixOk(mags, phases);
    assert |n| == 20;
    SliceFloats(n, 9, 12);
    InterleavedFloats(n);
  }

  lemma InterleavedFloats(n: seq<string>)
    requires |n| == 20
    requires ParseFloats(EveryOther(n, 12)).Some? && ParseFloats(EveryOther(n, 13)).Some?
    ensures FloatTokens(n, 12, 20)
  {
    EveryOtherFloats(n, 12, 0);
    EveryOtherFloats(n, 12, 1);
    EveryOtherFloats(n, 12, 2);
    EveryOtherFloats(n, 12, 3);
    EveryOtherFloats(n, 13, 0);
    EveryOtherFloats(n, 13, 1);
    EveryOtherFloats(n, 13, 2);
    EveryOtherFloats(n, 13, 3);
    forall i | 12 <= i < 20 ensures ParseFloat(n[i]).Some? {
      assert i in {12, 13, 14, 15, 16, 17, 18, 19};
    }
  }

  lemma MachineShapeIsOk(n: seq<string>, line: string)
    requires n == SplitWs(line)
    requires |n| == 20 && IntTokens(n, 0, 9) && FloatTokens(n, 9, 20)
    ensures ParseMachine(line).Ok?
  {
    var mags, phases := EveryOther(n, 12), EveryOther(n, 13);
    assert ParseRotation(n).Ok?;
    SliceFloats(n, 9, 12);
    assert ParseTranslation(n).Ok?;
    InterleavedTokens(n);
    PolarMatrixOk(mags, phases);
  }

  lemma InterleavedTokens(n: seq<string>)
    requires |n| == 20 && FloatTokens(n, 12, 20)
    ensures var mags, phases := EveryOther(n, 12), EveryOther(n, 13);
      |mags| == 4 && |phases| == 4
      && (forall k :: 0 <= k < 4 ==> ParseFloat(mags[k]).Some?)
      && (forall k :: 0 <= k < 4 ==> ParseFloat(phases[k]).Some?)
  {
    var mags, phases := EveryOther(n, 12), EveryOther(n, 13);
    forall k | 0 <= k < 4 ensures ParseFloat(mags[k]).Some? && ParseFloat(phases[k]).Some? {
      assert mags[k] == n[12 + 2 * k] && phases[k] == n[13 + 2 * k];
    }
  }

  lemma MachineShapeOk(n: seq<string>, line: string)
    requires n == SplitWs(line)
    requires |n| == 20 && IntTokens(n, 0, 9) && FloatTokens(n, 9, 20)
    ensures ParseMachine(line).Ok?
    ensures var op := ParseMachine(line).value;
        && |op.R| == 9 && |op.t| == 3 && |op.S| == 4
        && (forall i :: 0 <= i < 9 ==> ParseInt(n[i]) == Some(op.R[i]))
        && (forall i :: 0 <= i < 3 ==> op.t[i] == ParseFloat(n[9 + i]).value)
        && (forall k :: 0 <= k < 4 ==>
              op.S[k] == Exp(ParseFloat(n[12 + 2 * k]).value, ParseFloat(n[13 + 2 * k]).value))
  {
    MachineShapeIsOk(n, line);
    var mags, phases := EveryOther(n, 12), EveryOther(n, 13);
    var ts := Slice(n, 9, 12);
    ParseParts(line, false);
    var op := ParseMachine(line).value;
    assert forall i :: 0 <= i < 3 ==> ts[i] == n[9 + i];
    assert op.S == PolarMatrix(mags, phases).value;
    forall k | 0 <= k < 4
      ensures op.S[k] == Exp(ParseFloat(n[12 + 2 * k]).value, ParseFloat(n[13 + 2 * k]).value)
    {
      assert mags[k] == n[12 + 2 * k] && phases[k] == n[13 + 2 * k];
      PolarMatrixEntries(mags, phases, op.S, k);
    }
  }

  /** The machine layout: exactly 20 numbers; R is numbers 0..8 row-major, t
      numbers 9..11, and entry k of S has its modulus at 12+2k and its phase
      (in units of pi) at 13+2k. */
  lemma MachineLayout(line: string)
    ensures var n := SplitWs(line);
      ParseMachine(line).Ok? <==> |n| == 20 && IntTokens(n, 0, 9) && FloatTokens(n, 9, 20)
    ensures var n := SplitWs(line);
      ParseMachine(line).Ok? ==>
        var op := ParseMachine(line).value;
        && |op.R| == 9 && |op.t| == 3 && |op.S| == 4
        && (forall i :: 0 <= i < 9 ==> ParseInt(n[i]) == Some(op.R[i]))
        && (forall i :: 0 <= i < 3 ==> op.t[i] == ParseFloat(n[9 + i]).value)
        && (forall k :: 0 <= k < 4 ==>
              op.S[k] == Exp(ParseFloat(n[12 + 2 * k]).value, ParseFloat(n[13 + 2 * k]).value))
  {
    var n := SplitWs(line);
    if ParseMachine(line).Ok? {
      MachineOkShape(n, line);
    }
    if |n| == 20 && IntTokens(n, 0, 9) && FloatTokens(n, 9, 20) {
      MachineShapeOk(n, line);
    }
  }

  lemma UserOkShape(n: seq<string>, line: string)
    requires n == SplitWs(line) && ParseUser(line).Ok?
    ensures |n| >= 9 && IntTokens(n, 0, 9) && (|n| <= 12 || |n| == 17 || |n| >= 20)
    ensures FloatTokens(n, 9, 20)
  {
    ParseParts(line, true);
    SliceFloats(n, 9, 12);
    if |n| > 12 {
      var ms, ps := Slice(n, 12, 16), Slice(n, 16, 20);
      PolarMatrixOk(ms, ps);
      SliceFloats(n, 12, 16);
      SliceFloats(n, 16, 20);
    }
  }

  lemma UserShapeIsOk(n: seq<string>, line: string)
    requires n == SplitWs(line)
    requires |n| >= 9 && IntTokens(n, 0, 9) && (|n| <= 12 || |n| == 17 || |n| >= 20)
    requires FloatTokens(n, 9, 20)
    ensures ParseUser(line).Ok?
  {
    ParseParts(line, true);
    SliceFloats(n, 9, 12);
    if |n| > 12 {
      var ms, ps := Slice(n, 12, 16), Slice(n, 16, 20);
      SliceFloats(n, 12, 16);
      SliceFloats(n, 16, 20);
      PolarMatrixOk(ms, ps);
    }
  }

  lemma UserParts(n: seq<string>, line: string)
    requires n == SplitWs(line) && ParseUser(line).Ok?
    ensures ParseRotation(n).Ok? && ParseTranslation(n).Ok?
    ensures |n| > 12 ==> PolarMatrix(Slice(n, 12, 16), Slice(n, 16, 20)).Ok?
    ensures ParseUser(line).value == SymopTable(ParseRotation(n).value, ParseTranslation(n).value,
      if |n| > 12 then PolarMatrix(Slice(n, 12, 16), Slice(n, 16, 20)).value else IdentityS)
  {
  }

  /** The number holding phase k of a user-layout line of m numbers: a
      17-number line has one phase for all four entries. */
  function PhaseAt(m: nat, k: nat): nat
  {
    if m == 17 then 16 else 16 + k
  }

  /** Entry k of S is the number n[12 + k] as modulus at the number
      n[PhaseAt(|n|, k)] as phase. */
  predicate UserEntry(n: seq<string>, S: seq<Complex>, k: nat)
  {
    && k < |S| && 12 + k < |n| && PhaseAt(|n|, k) < |n|
    && ParseFloat(n[12 + k]).Some? && ParseFloat(n[PhaseAt(|n|, k)]).Some?
    && S[k] == Exp(ParseFloat(n[12 + k]).value, ParseFloat(n[PhaseAt(|n|, k)]).value)
  }

  /** Entry k of a user-layout S: modulus k from number 12 + k, phase k
      from number 16 + k (or the one phase, number 16, of a 17-number line). */
  lemma UserSpinor(n: seq<string>, S: seq<Complex>, k: nat)
    requires |n| > 12 && PolarMatrix(Slice(n, 12, 16), Slice(n, 16, 20)) == Ok(S) && k < 4
    ensures |n| == 17 || |n| >= 20
    ensures |S| == 4
    ensures UserEntry(n, S, k)
  {
    var ms, ps := Slice(n, 12, 16), Slice(n, 16, 20);
    PolarMatrixOk(ms, ps);
    PolarMatrixEntries(ms, ps, S, k);
    assert ms[k] == n[12 + k];
    if |n| == 17 {
      assert |ps| == 1 && ps[0] == n[16];
    } else {
      assert |ps| == 4 && ps[k] == n[16 + k];
    }
  }

  lemma TranslationValues(n: seq<string>)
    requires |n| >= 9 && ParseTranslation(n).Ok?
    ensures var t := ParseTranslation(n).value;
      && |t| == (if |n| < 12 then |n| - 9 else 3)
      && forall i :: 0 <= i < |t| ==> ParseFloat(n[9 + i]) == Some(t[i])
  {
    var ts := Slice(n, 9, 12);
    assert forall i :: 0 <= i < |ts| ==> ts[i] == n[9 + i];
  }

  lemma UserValues(n: seq<string>, line: string)
    requires n == SplitWs(line) && ParseUser(line).Ok?
    ensures var op := ParseUser(line).value;
        && |op.R| == 9
        && (forall i :: 0 <= i < 9 ==> ParseInt(n[i]) == Some(op.R[i]))
        && |op.t| == (if |n| < 12 then |n| - 9 else 3)
        && (forall i :: 0 <= i < |op.t| ==> ParseFloat(n[9 + i]) == Some(op.t[i]))
        && (|n| <= 12 ==> op.S == IdentityS)
        && (|n| > 12 ==> |n| == 17 || |n| >= 20)
        && (|n| > 12 ==> |op.S| == 4 && forall k :: 0 <= k < 4 ==> UserEntry(n, op.S, k))
  {
    UserParts(n, line);
    var op := ParseUser(line).value;
    UserTableValues(n, op);
  }

  lemma UserTableValues(n: seq<string>, op: SymopTable)
    requires ParseRotation(n) == Ok(op.R) && ParseTranslation(n) == Ok(op.t)
    requires |n| > 12 ==> PolarMatrix(Slice(n, 12, 16), Slice(n, 16, 20)) == Ok(op.S)
    requires |n| <= 12 ==> op.S == IdentityS
    ensures && |op.R| == 9
        && (forall i :: 0 <= i < 9 ==> ParseInt(n[i]) == Some(op.R[i]))
        && |op.t| == (if |n| < 12 then |n| - 9 else 3)
        && (forall i :: 0 <= i < |op.t| ==> ParseFloat(n[9 + i]) == Some(op.t[i]))
        && (|n| <= 12 ==> op.S == IdentityS)
        && (|n| > 12 ==> |n| == 17 || |n| >= 20)
        && (|n| > 12 ==> |op.S| == 4 && forall k :: 0 <= k < 4 ==> UserEntry(n, op.S, k))
  {
    TranslationValues(n);
    if |n| > 12 {
      UserSpinor(n, op.S, 0);
      forall k | 0 <= k < 4 ensures UserEntry(n, op.S, k) {
        UserSpinor(n, op.S, k);
      }
    }
  }

  /** The user layout: R and t as in the machine layout; with more than 12
      numbers S takes its moduli from numbers 12..15 and its phases from
      16..19 (a line of exactly 17 numbers broadcasts its one phase to all
      four entries), otherwise S is the identity. */
  lemma UserLayout(line: string)
    ensures var n := SplitWs(line);
      ParseUser(line).Ok? <==>
        && |n| >= 9 && IntTokens(n, 0, 9) && FloatTokens(n, 9, 20)
        && (|n| <= 12 || |n| == 17 || |n| >= 20)
    ensures var n := SplitWs(line);
      ParseUser(line).Ok? ==>
        var op := ParseUser(line).value;
        && |op.R| == 9
        && (forall i :: 0 <= i < 9 ==> ParseInt(n[i]) == Some(op.R[i]))
        && |op.t| == (if |n| < 12 then |n| - 9 else 3)
        && (forall i :: 0 <= i < |op.t| ==> ParseFloat(n[9 + i]) == Some(op.t[i]))
        && (|n| <= 12 ==> op.S == IdentityS)
        && (|n| > 12 ==> |n| == 17 || |n| >= 20)
        && (|n| > 12 ==> |op.S| == 4 && forall k :: 0 <= k < 4 ==> UserEntry(n, op.S, k))
  {
    var n := SplitWs(line);
    if ParseUser(line).Ok? {
      UserOkShape(n, line);
      UserValues(n, line);
    }
    if |n| >= 9 && IntTokens(n, 0, 9) && FloatTokens(n, 9, 20) && (|n| <= 12 || |n| == 17 || |n| >= 20) {
      UserShapeIsOk(n, line);
    }
  }

  lemma RowTokens(R: seq<int>, i: nat)
    requires |R| == 9 && i < 3
    ensures SplitWs(RowText(R, i)) == RotationTexts(R)[3 * i..3 * i + 3]
  {
    SplitWsJoin(RotationTexts(R)[3 * i..3 * i + 3], " ");
  }

  /** A sequence of nine is its three thirds in turn. */
  lemma Thirds<T>(s: seq<T>)
    requires |s| == 9
    ensures s[0..3] + (s[3..6] + s[6..9]) == s
  {
  }

  lemma RotationTokens(R: seq<int>)
    requires |R| == 9
    ensures SplitWs(Join([RowText(R, 0), RowText(R, 1), RowText(R, 2)], "   ")) == RotationTexts(R)
  {
    SplitWsJoin3(RowText(R, 0), RowText(R, 1), RowText(R, 2), "   ");
    RowTokens(R, 0);
    RowTokens(R, 1);
    RowTokens(R, 2);
    Thirds(RotationTexts(R));
  }

  lemma SpinorTokens(h: Host, S: seq<Complex>)
    requires PrintsAsTokens(h, AbsAll(h, S)) && PrintsAsTokens(h, AnglePiAll(h, S))
    ensures var ms, ps := Join(FormatAll(h, AbsAll(h, S)), "  "), Join(FormatAll(h, AnglePiAll(h, S)), "  ");
      SplitWs("      " + Join([ms, ps], "    ")) == FormatAll(h, AbsAll(h, S)) + FormatAll(h, AnglePiAll(h, S))
  {
    var ms, ps := Join(FormatAll(h, AbsAll(h, S)), "  "), Join(FormatAll(h, AnglePiAll(h, S)), "  ");
    assert Join([ms, ps], "    ") == ms + "    " + ps;
    assert "      " + Join([ms, ps], "    ") == "" + "      " + (ms + "    " + ps);
    SplitWsSep("", "      ", ms + "    " + ps);
    SplitWsSep(ms, "    ", ps);
    NumberTokens(h, AbsAll(h, S));
    NumberTokens(h, AnglePiAll(h, S));
  }

  /** The spinor part of `str(spinor)`. */
  function SpinorText(op: SymopTable, spinor: bool, h: Host): string
  {
    if spinor then
      "      " + Join([Join(FormatAll(h, AbsAll(h, op.S)), "  "),
                       Join(FormatAll(h, AnglePiAll(h, op.S)), "  ")], "    ")
    else ""
  }

  /** The spinor part is empty or starts with a space, and its tokens are
      the moduli then the phases. */
  lemma SpinorTextTokens(op: SymopTable, spinor: bool, h: Host)
    requires spinor ==> PrintsAsTokens(h, AbsAll(h, op.S)) && PrintsAsTokens(h, AnglePiAll(h, op.S))
    ensures var c := SpinorText(op, spinor, h);
      && (c == [] || IsSpace(c[0]))
      && SplitWs(c) == if spinor then FormatAll(h, AbsAll(h, op.S)) + FormatAll(h, AnglePiAll(h, op.S)) else []
  {
    if spinor {
      SpinorTokens(h, op.S);
    } else {
      SplitWsSpaces(SpinorText(op, spinor, h));
    }
  }

  lemma StrShape(op: SymopTable, spinor: bool, h: Host)
    requires |op.R| == 9
    ensures Str(op, spinor, h) ==
      Join([RowText(op.R, 0), RowText(op.R, 1), RowText(op.R, 2)], "   ")
      + "     " + (Join(FormatAll(h, op.t), " ") + SpinorText(op, spinor, h))
  {
  }

  /** The tokens of `str(spinor)`: R row-major, t, then the moduli and the
      phases of S. */
  lemma StrTokens(op: SymopTable, spinor: bool, h: Host)
    requires |op.R| == 9 && PrintsAsTokens(h, op.t)
    requires spinor ==> PrintsAsTokens(h, AbsAll(h, op.S)) && PrintsAsTokens(h, AnglePiAll(h, op.S))
    ensures SplitWs(Str(op, spinor, h)) ==
      RotationTexts(op.R) + (FormatAll(h, op.t)
      + (if spinor then FormatAll(h, AbsAll(h, op.S)) + FormatAll(h, AnglePiAll(h, op.S)) else []))
  {
    var a := Join([RowText(op.R, 0), RowText(op.R, 1), RowText(op.R, 2)], "   ");
    var b := Join(FormatAll(h, op.t), " ");
    var c := SpinorText(op, spinor, h);
    RotationTokens(op.R);
    NumberTokens(h, op.t);
    SpinorTextTokens(op, spinor, h);
    SplitWsSpaced(a, "     ", b, c);
    StrShape(op, spinor, h);
  }

  lemma UserReadsTokens(line: string, R: seq<int>, t: seq<real>, spinor: bool, ms: seq<real>, ps: seq<real>)
    requires var n := SplitWs(line);
      && |n| == (if spinor then 20 else 12) && |R| == 9 && |t| == 3
      && (forall i :: 0 <= i < 9 ==> ParseInt(n[i]) == Some(R[i]))
      && (forall i :: 0 <= i < 3 ==> ParseFloat(n[9 + i]) == Some(t[i]))
      && (!spinor ==> ms == [] && ps == [])
      && (spinor ==> |ms| == 4 && |ps| == 4
                     && (forall k :: 0 <= k < 4 ==> ParseFloat(n[12 + k]) == Some(ms[k]))
                     && (forall k :: 0 <= k < 4 ==> ParseFloat(n[16 + k]) == Some(ps[k])))
    ensures ParseUser(line) == Ok(SymopTable(R, t, if spinor then Polar(ms, ps) else IdentityS))
  {
    var n := SplitWs(line);
    forall i | 9 <= i < 20 && i < |n| ensures ParseFloat(n[i]).Some? {
      if i < 12 {
        assert ParseFloat(n[9 + (i - 9)]) == Some(t[i - 9]);
      } else if i < 16 {
        assert ParseFloat(n[12 + (i - 12)]) == Some(ms[i - 12]);
      } else {
        assert ParseFloat(n[16 + (i - 16)]) == Some(ps[i - 16]);
      }
    }
    assert FloatTokens(n, 9, 20);
    UserLayout(line);
    var back := ParseUser(line).value;
    assert back.R == R;
    assert back.t == t;
    if spinor {
      forall k | 0 <= k < 4 ensures back.S[k] == Polar(ms, ps)[k] {
        assert UserEntry(n, back.S, k);
      }
      assert back.S == Polar(ms, ps);
    }
  }

  lemma StrRotationValues(op: SymopTable, spinor: bool, h: Host, n: seq<string>)
    requires |op.R| == 9 && |n| >= 9 && n[..9] == RotationTexts(op.R)
    ensures forall i :: 0 <= i < 9 ==> ParseInt(n[i]) == Some(op.R[i])
  {
    forall i | 0 <= i < 9 ensures ParseInt(n[i]) == Some(op.R[i]) {
      assert n[i] == n[..9][i];
      ParseIntIntToStr(op.R[i]);
    }
  }

  /** The parts of a three-part concatenation, cut out again. */
  lemma ThreeParts<T>(a: seq<T>, b: seq<T>, c: seq<T>)
    ensures (a + (b + c))[..|a|] == a
    ensures (a + (b + c))[|a|..|a| + |b|] == b
  {
  }

  /** Reading back what `str(spinor)` wrote, in the user layout: R exactly,
      t and the moduli and phases of S as `float` reads their printed form;
      without `spinor` S becomes the identity. */
  lemma UserReadsStr(op: SymopTable, spinor: bool, h: Host)
    requires |op.R| == 9 && |op.t| == 3 && PrintsAsTokens(h, op.t)
    requires spinor ==> |op.S| == 4 && PrintsAsTokens(h, AbsAll(h, op.S)) && PrintsAsTokens(h, AnglePiAll(h, op.S))
    ensures ParseUser(Str(op, spinor, h)) == Ok(SymopTable(op.R, RereadAll(h, op.t),
      if spinor then Polar(RereadAll(h, AbsAll(h, op.S)), RereadAll(h, AnglePiAll(h, op.S))) else IdentityS))
  {
    if spinor {
      UserReadsStrSpinor(op, h);
    } else {
      UserReadsStrPlain(op, h);
    }
  }

  lemma UserReadsStrPlain(op: SymopTable, h: Host)
    requires |op.R| == 9 && |op.t| == 3 && PrintsAsTokens(h, op.t)
    ensures ParseUser(Str(op, false, h)) == Ok(SymopTable(op.R, RereadAll(h, op.t), IdentityS))
  {
    var line := Str(op, false, h);
    StrTokens(op, false, h);
    var n := SplitWs(line);
    var rt, ft := RotationTexts(op.R), FormatAll(h, op.t);
    ThreeParts(rt, ft, []);
    StrRotationValues(op, false, h, n);
    StrNumberValues(h, op.t, n, 9);
    UserReadsTokens(line, op.R, RereadAll(h, op.t), false, [], []);
  }

  lemma UserReadsStrSpinor(op: SymopTable, h: Host)
    requires |op.R| == 9 && |op.t| == 3 && PrintsAsTokens(h, op.t)
    requires |op.S| == 4 && PrintsAsTokens(h, AbsAll(h, op.S)) && PrintsAsTokens(h, AnglePiAll(h, op.S))
    ensures ParseUser(Str(op, true, h)) == Ok(SymopTable(op.R, RereadAll(h, op.t),
      Polar(RereadAll(h, AbsAll(h, op.S)), RereadAll(h, AnglePiAll(h, op.S)))))
  {
    StrTokens(op, true, h);
    UserReadsSpinorLine(Str(op, true, h), op, h);
  }

  /** UserReadsStrSpinor on any line with the tokens `str(True)` prints. */
  lemma UserReadsSpinorLine(line: string, op: SymopTable, h: Host)
    requires |op.R| == 9 && |op.t| == 3 && PrintsAsTokens(h, op.t)
    requires |op.S| == 4 && PrintsAsTokens(h, AbsAll(h, op.S)) && PrintsAsTokens(h, AnglePiAll(h, op.S))
    requires SplitWs(line) == RotationTexts(op.R) + (FormatAll(h, op.t)
      + (FormatAll(h, AbsAll(h, op.S)) + FormatAll(h, AnglePiAll(h, op.S))))
    ensures ParseUser(line) == Ok(SymopTable(op.R, RereadAll(h, op.t),
      Polar(RereadAll(h, AbsAll(h, op.S)), RereadAll(h, AnglePiAll(h, op.S)))))
  {
    var n := SplitWs(line);
    var rt, ft := RotationTexts(op.R), FormatAll(h, op.t);
    var mt, pt := FormatAll(h, AbsAll(h, op.S)), FormatAll(h, AnglePiAll(h, op.S));
    ThreeParts(rt, ft, mt + pt);
    Associative(rt, ft, mt + pt);
    ThreeParts(rt + ft, mt, pt);
    StrRotationValues(op, true, h, n);
    StrNumberValues(h, op.t, n, 9);
    StrNumberValues(h, AbsAll(h, op.S), n, 12);
    StrNumberValues(h, AnglePiAll(h, op.S), n, 16);
    UserReadsTokens(line, op.R, RereadAll(h, op.t), true, RereadAll(h, AbsAll(h, op.S)), RereadAll(h, AnglePiAll(h, op.S)));
  }

  /** With a formatter that `float` reads back exactly, the user parser
      recovers R and t unchanged from `str`. */
  lemma UserReadsStrExactly(op: SymopTable, spinor: bool, h: Host)
    requires |op.R| == 9 && |op.t| == 3 && PrintsAsTokens(h, op.t)
    requires spinor ==> |op.S| == 4 && PrintsAsTokens(h, AbsAll(h, op.S)) && PrintsAsTokens(h, AnglePiAll(h, op.S))
    requires forall i :: 0 <= i < 3 ==> ParseFloat(h.formatNumber(op.t[i])) == Some(op.t[i])
    ensures ParseUser(Str(op, spinor, h)).Ok?
    ensures ParseUser(Str(op, spinor, h)).value.R == op.R
    ensures ParseUser(Str(op, spinor, h)).value.t == op.t
  {
    UserReadsStr(op, spinor, h);
  }
}
