/** `Irrep`: one irreducible representation of the little group of a
    k-point: its label, dimension and the character of each symmetry. This
    module holds the user-table reader `Irrep.__init__user` and `Irrep.str`;
    the legacy reader is in module MachineIrreps. */
module Irreps {
  import opened Wrappers
  import opened Text
  import opened Numbers
  import opened Foreign
  import opened Printing
  import opened Sorting
  import opened Dicts
  import opened CharFunctions
  import opened KPoints

  /** A character: a number, or (in legacy tables with u, v, w dependence)
      a function of the k-point parameters. */
  datatype Character = Value(c: Complex) | Func(f: CharFunction)

  /** The legacy reader stores `int(s[8])`, the user reader a bool. */
  datatype Reality = Flag(n: int) | Real(b: bool)

  /** `characters` is the dict from symmetry index to character, in
      insertion order; `hasuvw` is absent (`None`) on irreps read from a
      user table, which never set that attribute. */
  datatype Irrep = Irrep(
    k: seq<real>, kpname: string, name: string, dim: int, nsym: int,
    reality: Reality, characters: seq<(int, Character)>, hasuvw: Option<bool>)

  /** Threshold of `Irrep.str` on the imaginary parts, 1e-6. */
  const ImagTolerance: real := 1.0 / 1000000.0

  function Reals(xs: seq<real>): (r: seq<Complex>)
    ensures |r| == |xs|
  {
    seq(|xs|, i requires 0 <= i < |xs| => Re(xs[i]))
  }

  function PolarPairs(pairs: seq<(real, real)>): (r: seq<Complex>)
    ensures |r| == |pairs|
  {
    seq(|pairs|, i requires 0 <= i < |pairs| => Exp(pairs[i].0, pairs[i].1))
  }

  /** The array `ch` of `__init__user`: the numbers after the dimension,
      real when there are exactly `nsym` of them, otherwise moduli times
      exp(i*pi*phase), the phases following the moduli and broadcast by
      numpy. */
  function UserCharacters(toks: seq<string>, nsym: nat): Result<seq<Complex>>
    requires |toks| >= 2
  {
    match ParseFloats(Slice(toks, 2, 2 + nsym))
    case None => Err(ValueError)
    case Some(ch) =>
      if |toks| - 2 == nsym then Ok(Reals(ch))
      else
        match ParseFloats(Slice(toks, 2 + nsym, 2 + 2 * nsym))
        case None => Err(ValueError)
        case Some(ph) =>
          match Broadcast(ch, ph)
          case None => Err(ValueError)
          case Some(pairs) => Ok(PolarPairs(pairs))
  }

  /** `Irrep(line=line, k_point=kp)`: label, dimension, then the characters
      of `kp.isym` in order. */
  function ParseUser(line: string, kp: KPoint): Result<Irrep>
  {
    var toks := SplitWs(line);
    if |toks| < 2 then Err(IndexError)
    else
      match ParseInt(toks[1])
      case None => Err(ValueError)
      case Some(dim) =>
        var nsym := |kp.isym|;
        match UserCharacters(toks, nsym)
        case Err(e) => Err(e)
        case Ok(ch) =>
          if |ch| < nsym then Err(IndexError)
          else
            Ok(Irrep(kp.k, kp.name, toks[0], dim, nsym, Real(|toks| - 2 == nsym),
                     FromPairs(seq(nsym, i requires 0 <= i < nsym => (kp.isym[i], Value(ch[i])))), None))
  }

  /** Which counts of numbers after the dimension the user reader accepts:
      exactly `nsym` (real characters), `nsym` + 1 (one phase, broadcast) or
      at least twice `nsym`. */
  predicate UserCountOk(m: int, nsym: nat)
  {
    m == nsym || nsym == 0 || m == nsym + 1 || m >= 2 * nsym
  }

  /** Character i of a user line, read straight from the tokens: the
      i-th number after the dimension, alone when there are exactly `nsym`
      numbers, otherwise with phase number `nsym` + i (or `nsym` itself
      when there is only that one phase). */
  function UserCharacter(toks: seq<string>, nsym: nat, i: nat): Complex
    requires i < nsym && |toks| >= 2 + nsym && UserCountOk(|toks| - 2, nsym)
    requires FloatTokens(toks, 2, 2 + nsym)
    requires |toks| - 2 != nsym ==> FloatTokens(toks, 2 + nsym, 2 + 2 * nsym)
  {
    var m := ParseFloat(toks[2 + i]).value;
    if |toks| - 2 == nsym then Re(m)
    else
      var j := if |toks| - 2 == nsym + 1 then 0 else i;
      Exp(m, ParseFloat(toks[2 + nsym + j]).value)
  }

  /** Which token lists give `nsym` characters. */
  predicate UserShape(toks: seq<string>, nsym: nat)
  {
    && |toks| >= 2 + nsym && UserCountOk(|toks| - 2, nsym)
    && FloatTokens(toks, 2, 2 + nsym)
    && (|toks| - 2 != nsym ==> FloatTokens(toks, 2 + nsym, 2 + 2 * nsym))
  }

  lemma UserCharactersOkReal(toks: seq<string>, nsym: nat)
    requires |toks| - 2 == nsym
    ensures var r := UserCharacters(toks, nsym);
      (r.Ok? && |r.value| >= nsym) <==> UserShape(toks, nsym)
    ensures var r := UserCharacters(toks, nsym);
      r.Ok? && |r.value| >= nsym ==> forall i :: 0 <= i < nsym ==> r.value[i] == UserCharacter(toks, nsym, i)
  {
    var chT := Slice(toks, 2, 2 + nsym);
    SliceFloats(toks, 2, 2 + nsym);
    MapAllAt(chT, ParseFloat);
    var r := UserCharacters(toks, nsym);
    if r.Ok? {
      forall i | 0 <= i < nsym ensures r.value[i] == UserCharacter(toks, nsym, i) {
        assert chT[i] == toks[2 + i];
      }
    }
  }

  lemma BroadcastCount(a: nat, b: nat, m: nat, nsym: nat)
    requires m != nsym
    requires a == (if m < nsym then m else nsym)
    requires b == (if m <= nsym then 0 else if m - nsym < nsym then m - nsym else nsym)
    ensures ((a == b || a == 1 || b == 1) && (if a == 1 then b else a) >= nsym) <==>
      (m >= nsym && UserCountOk(m, nsym))
  {
  }

  lemma UserCharactersShapeComplex(toks: seq<string>, nsym: nat)
    requires |toks| >= 2 && |toks| - 2 != nsym
    ensures var r := UserCharacters(toks, nsym);
      (r.Ok? && |r.value| >= nsym) <==> UserShape(toks, nsym)
  {
    if ParseFloats(Slice(toks, 2, 2 + nsym)).Some? && ParseFloats(Slice(toks, 2 + nsym, 2 + 2 * nsym)).Some? {
      ShapeComplexParsed(toks, nsym);
    } else {
      ShapeComplexUnparsed(toks, nsym);
    }
  }

  /** A modulus or a phase that is not a number: a ValueError. */
  lemma ShapeComplexUnparsed(toks: seq<string>, nsym: nat)
    requires |toks| >= 2 && |toks| - 2 != nsym
    requires ParseFloats(Slice(toks, 2, 2 + nsym)).None? || ParseFloats(Slice(toks, 2 + nsym, 2 + 2 * nsym)).None?
    ensures UserCharacters(toks, nsym) == Err(ValueError) && !UserShape(toks, nsym)
  {
    SliceFloats(toks, 2, 2 + nsym);
    SliceFloats(toks, 2 + nsym, 2 + 2 * nsym);
  }

  /** All moduli and phases are numbers: the counts decide. */
  lemma ShapeComplexParsed(toks: seq<string>, nsym: nat)
    requires |toks| >= 2 && |toks| - 2 != nsym
    requires ParseFloats(Slice(toks, 2, 2 + nsym)).Some? && ParseFloats(Slice(toks, 2 + nsym, 2 + 2 * nsym)).Some?
    ensures var r := UserCharacters(toks, nsym);
      (r.Ok? && |r.value| >= nsym) <==> UserShape(toks, nsym)
  {
    SliceFloats(toks, 2, 2 + nsym);
    SliceFloats(toks, 2 + nsym, 2 + 2 * nsym);
    var ch, ph := ParseFloats(Slice(toks, 2, 2 + nsym)).value, ParseFloats(Slice(toks, 2 + nsym, 2 + 2 * nsym)).value;
    BroadcastLength(ch, ph, |toks| - 2, nsym);
  }

  /** The length test of the complex case, on the parsed moduli and phases. */
  lemma BroadcastLength(ch: seq<real>, ph: seq<real>, m: nat, nsym: nat)
    requires m != nsym
    requires |ch| == (if m < nsym then m else nsym)
    requires |ph| == (if m <= nsym then 0 else if m - nsym < nsym then m - nsym else nsym)
    ensures (Broadcast(ch, ph).Some? && |PolarPairs(Broadcast(ch, ph).value)| >= nsym) <==>
      (m >= nsym && UserCountOk(m, nsym))
  {
    BroadcastCount(|ch|, |ph|, m, nsym);
  }

  /** Entry i of the broadcast polar form. */
  lemma PolarPairsAt(ch: seq<real>, ph: seq<real>, i: nat)
    requires Broadcast(ch, ph).Some? && i < |Broadcast(ch, ph).value|
    ensures PolarPairs(Broadcast(ch, ph).value)[i] == Exp(ch[if |ch| == 1 then 0 else i], ph[if |ph| == 1 then 0 else i])
  {
  }

  lemma UserCharactersValuesComplex(toks: seq<string>, nsym: nat, i: nat)
    requires |toks| >= 2 && |toks| - 2 != nsym && i < nsym
    requires UserCharacters(toks, nsym).Ok? && |UserCharacters(toks, nsym).value| >= nsym
    requires UserShape(toks, nsym)
    ensures UserCharacters(toks, nsym).value[i] == UserCharacter(toks, nsym, i)
  {
    PolarEntry(ParseFloat, toks, nsym, i);
  }

  /** Entry i of the polar form: modulus token 2 + i, phase token
      2 + nsym + i, or 2 + nsym when there is a single phase. */
  lemma PolarEntry<X>(pf: X -> Option<real>, toks: seq<X>, nsym: nat, i: nat)
    requires |toks| >= 2 + nsym && |toks| - 2 != nsym && i < nsym && UserCountOk(|toks| - 2, nsym)
    requires MapAll(Slice(toks, 2, 2 + nsym), pf).Some? && MapAll(Slice(toks, 2 + nsym, 2 + 2 * nsym), pf).Some?
    requires Broadcast(MapAll(Slice(toks, 2, 2 + nsym), pf).value, MapAll(Slice(toks, 2 + nsym, 2 + 2 * nsym), pf).value).Some?
    ensures var j := if |toks| - 2 == nsym + 1 then 0 else i;
      var ch, ph := MapAll(Slice(toks, 2, 2 + nsym), pf).value, MapAll(Slice(toks, 2 + nsym, 2 + 2 * nsym), pf).value;
      && pf(toks[2 + i]).Some? && pf(toks[2 + nsym + j]).Some?
      && PolarPairs(Broadcast(ch, ph).value)[i] == Exp(pf(toks[2 + i]).value, pf(toks[2 + nsym + j]).value)
  {
    var ch, ph := MapAll(Slice(toks, 2, 2 + nsym), pf).value, MapAll(Slice(toks, 2 + nsym, 2 + 2 * nsym), pf).value;
    var j := if |toks| - 2 == nsym + 1 then 0 else i;
    assert |Slice(toks, 2 + nsym, 2 + 2 * nsym)| == (if |toks| - 2 == nsym + 1 then 1 else nsym);
    MapAllSliceIndex(toks, 2, 2 + nsym, pf, i);
    MapAllSliceIndex(toks, 2 + nsym, 2 + 2 * nsym, pf, j);
    PolarPairsAt(ch, ph, i);
    assert (if |ch| == 1 then 0 else i) == i && (if |ph| == 1 then 0 else i) == j;
  }

  lemma UserCharactersOkComplex(toks: seq<string>, nsym: nat)
    requires |toks| >= 2 && |toks| - 2 != nsym
    ensures var r := UserCharacters(toks, nsym);
      (r.Ok? && |r.value| >= nsym) <==> UserShape(toks, nsym)
    ensures var r := UserCharacters(toks, nsym);
      r.Ok? && |r.value| >= nsym ==> forall i :: 0 <= i < nsym ==> r.value[i] == UserCharacter(toks, nsym, i)
  {
    UserCharactersShapeComplex(toks, nsym);
    var r := UserCharacters(toks, nsym);
    if r.Ok? && |r.value| >= nsym {
      forall i | 0 <= i < nsym ensures r.value[i] == UserCharacter(toks, nsym, i) {
        UserCharactersValuesComplex(toks, nsym, i);
      }
    }
  }

  lemma UserCharactersOk(toks: seq<string>, nsym: nat)
    requires |toks| >= 2
    ensures var r := UserCharacters(toks, nsym);
      (r.Ok? && |r.value| >= nsym) <==> UserShape(toks, nsym)
    ensures var r := UserCharacters(toks, nsym);
      r.Ok? && |r.value| >= nsym ==> forall i :: 0 <= i < nsym ==> r.value[i] == UserCharacter(toks, nsym, i)
  {
    if |toks| - 2 == nsym {
      UserCharactersOkReal(toks, nsym);
    } else {
      UserCharactersOkComplex(toks, nsym);
    }
  }

  /** The user layout: which lines parse, and what each character is. */
  lemma UserLayout(line: string, kp: KPoint)
    ensures var toks := SplitWs(line); var nsym := |kp.isym|;
      ParseUser(line, kp).Ok? <==> |toks| >= 2 && ParseInt(toks[1]).Some? && UserShape(toks, nsym)
    ensures var toks := SplitWs(line); var nsym := |kp.isym|;
      ParseUser(line, kp).Ok? ==>
        ParseUser(line, kp).value == Irrep(kp.k, kp.name, toks[0], ParseInt(toks[1]).value, nsym,
          Real(|toks| - 2 == nsym),
          FromPairs(seq(nsym, i requires 0 <= i < nsym && UserShape(toks, nsym) =>
                               (kp.isym[i], Value(UserCharacter(toks, nsym, i))))),
          None)
  {
    var toks := SplitWs(line);
    var nsym := |kp.isym|;
    if |toks| >= 2 {
      UserCharactersOk(toks, nsym);
      if ParseUser(line, kp).Ok? {
        var ch := UserCharacters(toks, nsym).value;
        assert seq(nsym, i requires 0 <= i < nsym => (kp.isym[i], Value(ch[i]))) ==
               seq(nsym, i requires 0 <= i < nsym && UserShape(toks, nsym) =>
                         (kp.isym[i], Value(UserCharacter(toks, nsym, i))));
      }
    }
  }

  /** The characters are keyed by `kp.isym`: distinct keys, exactly those
      listed, and when the listed indices are distinct, one per index in
      the listed order, so `nsym` of them. */
  lemma UserKeys(line: string, kp: KPoint)
    requires ParseUser(line, kp).Ok?
    ensures var d := ParseUser(line, kp).value.characters;
      && DistinctKeys(d)
      && (forall x :: x in Keys(d) <==> x in kp.isym)
      && (Distinct(kp.isym) ==> Keys(d) == kp.isym && |d| == ParseUser(line, kp).value.nsym)
  {
    var toks := SplitWs(line);
    var nsym := |kp.isym|;
    var ch := UserCharacters(toks, nsym).value;
    var pairs := seq(nsym, i requires 0 <= i < nsym => (kp.isym[i], Value(ch[i])));
    assert Keys(pairs) == kp.isym;
    FromPairsKeys(pairs);
    if Distinct(kp.isym) {
      FromPairsDistinct(pairs);
    }
  }

  // ---- Irrep.str ----

  /** `[characters[i] for i in sorted(characters)]`. */
  function SortedCharacters(d: seq<(int, Character)>): (r: seq<Character>)
    ensures |r| == |d| && |Sort(Keys(d))| == |d|
    ensures forall i :: 0 <= i < |r| ==> Sort(Keys(d))[i] in Keys(d) && r[i] == Get(d, Sort(Keys(d))[i])
  {
    var keys := Sort(Keys(d));
    SortMembers(Keys(d));
    seq(|keys|, i requires 0 <= i < |keys| => Get(d, keys[i]))
  }

  predicate AllValues(cs: seq<Character>)
  {
    forall i :: 0 <= i < |cs| ==> cs[i].Value?
  }

  function NumberValues(cs: seq<Character>): (r: seq<Complex>)
    requires AllValues(cs)
    ensures |r| == |cs|
  {
    seq(|cs|, i requires 0 <= i < |cs| => cs[i].c)
  }

  function AbsImag(h: Host, c: Complex): real
  {
    var y := h.imagOf(c);
    if y < 0.0 then -y else y
  }

  /** `np.abs(np.imag(cs)).max()`. */
  function MaxAbsImag(h: Host, cs: seq<Complex>): real
    requires |cs| > 0
  {
    if |cs| == 1 then AbsImag(h, cs[0])
    else
      var m := MaxAbsImag(h, cs[1..]);
      if AbsImag(h, cs[0]) > m then AbsImag(h, cs[0]) else m
  }

  /** The maximum exceeds a bound exactly when some entry does. */
  lemma {:induction false} MaxAbsImagAbove(h: Host, cs: seq<Complex>, bound: real)
    requires |cs| > 0
    ensures MaxAbsImag(h, cs) > bound <==> exists i :: 0 <= i < |cs| && AbsImag(h, cs[i]) > bound
  {
    if |cs| > 1 {
      MaxAbsImagAbove(h, cs[1..], bound);
      if exists i :: 0 <= i < |cs| && AbsImag(h, cs[i]) > bound {
        var i :| 0 <= i < |cs| && AbsImag(h, cs[i]) > bound;
        if i > 0 {
          assert AbsImag(h, cs[1..][i - 1]) > bound;
        }
      }
      if exists i :: 0 <= i < |cs[1..]| && AbsImag(h, cs[1..][i]) > bound {
        var i :| 0 <= i < |cs[1..]| && AbsImag(h, cs[1..][i]) > bound;
        assert AbsImag(h, cs[i + 1]) > bound;
      }
    }
  }

  /** The text after the dimension: moduli then phases (in units of pi)
      when some imaginary part exceeds 1e-6, the real parts otherwise. */
  function CharacterText(h: Host, cs: seq<Complex>): string
    requires |cs| > 0
  {
    if MaxAbsImag(h, cs) > ImagTolerance then
      "   " + Join(FormatAll(h, AbsAll(h, cs)), "  ") + "   " + Join(FormatAll(h, AnglePiAll(h, cs)), "  ")
    else "   " + Join(FormatAll(h, RealAll(h, cs)), "  ")
  }

  /** `Irrep.str()`. No characters make `max` fail (ValueError); characters
      that are functions of u, v, w are not numbers for numpy and `str_`
      (taken as a TypeError). */
  function Str(irr: Irrep, h: Host): (r: Result<string>)
    ensures r.Err? <==> |irr.characters| == 0 || !AllValues(SortedCharacters(irr.characters))
    ensures r.Err? ==> r.error == (if |irr.characters| == 0 then ValueError else TypeError)
  {
    var cs := SortedCharacters(irr.characters);
    if |cs| == 0 then Err(ValueError)
    else if !AllValues(cs) then Err(TypeError)
    else Ok(irr.name + " " + IntToStr(irr.dim) + " " + CharacterText(h, NumberValues(cs)))
  }

  /** The characters `Irrep.str` prints in polar form, or as real parts. */
  predicate PrintsComplex(h: Host, cs: seq<Complex>)
    requires |cs| > 0
  {
    MaxAbsImag(h, cs) > ImagTolerance
  }

  /** Every number `Irrep.str` prints is one token that `float` reads back. */
  predicate PrintsCharacters(h: Host, cs: seq<Complex>)
    requires |cs| > 0
  {
    if PrintsComplex(h, cs) then PrintsAsTokens(h, AbsAll(h, cs)) && PrintsAsTokens(h, AnglePiAll(h, cs))
    else PrintsAsTokens(h, RealAll(h, cs))
  }

  /** The characters that reading the printed text gives back: modulus
      times exp(i*pi*phase), or the real part alone. */
  function Reprinted(h: Host, cs: seq<Complex>): (r: seq<Complex>)
    requires |cs| > 0 && PrintsCharacters(h, cs)
    ensures |r| == |cs|
  {
    if PrintsComplex(h, cs) then Polar(RereadAll(h, AbsAll(h, cs)), RereadAll(h, AnglePiAll(h, cs)))
    else Reals(RereadAll(h, RealAll(h, cs)))
  }

  /** The printed tokens of the characters: all moduli then all phases, or
      the real parts. */
  lemma CharacterTokens(h: Host, cs: seq<Complex>)
    requires |cs| > 0 && PrintsCharacters(h, cs)
    ensures SplitWs(CharacterText(h, cs)) ==
      if PrintsComplex(h, cs) then FormatAll(h, AbsAll(h, cs)) + FormatAll(h, AnglePiAll(h, cs))
      else FormatAll(h, RealAll(h, cs))
  {
    if PrintsComplex(h, cs) {
      var a, b := Join(FormatAll(h, AbsAll(h, cs)), "  "), Join(FormatAll(h, AnglePiAll(h, cs)), "  ");
      assert CharacterText(h, cs) == "" + "   " + (a + "   " + b);
      SplitWsSep("", "   ", a + "   " + b);
      SplitWsSep(a, "   ", b);
      NumberTokens(h, AbsAll(h, cs));
      NumberTokens(h, AnglePiAll(h, cs));
    } else {
      var a := Join(FormatAll(h, RealAll(h, cs)), "  ");
      assert CharacterText(h, cs) == "" + "   " + a;
      SplitWsSep("", "   ", a);
      NumberTokens(h, RealAll(h, cs));
    }
  }

  /** The tokens of `Irrep.str()`: label, dimension, then the characters. */
  lemma StrTokens(irr: Irrep, h: Host)
    requires Str(irr, h).Ok? && IsToken(irr.name)
    requires PrintsCharacters(h, NumberValues(SortedCharacters(irr.characters)))
    ensures var cs := NumberValues(SortedCharacters(irr.characters));
      SplitWs(Str(irr, h).value) == [irr.name, IntToStr(irr.dim)] + SplitWs(CharacterText(h, cs))
  {
    var cs := NumberValues(SortedCharacters(irr.characters));
    var d, c := IntToStr(irr.dim), CharacterText(h, cs);
    assert Str(irr, h).value == irr.name + " " + (d + " " + c);
    SplitWsLead(irr.name, d, c);
  }

  /** Character i as the user reader reads it from the printed tokens. */
  lemma ReadsCharacter(toks: seq<string>, h: Host, cs: seq<Complex>, i: nat)
    requires |cs| > 0 && PrintsCharacters(h, cs) && i < |cs|
    requires |toks| >= 2 && toks[2..] == SplitWs(CharacterText(h, cs))
    ensures UserShape(toks, |cs|)
    ensures UserCharacter(toks, |cs|, i) == Reprinted(h, cs)[i]
  {
    CharacterTokens(h, cs);
    var n := |cs|;
    var nums := toks[2..];
    if PrintsComplex(h, cs) {
      var ms, ps := AbsAll(h, cs), AnglePiAll(h, cs);
      assert nums[..n] == FormatAll(h, ms) && nums[n..] == FormatAll(h, ps);
      StrNumberValues(h, ms, toks, 2);
      StrNumberValues(h, ps, toks, 2 + n);
      var j := if |toks| - 2 == n + 1 then 0 else i;
      assert j == i;
    } else {
      StrNumberValues(h, RealAll(h, cs), toks, 2);
    }
  }

  /** A user line of the right shape whose characters are `vals`. */
  lemma ReadsValues(line: string, kp: KPoint, vals: seq<Complex>)
    requires var toks := SplitWs(line);
      |toks| >= 2 && ParseInt(toks[1]).Some? && UserShape(toks, |kp.isym|) && |vals| == |kp.isym|
    requires var toks := SplitWs(line);
      forall i :: 0 <= i < |vals| ==> UserCharacter(toks, |kp.isym|, i) == vals[i]
    ensures var toks := SplitWs(line); var n := |kp.isym|;
      ParseUser(line, kp) ==
        Ok(Irrep(kp.k, kp.name, toks[0], ParseInt(toks[1]).value, n, Real(|toks| - 2 == n),
                 FromPairs(seq(n, i requires 0 <= i < n => (kp.isym[i], Value(vals[i])))), None))
  {
    var toks := SplitWs(line);
    var n := |kp.isym|;
    UserLayout(line, kp);
    assert seq(n, i requires 0 <= i < n && UserShape(toks, n) => (kp.isym[i], Value(UserCharacter(toks, n, i))))
        == seq(n, i requires 0 <= i < n => (kp.isym[i], Value(vals[i])));
  }

  /** A line with a label, a dimension and printed characters reads as
      those characters, in the order of `kp.isym`. */
  lemma ReadsPrinted(line: string, kp: KPoint, h: Host, cs: seq<Complex>, name: string, dim: int)
    requires |cs| > 0 && PrintsCharacters(h, cs) && |kp.isym| == |cs|
    requires SplitWs(line) == [name, IntToStr(dim)] + SplitWs(CharacterText(h, cs))
    ensures var n := |cs|;
      ParseUser(line, kp) ==
        Ok(Irrep(kp.k, kp.name, name, dim, n, Real(!PrintsComplex(h, cs)),
                 FromPairs(seq(n, i requires 0 <= i < n => (kp.isym[i], Value(Reprinted(h, cs)[i])))), None))
  {
    var n := |cs|;
    var toks := SplitWs(line);
    CharacterTokens(h, cs);
    ParseIntIntToStr(dim);
    assert toks[2..] == SplitWs(CharacterText(h, cs));
    forall i | 0 <= i < n ensures UserShape(toks, n) && UserCharacter(toks, n, i) == Reprinted(h, cs)[i] {
      ReadsCharacter(toks, h, cs, i);
    }
    ReadsCharacter(toks, h, cs, 0);
    assert (|toks| - 2 == n) == !PrintsComplex(h, cs);
    ReadsValues(line, kp, Reprinted(h, cs));
  }

  /** Reading back `Irrep.str()` as a line of a user table whose k-point
      lists the symmetries in sorted order gives the label, the dimension
      and, symmetry by symmetry, the characters as printed: polar form when
      some imaginary part exceeds 1e-6, their real parts otherwise. */
  lemma StrReadsBack(irr: Irrep, kp: KPoint, h: Host)
    requires Str(irr, h).Ok? && IsToken(irr.name)
    requires PrintsCharacters(h, NumberValues(SortedCharacters(irr.characters)))
    requires kp.isym == Sort(Keys(irr.characters))
    ensures var cs := NumberValues(SortedCharacters(irr.characters)); var n := |cs|;
      ParseUser(Str(irr, h).value, kp) ==
        Ok(Irrep(kp.k, kp.name, irr.name, irr.dim, n, Real(!PrintsComplex(h, cs)),
                 FromPairs(seq(n, i requires 0 <= i < n => (kp.isym[i], Value(Reprinted(h, cs)[i])))), None))
  {
    var cs := NumberValues(SortedCharacters(irr.characters));
    StrTokens(irr, h);
    ReadsPrinted(Str(irr, h).value, kp, h, cs, irr.name, irr.dim);
  }

  /** With distinct symmetry indices the characters come back keyed in
      sorted order, one per symmetry. */
  lemma StrReadsBackKeys(irr: Irrep, kp: KPoint, h: Host)
    requires Str(irr, h).Ok? && IsToken(irr.name)
    requires PrintsCharacters(h, NumberValues(SortedCharacters(irr.characters)))
    requires kp.isym == Sort(Keys(irr.characters)) && DistinctKeys(irr.characters)
    ensures ParseUser(Str(irr, h).value, kp).Ok?
    ensures Keys(ParseUser(Str(irr, h).value, kp).value.characters) == Sort(Keys(irr.characters))
  {
    StrReadsBack(irr, kp, h);
    SortDistinct(Keys(irr.characters));
    UserKeys(Str(irr, h).value, kp);
  }
}
