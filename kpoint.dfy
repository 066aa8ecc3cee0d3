/** `KPoint`: a maximal k-point, its label, its direct coordinates and the
    indices of the symmetries of its little co-group, read from and written
    as the line `kpoint name : k1 k2 k3 : i1 i2 ...`. */
module KPoints {
  import opened Wrappers
  import opened Text
  import opened Numbers
  import opened Foreign
  import opened Sorting

  datatype KPoint = KPoint(name: string, k: seq<real>, isym: seq<int>)

  /** `KPoint(line=line)`: the fields between colons are the head (the word
      `kpoint` and the name), the coordinates and the symmetry indices;
      any further fields are ignored. */
  function Parse(line: string, h: Host): (r: Result<KPoint>)
    ensures var fields := SplitOn(line, ':'); var head := SplitWs(fields[0]);
      r.Ok? <==>
        && |head| >= 2 && head[0] == "kpoint" && |fields| >= 3
        && ParseFloats(SplitWs(fields[1])).Some? && h.parseIntList(fields[2]).Some?
    ensures var fields := SplitOn(line, ':'); var head := SplitWs(fields[0]);
      r.Ok? ==> r.value == KPoint(head[1], ParseFloats(SplitWs(fields[1])).value, h.parseIntList(fields[2]).value)
    ensures var head := SplitWs(SplitOn(line, ':')[0]);
      |head| > 0 && head[0] != "kpoint" ==> r == Err(ValueError)
  {
    var fields := SplitOn(line, ':');
    var head := SplitWs(fields[0]);
    if |head| == 0 then Err(IndexError)
    else if head[0] != "kpoint" then Err(ValueError)
    else if |head| < 2 || |fields| < 2 then Err(IndexError)
    else
      match ParseFloats(SplitWs(fields[1]))
      case None => Err(ValueError)
      case Some(k) =>
        if |fields| < 3 then Err(IndexError)
        else
          match h.parseIntList(fields[2])
          case None => Err(HelperError)
          case Some(isym) => Ok(KPoint(head[1], k, isym))
  }

  /** `str(x)` of each coordinate. */
  function CoordTexts(h: Host, k: seq<real>): (r: seq<string>)
    ensures |r| == |k| && forall i :: 0 <= i < |k| ==> r[i] == h.strFloat(k[i])
  {
    seq(|k|, i requires 0 <= i < |k| => h.strFloat(k[i]))
  }

  /** `str(i)` of each index. */
  function IndexTexts(xs: seq<int>): (r: seq<string>)
    ensures |r| == |xs| && forall i :: 0 <= i < |xs| ==> r[i] == IntToStr(xs[i])
  {
    seq(|xs|, i requires 0 <= i < |xs| => IntToStr(xs[i]))
  }

  /** `KPoint.str()`: name, coordinates, then the indices in ascending order. */
  function Str(kp: KPoint, h: Host): string
  {
    kp.name + " : " + Join(CoordTexts(h, kp.k), " ") + "  : " + Join(IndexTexts(Sort(kp.isym)), " ")
  }

  /** Sum of the squared differences of broadcast pairs: the square of
      `np.linalg.norm(a - b)`. */
  function SqDist(pairs: seq<(real, real)>): (r: real)
    ensures r >= 0.0
  {
    if |pairs| == 0 then 0.0
    else (pairs[0].0 - pairs[0].1) * (pairs[0].0 - pairs[0].1) + SqDist(pairs[1..])
  }

  /** `KPoint.__eq__`: names first, then the distance of the coordinates
      (`norm > 1e-8`, that is squared norm above 1e-16; coordinates of
      lengths numpy cannot broadcast raise a ValueError), then the indices. */
  function Equals(a: KPoint, b: KPoint): (r: Result<bool>)
    ensures r.Err? <==> a.name == b.name && Broadcast(a.k, b.k).None?
    ensures r.Err? ==> r.error == ValueError
    ensures r == Ok(true) <==>
      && a.name == b.name && Broadcast(a.k, b.k).Some?
      && SqDist(Broadcast(a.k, b.k).value) <= 1.0 / 10000000000000000.0
      && a.isym == b.isym
  {
    if a.name != b.name then Ok(false)
    else
      match Broadcast(a.k, b.k)
      case None => Err(ValueError)
      case Some(pairs) =>
        if SqDist(pairs) > 1.0 / 10000000000000000.0 then Ok(false)
        else if a.isym != b.isym then Ok(false)
        else Ok(true)
  }

  lemma {:induction false} SqDistSelf(pairs: seq<(real, real)>)
    requires forall i :: 0 <= i < |pairs| ==> pairs[i].0 == pairs[i].1
    ensures SqDist(pairs) == 0.0
  {
    if |pairs| > 0 {
      SqDistSelf(pairs[1..]);
    }
  }

  lemma {:induction false} SqDistSwap(pairs: seq<(real, real)>, swapped: seq<(real, real)>)
    requires |swapped| == |pairs|
    requires forall i :: 0 <= i < |pairs| ==> swapped[i] == (pairs[i].1, pairs[i].0)
    ensures SqDist(swapped) == SqDist(pairs)
  {
    if |pairs| > 0 {
      SqDistSwap(pairs[1..], swapped[1..]);
    }
  }

  /** A nonzero difference has a positive square. */
  lemma SquarePositive(d: real)
    ensures d * d >= 0.0
    ensures d != 0.0 ==> d * d > 0.0
  {
    if d > 0.0 {
      assert d * d > 0.0 * d;
    } else if d < 0.0 {
      var e := -d;
      assert e * e > 0.0 * e;
      assert d * d == e * e;
    }
  }

  /** The squared distance is zero exactly when every pair agrees. */
  lemma {:induction false} SqDistZero(pairs: seq<(real, real)>)
    ensures SqDist(pairs) == 0.0 <==> forall i :: 0 <= i < |pairs| ==> pairs[i].0 == pairs[i].1
  {
    if |pairs| > 0 {
      var rest := pairs[1..];
      SqDistZero(rest);
      var d := pairs[0].0 - pairs[0].1;
      SquarePositive(d);
      assert forall i :: 1 <= i < |pairs| ==> pairs[i] == rest[i - 1];
      if d != 0.0 {
        calc {
          SqDist(pairs);
        == d * d + SqDist(rest);
        >= d * d;
        > 0.0;
        }
      } else {
        calc {
          SqDist(pairs);
        == d * d + SqDist(rest);
        == SqDist(rest);
        }
      }
    }
  }

  /** Every k-point equals itself. */
  lemma EqualsReflexive(a: KPoint)
    ensures Equals(a, a) == Ok(true)
  {
    var pairs := Broadcast(a.k, a.k).value;
    SqDistSelf(pairs);
  }

  /** Comparison does not depend on the order of its arguments. */
  lemma EqualsSymmetric(a: KPoint, b: KPoint)
    ensures Equals(a, b) == Equals(b, a)
  {
    if a.name == b.name && Broadcast(a.k, b.k).Some? {
      SqDistSwap(Broadcast(a.k, b.k).value, Broadcast(b.k, a.k).value);
    }
  }

  /** `[int(x) for x in s.split()]`, the plain reading that irreptables keeps
      beside its call of `str2list_space`. */
  ghost predicate ReadsPlainLists(h: Host)
  {
    forall s :: ParseInts(SplitWs(s)).Some? ==> h.parseIntList(s) == ParseInts(SplitWs(s))
  }

  /** What the parser can take back as one coordinate token. */
  predicate PrintsAsCoordinates(h: Host, k: seq<real>)
  {
    forall i :: 0 <= i < |k| ==>
      IsToken(h.strFloat(k[i])) && ':' !in h.strFloat(k[i]) && ParseFloat(h.strFloat(k[i])).Some?
  }

  function RereadCoordinates(h: Host, k: seq<real>): (r: seq<real>)
    requires PrintsAsCoordinates(h, k)
    ensures |r| == |k| && forall i :: 0 <= i < |k| ==> r[i] == ParseFloat(h.strFloat(k[i])).value
  {
    seq(|k|, i requires 0 <= i < |k| => ParseFloat(h.strFloat(k[i])).value)
  }

  lemma {:induction false} JoinAvoids(parts: seq<string>, sep: string, c: char)
    requires forall i :: 0 <= i < |parts| ==> c !in parts[i]
    requires c !in sep
    ensures c !in Join(parts, sep)
  {
    if |parts| > 1 {
      JoinAvoids(parts[1..], sep, c);
    }
  }

  lemma ReadIndices(xs: seq<int>)
    ensures ParseInts(SplitWs(" " + Join(IndexTexts(xs), " "))) == Some(xs)
  {
    var ts := IndexTexts(xs);
    assert " " + Join(ts, " ") == "" + " " + Join(ts, " ");
    SplitWsSep("", " ", Join(ts, " "));
    SplitWsJoin(ts, " ");
    forall i | 0 <= i < |xs| ensures ParseInt(ts[i]) == Some(xs[i]) {
      ParseIntIntToStr(xs[i]);
    }
    MapAllAt(ts, ParseInt);
    assert ParseInts(ts).value == xs;
  }

  /** Printed integers hold no colon. */
  lemma IndexTextsAvoidColon(xs: seq<int>)
    ensures ':' !in Join(IndexTexts(xs), " ")
  {
    forall i | 0 <= i < |xs| ensures ':' !in IndexTexts(xs)[i] {
      var t := IntToStr(xs[i]);
      assert forall j :: 0 <= j < |t| ==> t[j] == '-' || IsDigit(t[j]);
    }
    JoinAvoids(IndexTexts(xs), " ", ':');
  }

  /** The three colon-separated fields of `"kpoint " + str()`. */
  lemma StrFields(kp: KPoint, h: Host)
    requires ':' !in kp.name && PrintsAsCoordinates(h, kp.k)
    ensures SplitOn("kpoint " + Str(kp, h), ':') ==
      ["kpoint " + kp.name + " ", " " + Join(CoordTexts(h, kp.k), " ") + "  ",
       " " + Join(IndexTexts(Sort(kp.isym)), " ")]
  {
    var a := "kpoint " + kp.name + " ";
    var b := " " + Join(CoordTexts(h, kp.k), " ") + "  ";
    var c := " " + Join(IndexTexts(Sort(kp.isym)), " ");
    assert "kpoint " + Str(kp, h) == a + [':'] + (b + [':'] + c);
    JoinAvoids(CoordTexts(h, kp.k), " ", ':');
    IndexTextsAvoidColon(Sort(kp.isym));
    assert ':' !in a && ':' !in b && ':' !in c;
    SplitOnThree(a, b, c, ':');
  }

  lemma HeadTokens(name: string)
    requires IsToken(name)
    ensures SplitWs("kpoint " + name + " ") == ["kpoint", name]
  {
    assert "kpoint " + name + " " == "kpoint" + " " + name + " ";
    SplitWsTwo("kpoint", name);
  }

  lemma PaddedJoinTokens(ts: seq<string>)
    requires forall i :: 0 <= i < |ts| ==> IsToken(ts[i])
    ensures SplitWs(" " + Join(ts, " ") + "  ") == ts
  {
    SplitWsJoin(ts, " ");
    SplitWsSurround(" ", Join(ts, " "), "  ");
  }

  lemma CoordTokens(h: Host, k: seq<real>)
    requires PrintsAsCoordinates(h, k)
    ensures ParseFloats(SplitWs(" " + Join(CoordTexts(h, k), " ") + "  ")) == Some(RereadCoordinates(h, k))
  {
    var ct := CoordTexts(h, k);
    PaddedJoinTokens(ct);
    MapAllAt(ct, ParseFloat);
    assert ParseFloats(ct).value == RereadCoordinates(h, k);
  }

  /** Parsing `"kpoint " + str()` gives back the name, the coordinates as
      `float` reads their printed form, and the indices in ascending order. */
  lemma ParseStr(kp: KPoint, h: Host)
    requires IsToken(kp.name) && ':' !in kp.name
    requires PrintsAsCoordinates(h, kp.k) && ReadsPlainLists(h)
    ensures Parse("kpoint " + Str(kp, h), h) == Ok(KPoint(kp.name, RereadCoordinates(h, kp.k), Sort(kp.isym)))
  {
    StrFields(kp, h);
    HeadTokens(kp.name);
    CoordTokens(h, kp.k);
    ReadIndices(Sort(kp.isym));
  }

  /** With coordinates that print and read back exactly, the round trip
      gives back the k-point itself once its indices are ascending. */
  lemma ParseStrExactly(kp: KPoint, h: Host)
    requires IsToken(kp.name) && ':' !in kp.name
    requires PrintsAsCoordinates(h, kp.k) && ReadsPlainLists(h)
    requires forall i :: 0 <= i < |kp.k| ==> ParseFloat(h.strFloat(kp.k[i])) == Some(kp.k[i])
    requires Ascending(kp.isym)
    ensures Parse("kpoint " + Str(kp, h), h) == Ok(kp)
  {
    ParseStr(kp, h);
    SortAscending(kp.isym);
    assert RereadCoordinates(h, kp.k) == kp.k;
  }
}
