/** `IrrepTable.save4user`, the part that decides what is written: which
    k-points get a section (first seen per name, from irreps without
    u,v,w dependence and away from the sentinel coordinates) and which
    irreps follow each k-point. */
module SaveTables {
  import opened Wrappers
  import opened Sorting
  import opened Dicts
  import opened KPoints
  import opened Irreps

  /** The coordinates that mark a k-point as generic (not a fixed point). */
  const Sentinels: seq<real> := [0.123, 0.313, 1.123, 0.877, 0.427, 0.246, 0.687]

  /** `len(set(Sentinels).intersection(list(k))) != 0`. */
  predicate HasSentinel(k: seq<real>)
  {
    exists i | 0 <= i < |k| :: k[i] in Sentinels
  }

  /** `KPoint(irr.kpname, irr.k, set(irr.characters.keys()))`; the set of
      keys is held sorted, which is how it is printed and compared. */
  function KPointOf(irr: Irrep): (kp: KPoint)
    ensures kp.name == irr.kpname && kp.k == irr.k
    ensures Ascending(kp.isym)
    ensures forall x :: x in kp.isym <==> x in Keys(irr.characters)
  {
    SortSpec(Keys(irr.characters));
    SortMembers(Keys(irr.characters));
    KPoint(irr.kpname, irr.k, Sort(Keys(irr.characters)))
  }

  /** An irrep whose k-point is a candidate for a section. */
  predicate Candidate(irr: Irrep)
  {
    irr.hasuvw == Some(false) && !HasSentinel(irr.k)
  }

  /** `kpoints[name]` in the dict of k-points kept so far, in insertion order. */
  function Lookup(kps: seq<KPoint>, name: string): Option<KPoint>
  {
    if |kps| == 0 then None
    else if kps[0].name == name then Some(kps[0])
    else Lookup(kps[1..], name)
  }

  /** The lookup finds a kept k-point of that name exactly when there is
      one, and the first such k-point then. */
  lemma {:induction false} LookupSpec(kps: seq<KPoint>, name: string)
    ensures Lookup(kps, name).None? <==> forall i :: 0 <= i < |kps| ==> kps[i].name != name
    ensures Lookup(kps, name).Some? ==>
      exists i :: 0 <= i < |kps| && kps[i] == Lookup(kps, name).value && kps[i].name == name
        && forall j :: 0 <= j < i ==> kps[j].name != name
  {
    if |kps| > 0 && kps[0].name != name {
      LookupSpec(kps[1..], name);
      if Lookup(kps, name).Some? {
        var i :| 0 <= i < |kps[1..]| && kps[1..][i] == Lookup(kps, name).value && kps[1..][i].name == name
          && forall j :: 0 <= j < i ==> kps[1..][j].name != name;
        assert kps[i + 1] == kps[1..][i];
        forall j | 0 <= j < i + 1 ensures kps[j].name != name {
          if j > 0 {
            assert kps[j] == kps[1..][j - 1];
          }
        }
      }
      if forall i :: 0 <= i < |kps[1..]| ==> kps[1..][i].name != name {
        forall i | 0 <= i < |kps| ensures kps[i].name != name {
          if i > 0 {
            assert kps[i] == kps[1..][i - 1];
          }
        }
      }
    }
  }

  /** The selection loop over the first n irreps: `not irr.hasuvw` fails
      on an irrep built from the user format (it has no `hasuvw`); a
      candidate whose name is new is kept, one whose name is kept already
      must compare equal to the kept one. */
  function Select(irreps: seq<Irrep>, n: nat): Result<seq<KPoint>>
    requires n <= |irreps|
  {
    if n == 0 then Ok([])
    else
      var kps :- Select(irreps, n - 1);
      Visit(kps, irreps[n - 1])
  }

  /** One pass of the selection loop, on the k-points kept so far. */
  function Visit(kps: seq<KPoint>, irr: Irrep): Result<seq<KPoint>>
  {
    match irr.hasuvw
    case None => Err(AttributeError)
    case Some(uvw) =>
      if uvw || HasSentinel(irr.k) then Ok(kps)
      else
        var kp := KPointOf(irr);
        match Lookup(kps, kp.name)
        case None => Ok(kps + [kp])
        case Some(seen) =>
          var same :- KPoints.Equals(seen, kp);
          if same then Ok(kps) else Err(AssertionError)
  }

  /** Once the loop has failed it stays failed. */
  lemma {:induction false} SelectErr(irreps: seq<Irrep>, m: nat, n: nat)
    requires m <= n <= |irreps| && Select(irreps, m).Err?
    ensures Select(irreps, n) == Select(irreps, m)
    decreases n
  {
    if n > m {
      SelectErr(irreps, m, n - 1);
    }
  }

  /** The loop of `save4user` that fills the `kpoints` dict. */
  method SelectKPoints(irreps: seq<Irrep>) returns (res: Result<seq<KPoint>>)
    ensures res == Select(irreps, |irreps|)
  {
    var kpoints: seq<KPoint> := [];
    for n := 0 to |irreps|
      invariant Select(irreps, n) == Ok(kpoints)
    {
      var next := VisitIrrep(kpoints, irreps[n]);
      if next.Err? {
        SelectErr(irreps, n + 1, |irreps|);
        return next;
      }
      kpoints := next.value;
    }
    return Ok(kpoints);
  }

  /** The body of that loop for one irrep. */
  method VisitIrrep(kpoints: seq<KPoint>, irr: Irrep) returns (res: Result<seq<KPoint>>)
    ensures res == Visit(kpoints, irr)
  {
    if irr.hasuvw.None? {
      return Err(AttributeError);
    }
    if !irr.hasuvw.value {
      var kp := KPointOf(irr);
      if !HasSentinel(kp.k) {
        var seen := Lookup(kpoints, kp.name);
        if seen.None? {
          return Ok(kpoints + [kp]);
        }
        var same := KPoints.Equals(seen.value, kp);
        if same.Err? {
          return Err(same.error);
        }
        if !same.value {
          return Err(AssertionError);
        }
      }
    }
    return Ok(kpoints);
  }

  // ---------------------------------------------------------------
  // What the selection keeps, stated on indices
  // ---------------------------------------------------------------

  /** Irrep j is the first candidate of its k-point name. */
  predicate IsFirst(irreps: seq<Irrep>, j: nat)
    requires j < |irreps|
  {
    Candidate(irreps[j])
    && forall i :: 0 <= i < j && Candidate(irreps[i]) ==> irreps[i].kpname != irreps[j].kpname
  }

  /** The k-points of the first candidates of each name, in table order. */
  function Firsts(irreps: seq<Irrep>, n: nat): seq<KPoint>
    requires n <= |irreps|
  {
    if n == 0 then []
    else Firsts(irreps, n - 1) + (if IsFirst(irreps, n - 1) then [KPointOf(irreps[n - 1])] else [])
  }

  /** Every irrep has `hasuvw`, and every later candidate of a name
      compares equal to the first. */
  predicate Checked(irreps: seq<Irrep>, n: nat)
    requires n <= |irreps|
  {
    && (forall i :: 0 <= i < n ==> irreps[i].hasuvw.Some?)
    && (forall j, i ::
          0 <= j < i < n && IsFirst(irreps, j) && Candidate(irreps[i]) && irreps[j].kpname == irreps[i].kpname
          ==> KPoints.Equals(KPointOf(irreps[j]), KPointOf(irreps[i])) == Ok(true))
  }

  /** The first of irreps[..n] that is a candidate named `name` (n if none). */
  function FirstWith(irreps: seq<Irrep>, n: nat, name: string): (f: nat)
    requires n <= |irreps|
    ensures f <= n
    ensures f < n ==> Candidate(irreps[f]) && irreps[f].kpname == name
    ensures forall i :: 0 <= i < f ==> !(Candidate(irreps[i]) && irreps[i].kpname == name)
  {
    if n == 0 then 0
    else if FirstWith(irreps, n - 1, name) < n - 1 then FirstWith(irreps, n - 1, name)
    else if Candidate(irreps[n - 1]) && irreps[n - 1].kpname == name then n - 1
    else n
  }

  lemma LookupAppend(kps: seq<KPoint>, kp: KPoint, name: string)
    ensures Lookup(kps + [kp], name)
         == if Lookup(kps, name).Some? then Lookup(kps, name) else if kp.name == name then Some(kp) else None
  {
    if |kps| > 0 {
      assert (kps + [kp])[1..] == kps[1..] + [kp];
      LookupAppend(kps[1..], kp, name);
    }
  }

  /** Looking a name up among the kept k-points finds the first candidate
      of that name. */
  lemma {:induction false} FirstsLookup(irreps: seq<Irrep>, n: nat, name: string)
    requires n <= |irreps|
    ensures Lookup(Firsts(irreps, n), name)
         == if FirstWith(irreps, n, name) < n then Some(KPointOf(irreps[FirstWith(irreps, n, name)])) else None
  {
    if n > 0 {
      FirstsLookup(irreps, n - 1, name);
      if IsFirst(irreps, n - 1) {
        LookupAppend(Firsts(irreps, n - 1), KPointOf(irreps[n - 1]), name);
      } else {
        assert Firsts(irreps, n) == Firsts(irreps, n - 1);
      }
    }
  }

  /** The names kept are distinct: each k-point is written once. */
  lemma {:induction false} FirstsDistinct(irreps: seq<Irrep>, n: nat)
    requires n <= |irreps|
    ensures forall a, b :: 0 <= a < b < |Firsts(irreps, n)| ==> Firsts(irreps, n)[a].name != Firsts(irreps, n)[b].name
  {
    if n > 0 {
      FirstsDistinct(irreps, n - 1);
      if IsFirst(irreps, n - 1) {
        var name := irreps[n - 1].kpname;
        FirstsLookup(irreps, n - 1, name);
        assert FirstWith(irreps, n - 1, name) == n - 1;
        LookupSpec(Firsts(irreps, n - 1), name);
      }
    }
  }

  /** One step of the loop, on a candidate: the dict lookup finds the
      first candidate of the name, if any. */
  lemma CandidateStep(irreps: seq<Irrep>, n: nat)
    requires 0 < n <= |irreps| && Candidate(irreps[n - 1])
    requires Select(irreps, n - 1) == Ok(Firsts(irreps, n - 1))
    ensures var irr := irreps[n - 1]; var f := FirstWith(irreps, n - 1, irr.kpname);
      && (f == n - 1 ==> IsFirst(irreps, n - 1) && Select(irreps, n) == Ok(Firsts(irreps, n)))
      && (f < n - 1 ==>
            && IsFirst(irreps, f) && !IsFirst(irreps, n - 1)
            && Select(irreps, n) == (match KPoints.Equals(KPointOf(irreps[f]), KPointOf(irr))
                                      case Err(e) => Err(e)
                                      case Ok(same) => if same then Ok(Firsts(irreps, n)) else Err(AssertionError)))
  {
    var irr := irreps[n - 1];
    var f := FirstWith(irreps, n - 1, irr.kpname);
    FirstsLookup(irreps, n - 1, irr.kpname);
    if f < n - 1 {
      assert Candidate(irreps[f]) && irreps[f].kpname == irr.kpname;
      assert !IsFirst(irreps, n - 1);
      assert Firsts(irreps, n) == Firsts(irreps, n - 1);
    }
  }

  /** In the presence of the first candidate f of a name, the only first
      candidate of that name is f. */
  lemma OnlyFirst(irreps: seq<Irrep>, n: nat, name: string, j: nat)
    requires j < n <= |irreps| && IsFirst(irreps, j) && irreps[j].kpname == name
    ensures j == FirstWith(irreps, n, name)
  {
  }

  /** The selection succeeds exactly when every irrep has `hasuvw` and
      every later candidate of a name equals the first; it then keeps the
      first candidate of each name, in the order first seen. */
  lemma {:induction false} SelectSpec(irreps: seq<Irrep>, n: nat)
    requires n <= |irreps|
    ensures Select(irreps, n).Ok? <==> Checked(irreps, n)
    ensures Select(irreps, n).Ok? ==> Select(irreps, n).value == Firsts(irreps, n)
  {
    if n > 0 {
      SelectSpec(irreps, n - 1);
      var irr := irreps[n - 1];
      if Select(irreps, n - 1).Ok? && irr.hasuvw.Some? {
        if Candidate(irr) {
          SelectSpecCandidate(irreps, n);
        } else {
          assert !IsFirst(irreps, n - 1);
        }
      }
    }
  }

  /** The step of SelectSpec on a candidate. */
  lemma SelectSpecCandidate(irreps: seq<Irrep>, n: nat)
    requires 0 < n <= |irreps| && Candidate(irreps[n - 1])
    requires Select(irreps, n - 1) == Ok(Firsts(irreps, n - 1)) && Checked(irreps, n - 1)
    ensures Select(irreps, n).Ok? <==> Checked(irreps, n)
    ensures Select(irreps, n).Ok? ==> Select(irreps, n).value == Firsts(irreps, n)
  {
    var irr := irreps[n - 1];
    CandidateStep(irreps, n);
    var f := FirstWith(irreps, n - 1, irr.kpname);
    if Select(irreps, n).Ok? {
      assert Select(irreps, n).value == Firsts(irreps, n);
      forall i | 0 <= i < n ensures irreps[i].hasuvw.Some? {
        if i < n - 1 {
          assert Checked(irreps, n - 1);
        }
      }
      forall j, i | 0 <= j < i < n && IsFirst(irreps, j) && Candidate(irreps[i]) && irreps[j].kpname == irreps[i].kpname
        ensures KPoints.Equals(KPointOf(irreps[j]), KPointOf(irreps[i])) == Ok(true)
      {
        if i == n - 1 {
          OnlyFirst(irreps, n - 1, irr.kpname, j);
        }
      }
      assert Checked(irreps, n);
    } else {
      assert f < n - 1 && IsFirst(irreps, f);
      assert KPoints.Equals(KPointOf(irreps[f]), KPointOf(irr)) != Ok(true);
      assert !Checked(irreps, n);
    }
  }

  // ---------------------------------------------------------------
  // What is written after the selection
  // ---------------------------------------------------------------

  /** The irreps of the table at the k-point `name`, in table order. */
  function WithName(irreps: seq<Irrep>, name: string): (r: seq<Irrep>)
    ensures forall irr :: irr in r <==> irr in irreps && irr.kpname == name
  {
    if |irreps| == 0 then []
    else (if irreps[0].kpname == name then [irreps[0]] else []) + WithName(irreps[1..], name)
  }

  /** r holds the irreps at the positions idx, in that order. */
  predicate Listed(irreps: seq<Irrep>, idx: seq<nat>, r: seq<Irrep>)
  {
    |idx| == |r| && forall j :: 0 <= j < |idx| ==> idx[j] < |irreps| && r[j] == irreps[idx[j]]
  }

  predicate Increasing(idx: seq<nat>)
  {
    forall j, j' :: 0 <= j < j' < |idx| ==> idx[j] < idx[j']
  }

  /** idx holds exactly the positions of the irreps at `name`. */
  predicate Covers(irreps: seq<Irrep>, name: string, idx: seq<nat>)
  {
    forall k :: 0 <= k < |irreps| ==> (irreps[k].kpname == name <==> k in idx)
  }

  /** idx lists in increasing order exactly the positions of the irreps at
      `name`, and r holds the irreps at those positions, in that order. */
  predicate Picks(irreps: seq<Irrep>, name: string, idx: seq<nat>, r: seq<Irrep>)
  {
    Listed(irreps, idx, r) && Increasing(idx) && Covers(irreps, name, idx)
  }

  /** Each position moved one place on. */
  function Shift(idx: seq<nat>): (r: seq<nat>)
    ensures |r| == |idx| && forall j :: 0 <= j < |idx| ==> r[j] == idx[j] + 1
  {
    if |idx| == 0 then [] else [idx[0] + 1] + Shift(idx[1..])
  }

  /** The positions in the whole sequence of what `rest` lists in its tail. */
  function ConsPositions(hit: bool, rest: seq<nat>): seq<nat>
  {
    if hit then [0] + Shift(rest) else Shift(rest)
  }

  lemma ListedCons(irreps: seq<Irrep>, name: string, rest: seq<nat>)
    requires |irreps| > 0
    requires Listed(irreps[1..], rest, WithName(irreps[1..], name))
    ensures Listed(irreps, ConsPositions(irreps[0].kpname == name, rest), WithName(irreps, name))
  {
    var tail := irreps[1..];
    var hit := irreps[0].kpname == name;
    var idx := ConsPositions(hit, rest);
    var r := WithName(irreps, name);
    var rt := WithName(tail, name);
    assert r == (if hit then [irreps[0]] else []) + rt;
    var o := if hit then 1 else 0;
    forall j | o <= j < |idx|
      ensures idx[j] < |irreps| && r[j] == irreps[idx[j]]
    {
      assert idx[j] == rest[j - o] + 1 && r[j] == rt[j - o];
      assert tail[rest[j - o]] == irreps[rest[j - o] + 1];
    }
  }

  lemma IncreasingCons(hit: bool, rest: seq<nat>)
    requires Increasing(rest)
    ensures Increasing(ConsPositions(hit, rest))
  {
    var shifted := Shift(rest);
    assert Increasing(shifted) by {
      forall j, j' | 0 <= j < j' < |shifted|
        ensures shifted[j] < shifted[j']
      {
        assert rest[j] < rest[j'];
      }
    }
    if hit {
      var idx := [0] + shifted;
      forall j, j' | 0 <= j < j' < |idx|
        ensures idx[j] < idx[j']
      {
        assert idx[j'] == shifted[j' - 1];
        if j > 0 {
          assert idx[j] == shifted[j - 1];
        }
      }
    }
  }

  lemma CoversCons(irreps: seq<Irrep>, name: string, rest: seq<nat>)
    requires |irreps| > 0
    requires Covers(irreps[1..], name, rest)
    ensures Covers(irreps, name, ConsPositions(irreps[0].kpname == name, rest))
  {
    var tail := irreps[1..];
    var shifted := Shift(rest);
    var idx := ConsPositions(irreps[0].kpname == name, rest);
    forall k | 0 <= k < |irreps|
      ensures irreps[k].kpname == name <==> k in idx
    {
      if k == 0 {
        assert 0 !in shifted;
      } else {
        assert irreps[k] == tail[k - 1];
        if k - 1 in rest {
          var j :| 0 <= j < |rest| && rest[j] == k - 1;
          assert shifted[j] == k;
        }
        if k in shifted {
          var j :| 0 <= j < |shifted| && shifted[j] == k;
          assert rest[j] == k - 1;
        }
      }
    }
  }

  /** The positions WithName picks, built along its recursion. */
  lemma {:induction false} WithNamePositions(irreps: seq<Irrep>, name: string) returns (idx: seq<nat>)
    ensures Picks(irreps, name, idx, WithName(irreps, name))
  {
    if |irreps| == 0 {
      idx := [];
    } else {
      var rest := WithNamePositions(irreps[1..], name);
      ListedCons(irreps, name, rest);
      IncreasingCons(irreps[0].kpname == name, rest);
      CoversCons(irreps, name, rest);
      idx := ConsPositions(irreps[0].kpname == name, rest);
    }
  }

  /** The irreps written under a k-point are the table's irreps at its
      label, each once, in table order. */
  lemma WithNameInOrder(irreps: seq<Irrep>, name: string)
    ensures exists idx :: Picks(irreps, name, idx, WithName(irreps, name))
  {
    var idx := WithNamePositions(irreps, name);
  }

  /** The sections `save4user` writes: each kept k-point, followed by every
      irrep of the table at it. */
  function Sections(irreps: seq<Irrep>, kps: seq<KPoint>): (r: seq<(KPoint, seq<Irrep>)>)
    ensures |r| == |kps|
    ensures forall i :: 0 <= i < |kps| ==> r[i] == (kps[i], WithName(irreps, kps[i].name))
  {
    seq(|kps|, i requires 0 <= i < |kps| => (kps[i], WithName(irreps, kps[i].name)))
  }

  /** The sections of `save4user`, or the error its selection raises. */
  function SaveLayout(irreps: seq<Irrep>): Result<seq<(KPoint, seq<Irrep>)>>
  {
    var kps :- Select(irreps, |irreps|);
    Ok(Sections(irreps, kps))
  }

  /** No irrep is written twice: the sections of distinct kept names hold
      disjoint irreps, and each irrep sits in the section of its k-point. */
  lemma SaveLayoutDisjoint(irreps: seq<Irrep>)
    requires SaveLayout(irreps).Ok?
    ensures var r := SaveLayout(irreps).value;
      && (forall a, b :: 0 <= a < b < |r| ==> r[a].0.name != r[b].0.name)
      && (forall a, b, irr :: 0 <= a < |r| && 0 <= b < |r| && irr in r[a].1 && irr in r[b].1 ==> a == b)
      && (forall a, irr :: 0 <= a < |r| && irr in r[a].1 ==> irr in irreps && irr.kpname == r[a].0.name)
  {
    SelectSpec(irreps, |irreps|);
    FirstsDistinct(irreps, |irreps|);
  }

  /** The first candidate of every kept name is written, under its k-point. */
  lemma SaveLayoutComplete(irreps: seq<Irrep>, j: nat)
    requires SaveLayout(irreps).Ok? && j < |irreps| && IsFirst(irreps, j)
    ensures var r := SaveLayout(irreps).value;
      exists a :: 0 <= a < |r| && r[a].0 == KPointOf(irreps[j]) && irreps[j] in r[a].1
  {
    SelectSpec(irreps, |irreps|);
    var name := irreps[j].kpname;
    FirstsLookup(irreps, |irreps|, name);
    OnlyFirst(irreps, |irreps|, name, j);
    var kps := Firsts(irreps, |irreps|);
    LookupSpec(kps, name);
    var a :| 0 <= a < |kps| && kps[a] == KPointOf(irreps[j]);
    assert SaveLayout(irreps).value[a].0 == KPointOf(irreps[j]);
  }
}
