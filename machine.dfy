/** The legacy reader `Irrep.__init__` (machine layout). An irrep is a
    header line, then for every symmetry of the group a slot line "index
    flag" and, for a present slot (flag 1), two lines per entry of the
    dim x dim representation matrix: an entry flag ("1" plain, "2" depending
    on u, v, w) and the terms of its `CharFunction`. */
module MachineIrreps {
  import opened Wrappers
  import opened Text
  import opened Numbers
  import opened Sorting
  import opened Dicts
  import opened CharFunctions
  import opened Irreps

  /** `len(range(n))`. */
  function RangeLen(n: int): nat
  {
    if n > 0 then n else 0
  }

  /** Line p of the file, or "" where `readline` is past the end. */
  function LineAt(lines: seq<string>, p: nat): string
  {
    if p < |lines| then lines[p] else ""
  }

  /** A text file opened for reading: its lines and how many `readline`
      calls have been made. */
  class LineReader {
    const lines: seq<string>
    var pos: nat

    constructor (lines: seq<string>)
      ensures this.lines == lines && pos == 0
    {
      this.lines := lines;
      pos := 0;
    }

    /** `f.readline()`: the next line; at the end of the file, "". */
    method ReadLine() returns (l: string)
      modifies this
      ensures l == LineAt(lines, old(pos)) && pos == old(pos) + 1
    {
      l := LineAt(lines, pos);
      pos := pos + 1;
    }
  }

  // ---- the header line ----

  /** `k`, `name`, `kpname`, `dim`, `nsym` (already halved) and `reality`. */
  datatype Header = Header(k: seq<real>, name: string, kpname: string, dim: int, nsym: int, reality: int)

  /** The header: coordinates from tokens 0..2, token 3 (`has_rkmk`) must
      exist, label 4, dimension 5, twice `nsym` at 6, k-point label 7 and the
      reality flag 8. */
  function ParseHeader(line: string): Result<Header>
  {
    var s := SplitWs(line);
    match ParseFloats(Slice(s, 0, 3))
    case None => Err(ValueError)
    case Some(k) =>
      if |s| < 8 then Err(IndexError)
      else
        match ParseInt(s[5])
        case None => Err(ValueError)
        case Some(dim) =>
          match ParseInt(s[6])
          case None => Err(ValueError)
          case Some(twice) =>
            if |s| < 9 then Err(IndexError)
            else
              match ParseInt(s[8])
              case None => Err(ValueError)
              case Some(reality) => Ok(Header(k, s[4], s[7], dim, HalfTrunc(twice), reality))
  }

  /** Which header lines parse, and into what. */
  lemma HeaderLayout(line: string)
    ensures var s := SplitWs(line);
      ParseHeader(line).Ok? <==>
        |s| >= 9 && FloatTokens(s, 0, 3) && ParseInt(s[5]).Some? && ParseInt(s[6]).Some? && ParseInt(s[8]).Some?
    ensures var s := SplitWs(line);
      ParseHeader(line).Ok? ==>
        ParseHeader(line).value == Header(ParseFloats(s[..3]).value, s[4], s[7], ParseInt(s[5]).value,
                                          HalfTrunc(ParseInt(s[6]).value), ParseInt(s[8]).value)
  {
    var s := SplitWs(line);
    SliceFloats(s, 0, 3);
    if |s| >= 9 {
      assert Slice(s, 0, 3) == s[..3];
    }
  }

  /** A line without tokens (a blank line, or the end of the file) is not
      a header: indexing its tokens raises IndexError. */
  lemma BlankHeader(line: string)
    requires SplitWs(line) == []
    ensures ParseHeader(line) == Err(IndexError)
  {
    assert Slice(SplitWs(line), 0, 3) == [];
  }

  // ---- the entries of a present slot ----

  /** The line of the flag of diagonal entry d of a present slot whose
      entry lines start at q: entry (d, d) is the (d * dim + d)-th in
      row-major order, and each entry takes a flag line and a terms line. */
  function DiagonalLine(q: nat, dim: nat, d: nat): nat
  {
    if d == 0 then q else DiagonalLine(q, dim, d - 1) + 2 * (dim + 1)
  }

  /** Entry (d, d) is the (d * dim + d)-th entry, two lines each. */
  lemma {:induction false} DiagonalLineIs(q: nat, dim: nat, d: nat)
    ensures DiagonalLine(q, dim, d) == q + 2 * (d * dim + d)
  {
    if d > 0 {
      DiagonalLineIs(q, dim, d - 1);
      assert d * dim == (d - 1) * dim + dim;
    }
  }

  /** The flag of an entry: "1" plain, "2" depending on u, v, w (the
      stripped line is one of those exactly when it is the line's only
      token, lemma EntryFlagStrip). */
  function EntryFlag(line: string): Option<bool>
  {
    var toks := SplitWs(line);
    if toks == ["1"] then Some(false) else if toks == ["2"] then Some(true) else None
  }

  /** One entry from its flag line and its terms line: the flag must be "1"
      or "2" (RuntimeError), the terms numbers (ValueError). */
  function Entry(l1: string, l2: string): Result<(bool, seq<real>)>
  {
    match EntryFlag(l1)
    case None => Err(RuntimeError)
    case Some(flag) =>
      match ParseFloats(SplitWs(l2))
      case None => Err(ValueError)
      case Some(term) => Ok((flag, term))
  }

  /** The two line parsers of the slot loop: the slot line, and an entry
      from its flag line and its terms line. The reader uses `Machine`;
      the lemmas about the loop hold for any pair. */
  datatype LineParsers = LineParsers(slotFlag: (string, int) -> Result<bool>,
                                     entry: (string, string) -> Result<(bool, seq<real>)>)

  const Machine: LineParsers := LineParsers(SlotFlag, Entry)

  /** The entry whose flag is on line `at` and whose terms follow it. */
  function Diagonal(ps: LineParsers, lines: seq<string>, at: nat): Result<(bool, seq<real>)>
  {
    ps.entry(LineAt(lines, at), LineAt(lines, at + 1))
  }

  /** The first n diagonal entries in order: their flags and their terms;
      the first bad entry decides the error. */
  function Diagonals(ps: LineParsers, lines: seq<string>, q: nat, dim: nat, n: nat): Result<(seq<bool>, seq<seq<real>>)>
  {
    if n == 0 then Ok(([], []))
    else
      var prefix :- Diagonals(ps, lines, q, dim, n - 1);
      var entry :- Diagonal(ps, lines, DiagonalLine(q, dim, n - 1));
      Ok((prefix.0 + [entry.0], prefix.1 + [entry.1]))
  }

  lemma {:induction false} DiagonalsErr(ps: LineParsers, lines: seq<string>, q: nat, dim: nat, m: nat, n: nat)
    requires m <= n && Diagonals(ps, lines, q, dim, m).Err?
    ensures Diagonals(ps, lines, q, dim, n) == Diagonals(ps, lines, q, dim, m)
    decreases n
  {
    if n > m {
      DiagonalsErr(ps, lines, q, dim, m, n - 1);
    }
  }

  /** The entries of a slot are all read exactly when each diagonal entry
      reads; then there are exactly n of them. */
  lemma {:induction false} DiagonalsOk(ps: LineParsers, lines: seq<string>, q: nat, dim: nat, n: nat)
    ensures Diagonals(ps, lines, q, dim, n).Ok? <==>
      forall d :: 0 <= d < n ==> Diagonal(ps, lines, DiagonalLine(q, dim, d)).Ok?
    ensures Diagonals(ps, lines, q, dim, n).Ok? ==>
      |Diagonals(ps, lines, q, dim, n).value.0| == n && |Diagonals(ps, lines, q, dim, n).value.1| == n
  {
    if n > 0 {
      DiagonalsOk(ps, lines, q, dim, n - 1);
      var prev := Diagonals(ps, lines, q, dim, n - 1);
      var last := Diagonal(ps, lines, DiagonalLine(q, dim, n - 1));
      if prev.Ok? && last.Ok? {
        assert Diagonals(ps, lines, q, dim, n) == Ok((prev.value.0 + [last.value.0], prev.value.1 + [last.value.1]));
        forall d | 0 <= d < n ensures Diagonal(ps, lines, DiagonalLine(q, dim, d)).Ok? {
          if d == n - 1 {
            assert Diagonal(ps, lines, DiagonalLine(q, dim, d)) == last;
          }
        }
      } else {
        assert Diagonals(ps, lines, q, dim, n).Err?;
        var d := if prev.Err? then var d :| 0 <= d < n - 1 && !Diagonal(ps, lines, DiagonalLine(q, dim, d)).Ok?; d
                 else n - 1;
        assert 0 <= d < n && !Diagonal(ps, lines, DiagonalLine(q, dim, d)).Ok?;
        assert !(forall d :: 0 <= d < n ==> Diagonal(ps, lines, DiagonalLine(q, dim, d)).Ok?);
      }
    }
  }

  /** Entry d of a slot is the diagonal entry (d, d). */
  lemma {:induction false} DiagonalsEntry(ps: LineParsers, lines: seq<string>, q: nat, dim: nat, n: nat, d: nat)
    requires d < n && Diagonals(ps, lines, q, dim, n).Ok?
    ensures |Diagonals(ps, lines, q, dim, n).value.0| == n && |Diagonals(ps, lines, q, dim, n).value.1| == n
    ensures var r := Diagonals(ps, lines, q, dim, n).value;
      Diagonal(ps, lines, DiagonalLine(q, dim, d)) == Ok((r.0[d], r.1[d]))
  {
    DiagonalsOk(ps, lines, q, dim, n);
    DiagonalsOk(ps, lines, q, dim, n - 1);
    var prev := Diagonals(ps, lines, q, dim, n - 1);
    var last := Diagonal(ps, lines, DiagonalLine(q, dim, n - 1));
    assert prev.Ok? && last.Ok?;
    var r := Diagonals(ps, lines, q, dim, n).value;
    assert r == (prev.value.0 + [last.value.0], prev.value.1 + [last.value.1]);
    if d < n - 1 {
      DiagonalsEntry(ps, lines, q, dim, n - 1, d);
      assert r.0[d] == prev.value.0[d] && r.1[d] == prev.value.1[d];
    }
  }

  /** What one diagonal entry holds: its flag line reads "1" or "2" (true
      for "2"), and its terms line is the terms. */
  lemma DiagonalParts(lines: seq<string>, at: nat)
    ensures Diagonal(Machine, lines, at).Ok? <==>
      EntryFlag(LineAt(lines, at)).Some? && ParseFloats(SplitWs(LineAt(lines, at + 1))).Some?
    ensures Diagonal(Machine, lines, at).Ok? ==>
      Diagonal(Machine, lines, at).value == (EntryFlag(LineAt(lines, at)).value, ParseFloats(SplitWs(LineAt(lines, at + 1))).value)
  {
  }

  /** The entry flag is `l1.strip()` compared with "1" and "2". */
  lemma EntryFlagStrip(line: string)
    ensures EntryFlag(line) == if Strip(line) == "1" then Some(false) else if Strip(line) == "2" then Some(true) else None
  {
    StripToken(line, "1");
    StripToken(line, "2");
  }

  /** Only the diagonal lines matter: files that agree on them give the
      same entries, whatever the off-diagonal lines hold. */
  lemma {:induction false} DiagonalsIgnoreOffDiagonal(ps: LineParsers, lines: seq<string>, other: seq<string>, q: nat, dim: nat, n: nat)
    requires forall d :: 0 <= d < n ==>
      && LineAt(lines, DiagonalLine(q, dim, d)) == LineAt(other, DiagonalLine(q, dim, d))
      && LineAt(lines, DiagonalLine(q, dim, d) + 1) == LineAt(other, DiagonalLine(q, dim, d) + 1)
    ensures Diagonals(ps, lines, q, dim, n) == Diagonals(ps, other, q, dim, n)
  {
    if n > 0 {
      DiagonalsIgnoreOffDiagonal(ps, lines, other, q, dim, n - 1);
      assert Diagonal(ps, lines, DiagonalLine(q, dim, n - 1)) == Diagonal(ps, other, DiagonalLine(q, dim, n - 1));
    }
  }

  lemma DiagonalsSnoc(ps: LineParsers, lines: seq<string>, q: nat, dim: nat, n: nat, flags: seq<bool>, terms: seq<seq<real>>)
    requires Diagonals(ps, lines, q, dim, n) == Ok((flags, terms))
    ensures Diagonals(ps, lines, q, dim, n + 1) ==
      match Diagonal(ps, lines, DiagonalLine(q, dim, n))
      case Err(e) => Err(e)
      case Ok(entry) => Ok((flags + [entry.0], terms + [entry.1]))
  {
  }

  lemma RowStep(i: nat, n: nat)
    ensures (i + 1) * n == i * n + n
  {
  }

  /** The `for i ... for j ...` block of one present slot: reads two lines
      per entry and keeps the flag and the terms of each diagonal entry. */
  method ReadEntries(r: LineReader, dim: int, ps: LineParsers) returns (res: Result<(seq<bool>, seq<seq<real>>)>)
    modifies r
    ensures res == Diagonals(ps, r.lines, old(r.pos), RangeLen(dim), RangeLen(dim))
    ensures res.Ok? ==> r.pos == old(r.pos) + 2 * (RangeLen(dim) * RangeLen(dim))
  {
    var n := RangeLen(dim);
    ghost var q := r.pos;
    ghost var base := 0;
    var uvw: seq<bool> := [];
    var abcde: seq<seq<real>> := [];
    var i := 0;
    while i < n
      invariant 0 <= i <= n && base == i * n
      invariant r.pos == q + 2 * base
      invariant Diagonals(ps, r.lines, q, n, i) == Ok((uvw, abcde))
    {
      var j := 0;
      while j < n
        invariant 0 <= j <= n
        invariant r.pos == q + 2 * (base + j)
        invariant Diagonals(ps, r.lines, q, n, if j > i then i + 1 else i) == Ok((uvw, abcde))
      {
        ghost var at := r.pos;
        var l1 := r.ReadLine();
        var l2 := r.ReadLine();
        if i == j {
          DiagonalLineIs(q, n, i);
          assert at == DiagonalLine(q, n, i);
          DiagonalsSnoc(ps, r.lines, q, n, i, uvw, abcde);
          var entry := ps.entry(l1, l2);
          if entry.Err? {
            DiagonalsErr(ps, r.lines, q, n, i + 1, n);
            return Err(entry.error);
          }
          uvw := uvw + [entry.value.0];
          abcde := abcde + [entry.value.1];
        }
        j := j + 1;
      }
      RowStep(i, n);
      base := base + n;
      i := i + 1;
    }
    return Ok((uvw, abcde));
  }

  // ---- slots ----

  /** What one slot gives: nothing (flag 0), or the flags and the terms of
      its diagonal entries. */
  datatype Slot = Absent | Present(flags: seq<bool>, terms: seq<seq<real>>)

  /** The slot line of slot `isym`: exactly two integers (ValueError
      otherwise), the first equal to `isym` (AssertionError), the second 0
      (absent) or 1 (present), anything else a RuntimeError. */
  function SlotFlag(line: string, isym: int): Result<bool>
  {
    match ParseInts(SplitWs(line))
    case None => Err(ValueError)
    case Some(v) =>
      if |v| != 2 then Err(ValueError)
      else if v[0] != isym then Err(AssertionError)
      else if v[1] == 0 then Ok(false)
      else if v[1] != 1 then Err(RuntimeError)
      else Ok(true)
  }

  /** n * n, counted up so that the solver does not multiply. */
  function Square(n: nat): nat
  {
    if n == 0 then 0 else Square(n - 1) + 2 * n - 1
  }

  lemma {:induction false} SquareIs(n: nat)
    ensures Square(n) == n * n
  {
    if n > 0 {
      SquareIs(n - 1);
    }
  }

  /** Slot `isym` starting at line q, and the line after it: a present slot
      takes 2 * dim * dim entry lines after its own. */
  function SlotAt(ps: LineParsers, lines: seq<string>, q: nat, isym: int, dim: int): Result<(Slot, nat)>
  {
    var present :- ps.slotFlag(LineAt(lines, q), isym);
    if !present then Ok((Absent, q + 1))
    else
      var n := RangeLen(dim);
      var e :- Diagonals(ps, lines, q + 1, n, n);
      Ok((Present(e.0, e.1), q + 1 + 2 * Square(n)))
  }

  /** The checks of a slot line: it must read "isym 0" or "isym 1"; another
      index fails the assertion, another flag raises RuntimeError. */
  lemma SlotFlagChecks(line: string, isym: int)
    ensures SlotFlag(line, isym).Ok? <==> ParseInts(SplitWs(line)) in {Some([isym, 0]), Some([isym, 1])}
    ensures SlotFlag(line, isym) == Ok(true) <==> ParseInts(SplitWs(line)) == Some([isym, 1])
    ensures forall a, b :: ParseInts(SplitWs(line)) == Some([a, b]) ==>
      (a != isym ==> SlotFlag(line, isym) == Err(AssertionError))
      && (a == isym && b != 0 && b != 1 ==> SlotFlag(line, isym) == Err(RuntimeError))
  {
    var v := ParseInts(SplitWs(line));
    if SlotFlag(line, isym).Ok? {
      assert v.value == [isym, v.value[1]];
    }
  }

  /** Where the slot loop stands: the next line, the stored characters, the
      `hasuvw` flag, and (for the proofs) every slot read so far. */
  datatype Progress = Progress(pos: nat, characters: seq<(int, CharFunction)>, hasuvw: bool, slots: seq<Slot>)

  /** The first n slots, starting at line p. A present slot sets `hasuvw`
      when any of its flags does, and stores its `CharFunction` only when
      2 * isym <= nsym_group (`isym <= nsym_group / 2`). */
  function Slots(ps: LineParsers, lines: seq<string>, p: nat, dim: int, nsymGroup: int, n: nat): Result<Progress>
  {
    if n == 0 then Ok(Progress(p, [], false, []))
    else
      var st :- Slots(ps, lines, p, dim, nsymGroup, n - 1);
      var s :- SlotAt(ps, lines, st.pos, n, dim);
      Ok(Advance(st, s.0, s.1, n, nsymGroup))
  }

  /** The loop state after slot `isym`, read up to line `next`. */
  function Advance(st: Progress, s: Slot, next: nat, isym: int, nsymGroup: int): Progress
  {
    match s
    case Absent => Progress(next, st.characters, st.hasuvw, st.slots + [Absent])
    case Present(flags, terms) =>
      Progress(next,
               if 2 * isym <= nsymGroup then Put(st.characters, isym, CharFunction(terms)) else st.characters,
               st.hasuvw || true in flags,
               st.slots + [s])
  }

  lemma {:induction false} SlotsErr(ps: LineParsers, lines: seq<string>, p: nat, dim: int, nsymGroup: int, m: nat, n: nat)
    requires m <= n && Slots(ps, lines, p, dim, nsymGroup, m).Err?
    ensures Slots(ps, lines, p, dim, nsymGroup, n) == Slots(ps, lines, p, dim, nsymGroup, m)
    decreases n
  {
    if n > m {
      SlotsErr(ps, lines, p, dim, nsymGroup, m, n - 1);
    }
  }

  /** The characters the slots store: slot i (1-based) is kept when it is
      present and 2 * i <= nsym_group. */
  function Stored(slots: seq<Slot>, nsymGroup: int): seq<(int, CharFunction)>
  {
    if |slots| == 0 then []
    else
      var last := slots[|slots| - 1];
      Stored(slots[..|slots| - 1], nsymGroup)
      + (if last.Present? && 2 * |slots| <= nsymGroup then [(|slots|, CharFunction(last.terms))] else [])
  }

  /** Some present slot has an entry flagged "2". */
  predicate AnyUvw(slots: seq<Slot>)
  {
    exists i :: 0 <= i < |slots| && slots[i].Present? && true in slots[i].flags
  }

  /** The stored characters are keyed by the kept slot indices, in
      ascending order. */
  lemma {:induction false} StoredKeys(slots: seq<Slot>, nsymGroup: int)
    ensures forall j :: 0 <= j < |Stored(slots, nsymGroup)| ==> 1 <= Stored(slots, nsymGroup)[j].0 <= |slots|
    ensures Ascending(Keys(Stored(slots, nsymGroup))) && DistinctKeys(Stored(slots, nsymGroup))
    ensures forall x :: x in Keys(Stored(slots, nsymGroup)) <==>
      1 <= x <= |slots| && slots[x - 1].Present? && 2 * x <= nsymGroup
  {
    if |slots| > 0 {
      var init := slots[..|slots| - 1];
      StoredKeys(init, nsymGroup);
      var d := Stored(slots, nsymGroup);
      var e := Stored(init, nsymGroup);
      assert Keys(d) == Keys(e) + (if |d| > |e| then [|slots|] else []);
      forall x | x in Keys(d) ensures 1 <= x <= |slots| && slots[x - 1].Present? && 2 * x <= nsymGroup {
        if x != |slots| {
          assert x in Keys(e);
          assert init[x - 1] == slots[x - 1];
        }
      }
      forall x | 1 <= x <= |slots| && slots[x - 1].Present? && 2 * x <= nsymGroup ensures x in Keys(d) {
        if x != |slots| {
          assert init[x - 1] == slots[x - 1];
          assert x in Keys(e);
        }
      }
    }
  }

  /** A slot ends after its own line when absent, and 2 * dim * dim
      lines later when present, keeping exactly dim diagonal entries. */
  lemma SlotLines(ps: LineParsers, lines: seq<string>, q: nat, isym: int, dim: int)
    requires SlotAt(ps, lines, q, isym, dim).Ok?
    ensures SlotAt(ps, lines, q, isym, dim).value.1 > q
    ensures var s := SlotAt(ps, lines, q, isym, dim).value; var n := RangeLen(dim);
      match s.0
      case Absent => s.1 == q + 1
      case Present(flags, terms) => s.1 == q + 1 + 2 * (n * n) && |flags| == n && |terms| == n
  {
    var n := RangeLen(dim);
    DiagonalsOk(ps, lines, q + 1, n, n);
    SquareIs(n);
  }

  lemma AdvanceTrace(st: Progress, s: Slot, next: nat, isym: int, nsymGroup: int)
    requires isym == |st.slots| + 1
    requires st.characters == Stored(st.slots, nsymGroup) && (st.hasuvw <==> AnyUvw(st.slots))
    ensures var st' := Advance(st, s, next, isym, nsymGroup);
      && st'.pos == next && st'.slots == st.slots + [s]
      && st'.characters == Stored(st'.slots, nsymGroup)
      && (st'.hasuvw <==> AnyUvw(st'.slots))
  {
    var st' := Advance(st, s, next, isym, nsymGroup);
    StoredKeys(st.slots, nsymGroup);
    assert isym !in Keys(st.characters);
    assert st'.slots[..|st.slots|] == st.slots;
    if AnyUvw(st'.slots) {
      var i :| 0 <= i < |st'.slots| && st'.slots[i].Present? && true in st'.slots[i].flags;
      if i < |st.slots| {
        assert st.slots[i] == st'.slots[i];
      }
    }
    if AnyUvw(st.slots) {
      var i :| 0 <= i < |st.slots| && st.slots[i].Present? && true in st.slots[i].flags;
      assert st'.slots[i] == st.slots[i];
    }
    if s.Present? && true in s.flags {
      assert st'.slots[|st.slots|] == s;
    }
  }

  lemma SlotsStep(ps: LineParsers, lines: seq<string>, p: nat, dim: int, nsymGroup: int, n: nat)
    requires n > 0 && Slots(ps, lines, p, dim, nsymGroup, n).Ok?
    ensures Slots(ps, lines, p, dim, nsymGroup, n - 1).Ok?
    ensures var prev := Slots(ps, lines, p, dim, nsymGroup, n - 1).value;
      && SlotAt(ps, lines, prev.pos, n, dim).Ok?
      && var s := SlotAt(ps, lines, prev.pos, n, dim).value;
         Slots(ps, lines, p, dim, nsymGroup, n) == Ok(Advance(prev, s.0, s.1, n, nsymGroup))
  {
  }

  /** The slot loop traced: n slots read; the characters are those of the
      kept slots; `hasuvw` is set exactly when some present slot (kept or
      not) has an entry flagged "2"; reading only moves forward. */
  lemma {:induction false} SlotsTrace(ps: LineParsers, lines: seq<string>, p: nat, dim: int, nsymGroup: int, n: nat)
    requires Slots(ps, lines, p, dim, nsymGroup, n).Ok?
    ensures var st := Slots(ps, lines, p, dim, nsymGroup, n).value;
      && |st.slots| == n && st.pos >= p + n
      && st.characters == Stored(st.slots, nsymGroup)
      && (st.hasuvw <==> AnyUvw(st.slots))
  {
    if n > 0 {
      SlotsStep(ps, lines, p, dim, nsymGroup, n);
      SlotsTrace(ps, lines, p, dim, nsymGroup, n - 1);
      var prev := Slots(ps, lines, p, dim, nsymGroup, n - 1).value;
      var s := SlotAt(ps, lines, prev.pos, n, dim).value;
      SlotLines(ps, lines, prev.pos, n, dim);
      AdvanceTrace(prev, s.0, s.1, n, nsymGroup);
      var st := Advance(prev, s.0, s.1, n, nsymGroup);
      assert Slots(ps, lines, p, dim, nsymGroup, n).value == st;
      assert st.pos == s.1 > prev.pos >= p + (n - 1);
    }
  }

  // ---- the whole irrep ----

  /** `{isym: f() for isym, f in characters}`: every function evaluated at
      u = v = w = 0; the first term without entries raises IndexError. */
  function Evaluated(cs: seq<(int, CharFunction)>): Result<seq<(int, Character)>>
  {
    if |cs| == 0 then Ok([])
    else
      var v :- Eval(cs[0].1, 0.0, 0.0, 0.0);
      var rest :- Evaluated(cs[1..]);
      Ok([(cs[0].0, Value(v))] + rest)
  }

  /** The characters kept as functions of u, v, w. */
  function AsFunctions(cs: seq<(int, CharFunction)>): (r: seq<(int, Character)>)
    ensures |r| == |cs|
  {
    seq(|cs|, i requires 0 <= i < |cs| => (cs[i].0, Func(cs[i].1)))
  }

  /** Evaluation keeps the keys and replaces each function by its value
      at the defaults. */
  lemma {:induction false} EvaluatedValues(cs: seq<(int, CharFunction)>)
    ensures Evaluated(cs).Ok? <==> forall i :: 0 <= i < |cs| ==> Eval(cs[i].1, 0.0, 0.0, 0.0).Ok?
    ensures Evaluated(cs).Ok? ==> |Evaluated(cs).value| == |cs| && forall i :: 0 <= i < |cs| ==>
      Evaluated(cs).value[i] == (cs[i].0, Value(Eval(cs[i].1, 0.0, 0.0, 0.0).value))
    ensures Evaluated(cs).Err? ==> Evaluated(cs).error == IndexError
  {
    if |cs| > 0 {
      EvaluatedValues(cs[1..]);
      if Evaluated(cs).Ok? {
        forall i | 0 <= i < |cs| ensures Evaluated(cs).value[i] == (cs[i].0, Value(Eval(cs[i].1, 0.0, 0.0, 0.0).value)) {
          if i > 0 {
            assert cs[1..][i - 1] == cs[i];
          }
        }
      }
      if forall i :: 0 <= i < |cs| ==> Eval(cs[i].1, 0.0, 0.0, 0.0).Ok? {
        assert forall i :: 0 <= i < |cs[1..]| ==> cs[1..][i] == cs[i + 1];
      }
    }
  }

  /** `Irrep(f, nsym_group)` on a file whose next line is line p: the irrep
      and the first line after it. */
  function MachineIrrep(lines: seq<string>, p: nat, nsymGroup: int): Result<(Irrep, nat)>
  {
    var hd :- ParseHeader(LineAt(lines, p));
    var st :- Slots(Machine, lines, p + 1, hd.dim, nsymGroup, RangeLen(nsymGroup));
    Finish(hd, st)
  }

  /** After the slots: evaluate the characters unless some entry depends
      on u, v, w, then assert that there are `nsym` of them. */
  function Finish(hd: Header, st: Progress): Result<(Irrep, nat)>
  {
    var characters :- if st.hasuvw then Ok(AsFunctions(st.characters)) else Evaluated(st.characters);
    if |characters| != hd.nsym then Err(AssertionError)
    else Ok((Irrep(hd.k, hd.kpname, hd.name, hd.dim, hd.nsym, Flag(hd.reality), characters, Some(st.hasuvw)), st.pos))
  }

  lemma SlotsSnoc(ps: LineParsers, lines: seq<string>, p: nat, dim: int, nsymGroup: int, n: nat, st: Progress)
    requires Slots(ps, lines, p, dim, nsymGroup, n) == Ok(st)
    ensures Slots(ps, lines, p, dim, nsymGroup, n + 1) ==
      match SlotAt(ps, lines, st.pos, n + 1, dim)
      case Err(e) => Err(e)
      case Ok(s) => Ok(Advance(st, s.0, s.1, n + 1, nsymGroup))
  {
  }

  lemma SlotAtParts(ps: LineParsers, lines: seq<string>, q: nat, isym: int, dim: int)
    ensures SlotAt(ps, lines, q, isym, dim) ==
      match ps.slotFlag(LineAt(lines, q), isym)
      case Err(e) => Err(e)
      case Ok(present) =>
        if !present then Ok((Absent, q + 1))
        else
          var n := RangeLen(dim);
          match Diagonals(ps, lines, q + 1, n, n)
          case Err(e) => Err(e)
          case Ok(entries) => Ok((Present(entries.0, entries.1), q + 1 + 2 * Square(n)))
  {
  }

  /** One pass of the slot loop: the slot line, then the entries when the
      slot is present. */
  method ReadSlot(r: LineReader, isym: int, dim: int, ps: LineParsers) returns (res: Result<Slot>)
    modifies r
    ensures SlotAt(ps, r.lines, old(r.pos), isym, dim) == if res.Ok? then Ok((res.value, r.pos)) else Err(res.error)
  {
    SlotAtParts(ps, r.lines, r.pos, isym, dim);
    SquareIs(RangeLen(dim));
    var slotLine := r.ReadLine();
    var present := ps.slotFlag(slotLine, isym);
    if present.Err? {
      return Err(present.error);
    }
    if !present.value {
      return Ok(Absent);
    }
    var entries := ReadEntries(r, dim, ps);
    if entries.Err? {
      return Err(entries.error);
    }
    return Ok(Present(entries.value.0, entries.value.1));
  }

  /** One pass of the slot loop: read slot `isym` and fold it into the
      characters and `hasuvw` read so far. */
  method StepSlot(r: LineReader, ps: LineParsers, isym: int, dim: int, nsymGroup: int,
                  characters: seq<(int, CharFunction)>, hasuvw: bool, ghost slots: seq<Slot>)
    returns (res: Result<(seq<(int, CharFunction)>, bool)>, ghost slots': seq<Slot>)
    modifies r
    ensures var s := SlotAt(ps, r.lines, old(r.pos), isym, dim);
      && (s.Err? ==> res == Err(s.error))
      && (s.Ok? ==> res.Ok? && Progress(r.pos, res.value.0, res.value.1, slots')
                               == Advance(Progress(old(r.pos), characters, hasuvw, slots), s.value.0, s.value.1, isym, nsymGroup))
  {
    slots' := slots;
    var slot := ReadSlot(r, isym, dim, ps);
    if slot.Err? {
      return Err(slot.error), slots';
    }
    var chars := characters;
    var uvw := hasuvw;
    match slot.value {
      case Absent =>
        slots' := slots + [Absent];
      case Present(flags, abcde) =>
        if true in flags {
          uvw := true;
        }
        if 2 * isym <= nsymGroup {
          chars := Put(characters, isym, CharFunction(abcde));
        }
        slots' := slots + [slot.value];
    }
    res := Ok((chars, uvw));
  }

  /** The same pass, stated on the slots read from line p: it extends them
      by one, or it fails the whole loop. */
  method NextSlot(r: LineReader, ps: LineParsers, ghost p: nat, isym: nat, dim: int, nsymGroup: int,
                  characters: seq<(int, CharFunction)>, hasuvw: bool, ghost slots: seq<Slot>)
    returns (res: Result<(seq<(int, CharFunction)>, bool)>, ghost slots': seq<Slot>)
    requires 1 <= isym <= RangeLen(nsymGroup)
    requires Slots(ps, r.lines, p, dim, nsymGroup, isym - 1) == Ok(Progress(r.pos, characters, hasuvw, slots))
    modifies r
    ensures res.Err? ==> Slots(ps, r.lines, p, dim, nsymGroup, RangeLen(nsymGroup)) == Err(res.error)
    ensures res.Ok? ==> Slots(ps, r.lines, p, dim, nsymGroup, isym) == Ok(Progress(r.pos, res.value.0, res.value.1, slots'))
  {
    SlotsSnoc(ps, r.lines, p, dim, nsymGroup, isym - 1, Progress(r.pos, characters, hasuvw, slots));
    res, slots' := StepSlot(r, ps, isym, dim, nsymGroup, characters, hasuvw, slots);
    if res.Err? {
      assert Slots(ps, r.lines, p, dim, nsymGroup, isym) == Err(res.error);
      SlotsErr(ps, r.lines, p, dim, nsymGroup, isym, RangeLen(nsymGroup));
    }
  }

  /** The slot loop of the machine reader: slots 1..nsym_group, keeping
      the characters of the first half and whether any entry is flagged "2". */
  method ReadSlots(r: LineReader, ps: LineParsers, dim: int, nsymGroup: int)
    returns (res: Result<(seq<(int, CharFunction)>, bool)>, ghost slots: seq<Slot>)
    modifies r
    ensures Slots(ps, r.lines, old(r.pos), dim, nsymGroup, RangeLen(nsymGroup))
         == if res.Ok? then Ok(Progress(r.pos, res.value.0, res.value.1, slots)) else Err(res.error)
  {
    ghost var p := r.pos;
    var characters: seq<(int, CharFunction)> := [];
    var hasuvw := false;
    slots := [];
    var isym := 1;
    while isym <= nsymGroup
      invariant 1 <= isym <= RangeLen(nsymGroup) + 1
      invariant Slots(ps, r.lines, p, dim, nsymGroup, isym - 1) == Ok(Progress(r.pos, characters, hasuvw, slots))
    {
      var step;
      step, slots := NextSlot(r, ps, p, isym, dim, nsymGroup, characters, hasuvw, slots);
      if step.Err? {
        return Err(step.error), slots;
      }
      characters, hasuvw := step.value.0, step.value.1;
      isym := isym + 1;
    }
    assert isym - 1 == RangeLen(nsymGroup);
    res := Ok((characters, hasuvw));
  }

  /** `Irrep(f=f, nsym_group=nsym_group)`: reads the header, walks the slots
      1..nsym_group, evaluates the characters when none depends on u, v, w,
      and checks their number. */
  method ReadMachineIrrep(r: LineReader, nsymGroup: int) returns (res: Result<Irrep>)
    modifies r
    ensures MachineIrrep(r.lines, old(r.pos), nsymGroup) == if res.Ok? then Ok((res.value, r.pos)) else Err(res.error)
  {
    ghost var p := r.pos;
    var line := r.ReadLine();
    var hd := ParseHeader(line);
    if hd.Err? {
      return Err(hd.error);
    }
    var dim := hd.value.dim;
    var progress;
    ghost var slots;
    progress, slots := ReadSlots(r, Machine, dim, nsymGroup);
    if progress.Err? {
      return Err(progress.error);
    }
    var characters := progress.value.0;
    var hasuvw := progress.value.1;
    assert Slots(Machine, r.lines, p + 1, dim, nsymGroup, RangeLen(nsymGroup)) == Ok(Progress(r.pos, characters, hasuvw, slots));
    var result := if hasuvw then Ok(AsFunctions(characters)) else Evaluated(characters);
    if result.Err? {
      return Err(result.error);
    }
    if |result.value| != hd.value.nsym {
      return Err(AssertionError);
    }
    return Ok(Irrep(hd.value.k, hd.value.kpname, hd.value.name, dim, hd.value.nsym, Flag(hd.value.reality),
                    result.value, Some(hasuvw)));
  }

  // ---- what the machine reader promises ----

  /** A read irrep: its characters are keyed by the kept slots in ascending
      order, `hasuvw` records whether any present slot has an entry flagged
      "2", the characters are functions of u, v, w exactly then and values
      at u = v = w = 0 otherwise, and their number is `int(s[6]) / 2`
      truncated, as asserted. */
  lemma MachineIrrepCharacters(lines: seq<string>, p: nat, nsymGroup: int, hd: Header, st: Progress)
    requires ParseHeader(LineAt(lines, p)) == Ok(hd)
    requires Slots(Machine, lines, p + 1, hd.dim, nsymGroup, RangeLen(nsymGroup)) == Ok(st)
    requires MachineIrrep(lines, p, nsymGroup).Ok?
    ensures var irr := MachineIrrep(lines, p, nsymGroup).value.0;
      var kept := Stored(st.slots, nsymGroup);
      && irr.hasuvw == Some(AnyUvw(st.slots))
      && Keys(irr.characters) == Keys(kept)
      && |irr.characters| == irr.nsym == hd.nsym
      && forall i :: 0 <= i < |kept| ==>
        if AnyUvw(st.slots) then irr.characters[i].1 == Func(kept[i].1)
        else Eval(kept[i].1, 0.0, 0.0, 0.0).Ok? && irr.characters[i].1 == Value(Eval(kept[i].1, 0.0, 0.0, 0.0).value)
  {
    SlotsTrace(Machine, lines, p + 1, hd.dim, nsymGroup, RangeLen(nsymGroup));
    assert MachineIrrep(lines, p, nsymGroup) == Finish(hd, st);
    FinishCharacters(hd, st);
  }

  /** The end of the reader: the characters keep their keys and become
      functions when `hasuvw` is set, values at the defaults otherwise. */
  lemma FinishCharacters(hd: Header, st: Progress)
    requires Finish(hd, st).Ok?
    ensures var irr := Finish(hd, st).value.0;
      && irr.hasuvw == Some(st.hasuvw)
      && Keys(irr.characters) == Keys(st.characters)
      && |irr.characters| == irr.nsym == hd.nsym
      && forall i :: 0 <= i < |st.characters| ==>
        if st.hasuvw then irr.characters[i].1 == Func(st.characters[i].1)
        else Eval(st.characters[i].1, 0.0, 0.0, 0.0).Ok? && irr.characters[i].1 == Value(Eval(st.characters[i].1, 0.0, 0.0, 0.0).value)
  {
    EvaluatedValues(st.characters);
  }

  /** Reading an irrep consumes at least its header line, which must exist
      in the file; past the end the reader raises IndexError. */
  lemma MachineIrrepProgress(lines: seq<string>, p: nat, nsymGroup: int)
    ensures MachineIrrep(lines, p, nsymGroup).Ok? ==> p < |lines| && MachineIrrep(lines, p, nsymGroup).value.1 > p
    ensures p >= |lines| ==> MachineIrrep(lines, p, nsymGroup) == Err(IndexError)
  {
    if p >= |lines| {
      SplitWsSpaces("");
      BlankHeader("");
    }
    if MachineIrrep(lines, p, nsymGroup).Ok? {
      var hd := ParseHeader(LineAt(lines, p)).value;
      SlotsTrace(Machine, lines, p + 1, hd.dim, nsymGroup, RangeLen(nsymGroup));
    }
  }
}
