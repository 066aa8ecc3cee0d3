/** `IrrepTable`: the symmetries of a space group and the irreps of the
    little groups of its maximal k-points. This module holds the table
    itself and the legacy reader `IrrepTable.__init__` (fromUser=False);
    module UserTables holds `__init__user`, module SaveTables `save4user`. */
module Tables {
  import opened Wrappers
  import opened Text
  import opened Numbers
  import opened Symop
  import opened Irreps
  import opened MachineIrreps

  /** `name` is `None` on a user table without a `name=` line; `nk` is only
      read by the legacy reader. */
  datatype IrrepTable = IrrepTable(
    number: int, name: Option<string>, spinor: bool, nsym: int,
    symmetries: seq<SymopTable>, nk: Option<int>, irreps: seq<Irrep>)

  /** Python's `s[0:n]`: a negative n counts from the end. */
  function PyPrefix<T>(s: seq<T>, n: int): (r: seq<T>)
    ensures 0 <= n <= |s| ==> r == s[..n]
    ensures n > |s| ==> r == s
    ensures n < 0 && |s| + n > 0 ==> r == s[..|s| + n]
    ensures |s| + n <= 0 ==> r == []
  {
    if n >= 0 then (if n <= |s| then s[..n] else s)
    else if |s| + n > 0 then s[..|s| + n] else []
  }

  /** `nsym, name = f.readline().split()` then `int(nsym)`. */
  function LegacyHeader(line: string): (r: Result<(int, string)>)
    ensures r.Ok? <==> |SplitWs(line)| == 2 && ParseInt(SplitWs(line)[0]).Some?
    ensures r.Ok? ==> r.value == (ParseInt(SplitWs(line)[0]).value, SplitWs(line)[1])
    ensures r.Err? ==> r.error == ValueError
  {
    var toks := SplitWs(line);
    if |toks| != 2 then Err(ValueError)
    else
      match ParseInt(toks[0])
      case None => Err(ValueError)
      case Some(n) => Ok((n, toks[1]))
  }

  /** Each of the n lines from line p parsed in turn, up to the first
      failure: `[parse(f.readline()) for i in range(n)]`. */
  function ParseEach<T>(lines: seq<string>, p: nat, n: nat, parse: string -> Result<T>): Result<seq<T>>
  {
    if n == 0 then Ok([])
    else
      var init :- ParseEach(lines, p, n - 1, parse);
      var x :- parse(LineAt(lines, p + n - 1));
      Ok(init + [x])
  }

  /** The symmetries of a legacy table, machine layout. */
  function MachineSymmetries(lines: seq<string>, p: nat, n: nat): Result<seq<SymopTable>>
  {
    ParseEach(lines, p, n, ParseMachine)
  }

  /** The line after the symmetries: `f.readline().strip() == "#"`, here as
      "the line holds the single token #" (lemma HashLine). */
  predicate IsHash(line: string)
  {
    SplitWs(line) == ["#"]
  }

  /** A reader that, where it succeeds at line p, stops at or after p and
      before `end`; the record after it starts one line further on. */
  ghost predicate Advances<T>(read: nat -> Result<(T, nat)>, end: nat)
  {
    forall p: nat :: read(p).Ok? ==> p < end && read(p).value.1 >= p
  }

  /** `while True: out.append(read(f)); f.readline()` from line p: the
      loop stops normally only where `read` raises IndexError; any other
      exception escapes. */
  function Scan<T>(read: nat -> Result<(T, nat)>, end: nat, p: nat): Result<seq<T>>
    requires Advances(read, end)
    decreases end - p
  {
    match read(p)
    case Err(IndexError) => Ok([])
    case Err(e) => Err(e)
    case Ok((x, q)) =>
      var rest :- Scan(read, end, q + 1);
      Ok([x] + rest)
  }

  /** `Irrep(f=f, nsym_group=nsymGroup)` as a reader of records: the irrep
      at line p and the line after it. */
  function Record(lines: seq<string>, nsymGroup: int): nat -> Result<(Irrep, nat)>
  {
    p => MachineIrrep(lines, p, nsymGroup)
  }

  /** Reading an irrep succeeds only on a line of the file and moves forward. */
  lemma RecordAdvances(lines: seq<string>, nsymGroup: int)
    ensures Advances(Record(lines, nsymGroup), |lines|)
  {
    forall p: nat | MachineIrrep(lines, p, nsymGroup).Ok?
      ensures p < |lines| && MachineIrrep(lines, p, nsymGroup).value.1 >= p
    {
      MachineIrrepProgress(lines, p, nsymGroup);
    }
  }

  /** The record loop of the legacy reader from line p: `Irrep(f=f,
      nsym_group=nsym)` then a separator line, until IndexError (at the end
      of the file, among other places). */
  function LegacyIrreps(lines: seq<string>, p: nat, nsymGroup: int): Result<seq<Irrep>>
  {
    RecordAdvances(lines, nsymGroup);
    Scan(Record(lines, nsymGroup), |lines|, p)
  }

  /** `[s for s in irreps if s.name.startswith("-")]` when `spinor`, those
      without the prefix otherwise. */
  function SpinorFilter(irreps: seq<Irrep>, spinor: bool): seq<Irrep>
  {
    if |irreps| == 0 then []
    else (if StartsWith(irreps[0].name, "-") == spinor then [irreps[0]] else []) + SpinorFilter(irreps[1..], spinor)
  }

  /** `IrrepTable(SGnumber, spinor, fromUser=False)` on a file of `lines`:
      header, `nsym` symmetry lines, "#", the number of k-points, the irrep
      records; then only the irreps of the requested kind are kept, `nsym`
      is halved (truncating) and the symmetries are cut to that many. */
  function LegacyTable(lines: seq<string>, number: int, spinor: bool): Result<IrrepTable>
  {
    var hd :- LegacyHeader(LineAt(lines, 0));
    var symmetries :- MachineSymmetries(lines, 1, RangeLen(hd.0));
    LegacyRecords(lines, number, spinor, hd.0, hd.1, symmetries)
  }

  /** The legacy table after its symmetries: "#", the number of k-points
      and the irrep records, then the filtering and halving. */
  function LegacyRecords(lines: seq<string>, number: int, spinor: bool, nsym: int, name: string,
                         symmetries: seq<SymopTable>): Result<IrrepTable>
  {
    var q := 1 + RangeLen(nsym);
    if !IsHash(LineAt(lines, q)) then Err(AssertionError)
    else
      match ParseInt(LineAt(lines, q + 1))
      case None => Err(ValueError)
      case Some(nk) =>
        var irreps :- LegacyIrreps(lines, q + 2, nsym);
        var half := HalfTrunc(nsym);
        Ok(IrrepTable(number, Some(name), spinor, half, PyPrefix(symmetries, half), Some(nk), SpinorFilter(irreps, spinor)))
  }

  /** `IrrepTable.__init__` with fromUser=False, reading the file line by line. */
  method LoadLegacy(lines: seq<string>, number: int, spinor: bool) returns (res: Result<IrrepTable>)
    ensures res == LegacyTable(lines, number, spinor)
  {
    var f := new LineReader(lines);
    var first := f.ReadLine();
    var hd := LegacyHeader(first);
    if hd.Err? {
      return Err(hd.error);
    }
    res := ReadLegacyBody(f, number, spinor, hd.value.0, hd.value.1);
  }

  /** The legacy reader after the header line: the symmetries, then the rest. */
  method ReadLegacyBody(f: LineReader, number: int, spinor: bool, nsym: int, name: string) returns (res: Result<IrrepTable>)
    requires f.pos == 1
    modifies f
    ensures res == match MachineSymmetries(f.lines, 1, RangeLen(nsym))
      case Err(e) => Err(e)
      case Ok(symmetries) => LegacyRecords(f.lines, number, spinor, nsym, name, symmetries)
  {
    var symmetries := ReadEach(f, nsym, ParseMachine);
    if symmetries.Err? {
      return Err(symmetries.error);
    }
    res := ReadRecords(f, number, spinor, nsym, name, symmetries.value);
  }

  /** `[parse(f.readline()) for i in range(n)]`. */
  method ReadEach<T>(f: LineReader, n: int, parse: string -> Result<T>) returns (res: Result<seq<T>>)
    modifies f
    ensures res == ParseEach(f.lines, old(f.pos), RangeLen(n), parse)
    ensures res.Ok? ==> f.pos == old(f.pos) + RangeLen(n)
  {
    ghost var p := f.pos;
    var out: seq<T> := [];
    var i := 0;
    while i < n
      invariant 0 <= i <= RangeLen(n) && f.pos == p + i
      invariant ParseEach(f.lines, p, i, parse) == Ok(out)
    {
      var line := f.ReadLine();
      var x := parse(line);
      if x.Err? {
        assert ParseEach(f.lines, p, i + 1, parse) == Err(x.error);
        ParseEachErr(f.lines, p, i + 1, RangeLen(n), parse);
        return Err(x.error);
      }
      out := out + [x.value];
      i := i + 1;
    }
    assert i == RangeLen(n);
    return Ok(out);
  }

  /** The rest of the legacy reader, from the "#" line on. */
  method ReadRecords(f: LineReader, number: int, spinor: bool, nsym: int, name: string, symmetries: seq<SymopTable>)
    returns (res: Result<IrrepTable>)
    requires f.pos == 1 + RangeLen(nsym)
    modifies f
    ensures res == LegacyRecords(f.lines, number, spinor, nsym, name, symmetries)
  {
    var hash := f.ReadLine();
    if !IsHash(hash) {
      return Err(AssertionError);
    }
    var nkLine := f.ReadLine();
    var nk := ParseInt(nkLine);
    if nk.None? {
      return Err(ValueError);
    }
    var irreps := ReadIrreps(f, nsym);
    if irreps.Err? {
      return Err(irreps.error);
    }
    var half := HalfTrunc(nsym);
    return Ok(IrrepTable(number, Some(name), spinor, half, PyPrefix(symmetries, half), Some(nk.value),
                         SpinorFilter(irreps.value, spinor)));
  }

  /** `while True: irreps.append(Irrep(f=f, nsym_group=nsym)); f.readline()`,
      ended by IndexError. */
  method ReadIrreps(f: LineReader, nsym: int) returns (res: Result<seq<Irrep>>)
    modifies f
    ensures res == LegacyIrreps(f.lines, old(f.pos), nsym)
  {
    ghost var read := Record(f.lines, nsym);
    RecordAdvances(f.lines, nsym);
    ghost var start := f.pos;
    var irreps: seq<Irrep> := [];
    PrependEmpty(Scan(read, |f.lines|, start));
    while true
      invariant Scan(read, |f.lines|, start) == Prepend(irreps, Scan(read, |f.lines|, f.pos))
      decreases |f.lines| - f.pos
    {
      var irr := ReadRecord(f, nsym, irreps);
      if irr.Err? {
        if irr.error == IndexError {
          break;
        }
        return Err(irr.error);
      }
      irreps := irreps + [irr.value];
    }
    return Ok(irreps);
  }

  /** One turn of the record loop: an irrep, then the separator line. */
  method ReadRecord(f: LineReader, nsym: int, ghost acc: seq<Irrep>) returns (irr: Result<Irrep>)
    modifies f
    ensures Advances(Record(f.lines, nsym), |f.lines|)
    ensures irr.Ok? ==>
      && old(f.pos) < |f.lines| && f.pos > old(f.pos)
      && Prepend(acc, Scan(Record(f.lines, nsym), |f.lines|, old(f.pos)))
         == Prepend(acc + [irr.value], Scan(Record(f.lines, nsym), |f.lines|, f.pos))
    ensures irr.Err? ==>
      Prepend(acc, Scan(Record(f.lines, nsym), |f.lines|, old(f.pos)))
      == (if irr.error == IndexError then Ok(acc) else Err(irr.error))
  {
    RecordAdvances(f.lines, nsym);
    ghost var p := f.pos;
    irr := ReadMachineIrrep(f, nsym);
    if irr.Err? {
      ScanStop(Record(f.lines, nsym), |f.lines|, p, acc, irr.error);
      return;
    }
    SkipSeparator(f, Record(f.lines, nsym), p, acc, irr.value);
  }

  /** The separator line after a record read from line p. */
  method SkipSeparator<T>(f: LineReader, ghost read: nat -> Result<(T, nat)>, ghost p: nat, ghost acc: seq<T>, ghost x: T)
    requires Advances(read, |f.lines|) && read(p) == Ok((x, f.pos))
    modifies f
    ensures p < |f.lines| && f.pos == old(f.pos) + 1 && f.pos > p
    ensures Prepend(acc, Scan(read, |f.lines|, p)) == Prepend(acc + [x], Scan(read, |f.lines|, f.pos))
  {
    ScanStep(read, |f.lines|, p, acc, x, f.pos);
    var separator := f.ReadLine();
  }

  /** `acc` in front of a result. */
  function Prepend<T>(acc: seq<T>, r: Result<seq<T>>): Result<seq<T>>
  {
    match r
    case Ok(rest) => Ok(acc + rest)
    case Err(e) => Err(e)
  }

  /** One turn of the record loop: a record read. */
  lemma ScanStep<T>(read: nat -> Result<(T, nat)>, end: nat, p: nat, acc: seq<T>, x: T, q: nat)
    requires Advances(read, end) && read(p) == Ok((x, q))
    ensures p < end && q + 1 > p
    ensures Prepend(acc, Scan(read, end, p)) == Prepend(acc + [x], Scan(read, end, q + 1))
  {
    match Scan(read, end, q + 1)
    case Ok(rest) =>
      assert acc + ([x] + rest) == (acc + [x]) + rest;
    case Err(_) =>
  }

  /** The last turn of the record loop. */
  lemma ScanStop<T>(read: nat -> Result<(T, nat)>, end: nat, p: nat, acc: seq<T>, e: PyError)
    requires Advances(read, end) && read(p) == Err(e)
    ensures Prepend(acc, Scan(read, end, p)) == if e == IndexError then Ok(acc) else Err(e)
  {
    assert acc + [] == acc;
  }

  lemma PrependEmpty<T>(r: Result<seq<T>>)
    ensures Prepend([], r) == r
  {
    if r.Ok? {
      assert [] + r.value == r.value;
    }
  }

  lemma {:induction false} ParseEachErr<T>(lines: seq<string>, p: nat, m: nat, n: nat, parse: string -> Result<T>)
    requires m <= n && ParseEach(lines, p, m, parse).Err?
    ensures ParseEach(lines, p, n, parse) == ParseEach(lines, p, m, parse)
    decreases n
  {
    if n > m {
      ParseEachErr(lines, p, m, n - 1, parse);
    }
  }

  // ---- what the legacy reader promises ----

  /** The "#" test on the stripped line and the single-token test agree. */
  lemma HashLine(line: string)
    ensures IsHash(line) <==> Strip(line) == "#"
  {
    StripToken(line, "#");
  }

  /** The filter keeps exactly the irreps of the requested kind, and the
      two kinds split the records between them. */
  lemma {:induction false} SpinorFilterSpec(irreps: seq<Irrep>, spinor: bool)
    ensures forall irr :: irr in SpinorFilter(irreps, spinor) <==> irr in irreps && StartsWith(irr.name, "-") == spinor
    ensures |SpinorFilter(irreps, spinor)| + |SpinorFilter(irreps, !spinor)| == |irreps|
  {
    if |irreps| > 0 {
      SpinorFilterSpec(irreps[1..], spinor);
      assert irreps == [irreps[0]] + irreps[1..];
    }
  }

  /** Where the record loop stops: the first position at which reading a
      record fails. */
  function StopAt<T>(read: nat -> Result<(T, nat)>, end: nat, p: nat): (s: nat)
    requires Advances(read, end)
    ensures read(s).Err?
    decreases end - p
  {
    match read(p)
    case Err(_) => p
    case Ok((_, q)) => StopAt(read, end, q + 1)
  }

  /** The record loop ends normally exactly when the read that stops it
      raises IndexError; any other exception is the loop's. */
  lemma {:induction false} ScanEnds<T>(read: nat -> Result<(T, nat)>, end: nat, p: nat)
    requires Advances(read, end)
    ensures Scan(read, end, p).Ok? <==> read(StopAt(read, end, p)).error == IndexError
    ensures Scan(read, end, p).Err? ==> Scan(read, end, p).error == read(StopAt(read, end, p)).error
    decreases end - p
  {
    match read(p)
    case Err(_) =>
    case Ok((_, q)) =>
      ScanEnds(read, end, q + 1);
  }

  /** The legacy table: the header's name, `nsym` halved (`int(nsym / 2)`),
      the symmetries cut to that many (none when it is not positive), and
      only the irreps whose name starts with "-" exactly when `spinor`. */
  lemma LegacyTableShape(lines: seq<string>, number: int, spinor: bool)
    requires LegacyTable(lines, number, spinor).Ok?
    ensures LegacyHeader(LineAt(lines, 0)).Ok?
    ensures var hd := LegacyHeader(LineAt(lines, 0)).value;
      && MachineSymmetries(lines, 1, RangeLen(hd.0)).Ok?
      && RecordsShape(lines, number, spinor, hd.0, hd.1, MachineSymmetries(lines, 1, RangeLen(hd.0)).value,
                      LegacyTable(lines, number, spinor).value)
  {
    var hd := LegacyHeader(LineAt(lines, 0)).value;
    var syms := MachineSymmetries(lines, 1, RangeLen(hd.0)).value;
    ParseEachLength(lines, 1, RangeLen(hd.0), ParseMachine);
    LegacyRecordsShape(lines, number, spinor, hd.0, hd.1, syms);
  }

  /** What a legacy table read past its symmetries holds. */
  ghost predicate RecordsShape(lines: seq<string>, number: int, spinor: bool, nsym: int, name: string,
                               symmetries: seq<SymopTable>, t: IrrepTable)
  {
    var q := 1 + RangeLen(nsym);
    && IsHash(LineAt(lines, q)) && t.nk.Some? && ParseInt(LineAt(lines, q + 1)) == Some(t.nk.value)
    && LegacyIrreps(lines, q + 2, nsym).Ok?
    && t.number == number && t.spinor == spinor && t.name == Some(name)
    && t.nsym == HalfTrunc(nsym)
    && |symmetries| == RangeLen(nsym) && |t.symmetries| == RangeLen(t.nsym)
    && t.symmetries == symmetries[..RangeLen(t.nsym)]
    && t.irreps == SpinorFilter(LegacyIrreps(lines, q + 2, nsym).value, spinor)
    && (forall irr :: irr in t.irreps ==> StartsWith(irr.name, "-") == spinor)
  }

  lemma LegacyRecordsShape(lines: seq<string>, number: int, spinor: bool, nsym: int, name: string,
                           symmetries: seq<SymopTable>)
    requires |symmetries| == RangeLen(nsym)
    requires LegacyRecords(lines, number, spinor, nsym, name, symmetries).Ok?
    ensures RecordsShape(lines, number, spinor, nsym, name, symmetries,
                         LegacyRecords(lines, number, spinor, nsym, name, symmetries).value)
  {
    var q := 1 + RangeLen(nsym);
    var irreps := LegacyIrreps(lines, q + 2, nsym).value;
    SpinorFilterSpec(irreps, spinor);
  }

  /** The legacy record loop ends normally only on IndexError, at the
      first record that fails to read. */
  lemma LegacyIrrepsEnd(lines: seq<string>, p: nat, nsymGroup: int)
    ensures Advances(Record(lines, nsymGroup), |lines|)
    ensures var stop := StopAt(Record(lines, nsymGroup), |lines|, p);
      && (LegacyIrreps(lines, p, nsymGroup).Ok? <==> MachineIrrep(lines, stop, nsymGroup) == Err(IndexError))
      && (LegacyIrreps(lines, p, nsymGroup).Err? ==> LegacyIrreps(lines, p, nsymGroup).error == MachineIrrep(lines, stop, nsymGroup).error)
  {
    RecordAdvances(lines, nsymGroup);
    ScanEnds(Record(lines, nsymGroup), |lines|, p);
  }

  lemma {:induction false} ParseEachLength<T>(lines: seq<string>, p: nat, n: nat, parse: string -> Result<T>)
    ensures ParseEach(lines, p, n, parse).Ok? ==> |ParseEach(lines, p, n, parse).value| == n
  {
    if n > 0 {
      ParseEachLength(lines, p, n - 1, parse);
    }
  }
}
