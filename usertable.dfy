/** `IrrepTable.__init__user`: a table read back from the user format
    written by `save4user`.  The lines are reversed and popped one at a
    time: header settings `key=value` up to `symmetries=`, then `nsym`
    symmetry lines (lines that do not parse are skipped), then k-point
    lines each followed by the irreps of its little group. */
module UserTables {
  import opened Wrappers
  import opened Text
  import opened Numbers
  import opened Foreign
  import opened Symop
  import opened KPoints
  import opened Irreps
  import opened Tables
  import opened MachineIrreps

  /** The line readers the user format is parsed with: `str2bool`, and the
      constructors `SymopTable(l, from_user=True)`, `KPoint(line=l)` and
      `Irrep(line=l, k_point=kp)`. */
  datatype Readers<S, !K, I> = Readers(
    parseBool: string -> Option<bool>,
    symop: string -> Result<S>,
    kpoint: string -> Result<K>,
    irrep: (string, K) -> Result<I>)

  function UserReaders(h: Host): Readers<SymopTable, KPoint, Irrep>
  {
    Readers(h.parseBool, Symop.ParseUser, l => KPoints.Parse(l, h), Irreps.ParseUser)
  }

  /** `readlines()[-1::-1]`. */
  function Reversed<T>(s: seq<T>): (r: seq<T>)
    ensures |r| == |s|
  {
    if |s| == 0 then [] else Reversed(s[1..]) + [s[0]]
  }

  /** Reversal puts the k-th element from the end k-th. */
  lemma {:induction false} ReversedAt<T>(s: seq<T>)
    ensures forall k :: 0 <= k < |s| ==> Reversed(s)[k] == s[|s| - 1 - k]
  {
    if |s| > 0 {
      ReversedAt(s[1..]);
    }
  }

  /** Popping the reversed rest of the file yields its next line and
      leaves the reversed rest after it. */
  lemma ReversedPop<T>(s: seq<T>, i: nat)
    requires i < |s|
    ensures |Reversed(s[i..])| == |s| - i
    ensures Reversed(s[i..])[|s| - i - 1] == s[i]
    ensures Reversed(s[i..])[..|s| - i - 1] == Reversed(s[i + 1..])
  {
    assert s[i..][1..] == s[i + 1..];
    assert Reversed(s[i..]) == Reversed(s[i + 1..]) + [s[i]];
  }

  // ---------------------------------------------------------------
  // Header
  // ---------------------------------------------------------------

  /** The key of a header line: what precedes its first `=`, lower-cased. */
  function Key(line: string): string
  {
    Lower(SplitOn(Strip(line), '=')[0])
  }

  /** What follows the first `=` of a header line, up to a second one. */
  function Setting(line: string): Option<string>
  {
    var l := SplitOn(Strip(line), '=');
    if |l| < 2 then None else Some(l[1])
  }

  /** `str.lower()` never yields a capital letter, so a line keyed `SG`
      never compares equal to "SG" and the space-group check is never made. */
  lemma NeverSG(line: string)
    ensures Key(line) != "SG"
  {
    var key := Key(line);
    if |key| == 2 {
      var w := SplitOn(Strip(line), '=')[0];
      assert key[0] == LowerChar(w[0]);
      assert key[1] == Lower(w[1..])[0] == LowerChar(w[1]);
    }
  }

  /** What the header yields: `name` (unset when no line names it), `nsym`,
      the symmetries, and the index of the first line after them. */
  datatype UserHead<S> = UserHead(name: Option<string>, nsym: int, symmetries: seq<S>, next: nat)

  /** The header loop from line i, with `name` and `nsym` as the lines
      before i have set them. */
  function Head<S, K, I>(lines: seq<string>, i: nat, number: int, spinor: bool, rd: Readers<S, K, I>,
                name: Option<string>, nsym: Option<int>): Result<UserHead<S>>
    decreases |lines| - i
  {
    if i >= |lines| then Err(AttributeError)
    else
      var l := SplitOn(Strip(lines[i]), '=');
      var key := Lower(l[0]);
      if key == "SG" then
        if |l| < 2 then Err(IndexError)
        else
          match ParseInt(l[1])
          case None => Err(ValueError)
          case Some(v) =>
            if v != number then Err(AssertionError)
            else Head(lines, i + 1, number, spinor, rd, name, nsym)
      else if key == "name" then
        if |l| < 2 then Err(IndexError)
        else Head(lines, i + 1, number, spinor, rd, Some(l[1]), nsym)
      else if key == "nsym" then
        if |l| < 2 then Err(IndexError)
        else
          match ParseInt(l[1])
          case None => Err(ValueError)
          case Some(n) => Head(lines, i + 1, number, spinor, rd, name, Some(n))
      else if key == "spinor" then
        if |l| < 2 then Err(IndexError)
        else
          match rd.parseBool(l[1])
          case None => Err(HelperError)
          case Some(b) =>
            if b != spinor then Err(AssertionError)
            else Head(lines, i + 1, number, spinor, rd, name, nsym)
      else if key == "symmetries" then
        match nsym
        case None => Err(AttributeError)
        case Some(n) =>
          var syms :- Symmetries(lines, i + 1, n, [], rd.symop);
          Ok(UserHead(name, n, syms.0, syms.1))
      else Head(lines, i + 1, number, spinor, rd, name, nsym)
  }

  /** The inner loop: pop lines until n of them have parsed; running out
      of lines first raises `IndexError`. */
  function Symmetries<T>(lines: seq<string>, i: nat, n: int, acc: seq<T>, parse: string -> Result<T>): Result<(seq<T>, nat)>
    decreases |lines| - i
  {
    if |acc| >= n then Ok((acc, i))
    else if i >= |lines| then Err(IndexError)
    else
      var more := if parse(lines[i]).Ok? then acc + [parse(lines[i]).value] else acc;
      Symmetries(lines, i + 1, n, more, parse)
  }

  /** The lines of lines[i..j] that parse, in order, as what they parse to. */
  function Parsed<T>(lines: seq<string>, i: nat, j: nat, parse: string -> Result<T>): (r: seq<T>)
    requires i <= j <= |lines|
    ensures |r| <= j - i
    decreases j - i
  {
    if i == j then []
    else (if parse(lines[i]).Ok? then [parse(lines[i]).value] else []) + Parsed(lines, i + 1, j, parse)
  }

  /** The symmetries are exactly the first n lines that parse; the last
      line consumed is the n-th that parses; too few such lines is an
      `IndexError`. */
  lemma {:induction false} SymmetriesSpec<T>(lines: seq<string>, i: nat, n: int, acc: seq<T>, parse: string -> Result<T>)
    requires i <= |lines|
    ensures var r := Symmetries(lines, i, n, acc, parse);
      r.Ok? ==>
        && i <= r.value.1 <= |lines|
        && r.value.0 == acc + Parsed(lines, i, r.value.1, parse)
        && |r.value.0| == (if |acc| >= n then |acc| else n)
        && (|acc| < n ==> i < r.value.1 && parse(lines[r.value.1 - 1]).Ok?)
    ensures var r := Symmetries(lines, i, n, acc, parse);
      r.Err? <==> |acc| + |Parsed(lines, i, |lines|, parse)| < n
    ensures Symmetries(lines, i, n, acc, parse).Err? ==> Symmetries(lines, i, n, acc, parse).error == IndexError
    decreases |lines| - i
  {
    if |acc| < n && i < |lines| {
      var head := if parse(lines[i]).Ok? then [parse(lines[i]).value] else [];
      var more := if parse(lines[i]).Ok? then acc + [parse(lines[i]).value] else acc;
      assert more == acc + head;
      SymmetriesSpec(lines, i + 1, n, more, parse);
      var r := Symmetries(lines, i, n, acc, parse);
      assert r == Symmetries(lines, i + 1, n, more, parse);
      if r.Ok? {
        Associative(acc, head, Parsed(lines, i + 1, r.value.1, parse));
      }
    }
  }

  /** The symmetry loop from line i, starting with none. */
  lemma SymmetriesFrom<T>(lines: seq<string>, i: nat, n: int, parse: string -> Result<T>)
    requires i <= |lines|
    ensures var r := Symmetries(lines, i, n, [], parse);
      r.Ok? ==>
        && i <= r.value.1 <= |lines|
        && r.value.0 == Parsed(lines, i, r.value.1, parse)
        && |r.value.0| == RangeLen(n)
        && (n > 0 ==> i < r.value.1 && parse(lines[r.value.1 - 1]).Ok?)
  {
    SymmetriesSpec(lines, i, n, [], parse);
    var r := Symmetries(lines, i, n, [], parse);
    if r.Ok? {
      assert [] + Parsed(lines, i, r.value.1, parse) == Parsed(lines, i, r.value.1, parse);
    }
  }

  /** Where the `symmetries=` line is, at or after i (|lines| if none is). */
  function SymmetriesAt(lines: seq<string>, i: nat): (s: nat)
    ensures i <= |lines| ==> i <= s <= |lines|
    ensures i <= s < |lines| ==> Key(lines[s]) == "symmetries"
    decreases |lines| - i
  {
    if i >= |lines| then |lines|
    else if Key(lines[i]) == "symmetries" then i
    else SymmetriesAt(lines, i + 1)
  }

  /** The last of the lines of lines[i..j] with the given key, if any. */
  function LastWith(lines: seq<string>, i: nat, j: nat, key: string): (r: Option<string>)
    requires i <= j <= |lines|
    ensures r.Some? ==> Key(r.value) == key
    ensures r.None? ==> forall k :: i <= k < j ==> Key(lines[k]) != key
    decreases j - i
  {
    if i == j then None
    else if LastWith(lines, i + 1, j, key).Some? then LastWith(lines, i + 1, j, key)
    else if Key(lines[i]) == key then Some(lines[i])
    else None
  }

  /** `name` after a header line other than `symmetries=`. */
  function NextName(line: string, name: Option<string>): Option<string>
  {
    if Key(line) == "name" && Setting(line).Some? then Setting(line) else name
  }

  /** `nsym` after a header line other than `symmetries=`. */
  function NextNsym(line: string, nsym: Option<int>): Option<int>
  {
    if Key(line) == "nsym" && Setting(line).Some? && ParseInt(Setting(line).value).Some?
    then ParseInt(Setting(line).value) else nsym
  }

  /** One header line other than `symmetries=`: where the header reads on,
      it goes on with the updated settings, and a `spinor=` line agrees. */
  lemma HeadStep<S, K, I>(lines: seq<string>, i: nat, number: int, spinor: bool, rd: Readers<S, K, I>,
                 name: Option<string>, nsym: Option<int>)
    requires i < |lines| && Key(lines[i]) != "symmetries"
    requires Head(lines, i, number, spinor, rd, name, nsym).Ok?
    ensures Head(lines, i, number, spinor, rd, name, nsym)
         == Head(lines, i + 1, number, spinor, rd, NextName(lines[i], name), NextNsym(lines[i], nsym))
    ensures Key(lines[i]) == "spinor" ==> Setting(lines[i]).Some? && rd.parseBool(Setting(lines[i]).value) == Some(spinor)
  {
    NeverSG(lines[i]);
  }

  /** The `symmetries=` line: the symmetries follow it. */
  lemma HeadAtSymmetries<S, K, I>(lines: seq<string>, i: nat, number: int, spinor: bool, rd: Readers<S, K, I>,
                         name: Option<string>, nsym: Option<int>)
    requires i < |lines| && Key(lines[i]) == "symmetries"
    requires Head(lines, i, number, spinor, rd, name, nsym).Ok?
    ensures nsym.Some?
    ensures var n := nsym.value; var r := Symmetries(lines, i + 1, n, [], rd.symop);
      && r.Ok?
      && Head(lines, i, number, spinor, rd, name, nsym) == Ok(UserHead(name, n, r.value.0, r.value.1))
  {
  }

  /** The header ends right after `nsym` symmetries following the first
      `symmetries=` line, which must exist. */
  lemma {:induction false} HeadSymmetries<S, K, I>(lines: seq<string>, i: nat, number: int, spinor: bool, rd: Readers<S, K, I>,
                                          name: Option<string>, nsym: Option<int>, hd: UserHead<S>)
    requires i <= |lines| && Head(lines, i, number, spinor, rd, name, nsym) == Ok(hd)
    ensures var s := SymmetriesAt(lines, i);
      && s < hd.next <= |lines|
      && hd.symmetries == Parsed(lines, s + 1, hd.next, rd.symop)
      && |hd.symmetries| == RangeLen(hd.nsym)
      && (hd.nsym > 0 ==> rd.symop(lines[hd.next - 1]).Ok?)
    decreases |lines| - i, 1
  {
    if Key(lines[i]) == "symmetries" {
      HeadAtSymmetries(lines, i, number, spinor, rd, name, nsym);
      SymmetriesFrom(lines, i + 1, nsym.value, rd.symop);
      assert SymmetriesAt(lines, i) == i;
    } else {
      HeadSymmetriesStep(lines, i, number, spinor, rd, name, nsym, hd);
    }
  }

  /** HeadSymmetries past a header line other than `symmetries=`. */
  lemma {:induction false} HeadSymmetriesStep<S, K, I>(lines: seq<string>, i: nat, number: int, spinor: bool,
                                              rd: Readers<S, K, I>, name: Option<string>, nsym: Option<int>,
                                              hd: UserHead<S>)
    requires i < |lines| && Key(lines[i]) != "symmetries"
    requires Head(lines, i, number, spinor, rd, name, nsym) == Ok(hd)
    ensures var s := SymmetriesAt(lines, i);
      && s < hd.next <= |lines|
      && hd.symmetries == Parsed(lines, s + 1, hd.next, rd.symop)
      && |hd.symmetries| == RangeLen(hd.nsym)
      && (hd.nsym > 0 ==> rd.symop(lines[hd.next - 1]).Ok?)
    decreases |lines| - i, 0
  {
    HeadStep(lines, i, number, spinor, rd, name, nsym);
    HeadSymmetries(lines, i + 1, number, spinor, rd, NextName(lines[i], name), NextNsym(lines[i], nsym), hd);
    assert SymmetriesAt(lines, i) == SymmetriesAt(lines, i + 1);
  }

  /** `name` is that of the last `name=` line before `symmetries=`, or as
      before i when there is none. */
  lemma {:induction false} HeadName<S, K, I>(lines: seq<string>, i: nat, number: int, spinor: bool, rd: Readers<S, K, I>,
                                    name: Option<string>, nsym: Option<int>)
    requires i <= |lines| && Head(lines, i, number, spinor, rd, name, nsym).Ok?
    ensures var hd := Head(lines, i, number, spinor, rd, name, nsym).value;
      var last := LastWith(lines, i, SymmetriesAt(lines, i), "name");
      hd.name == if last.Some? then Setting(last.value) else name
    decreases |lines| - i
  {
    var s := SymmetriesAt(lines, i);
    if Key(lines[i]) == "symmetries" {
      HeadAtSymmetries(lines, i, number, spinor, rd, name, nsym);
      assert s == i;
    } else {
      HeadStep(lines, i, number, spinor, rd, name, nsym);
      HeadName(lines, i + 1, number, spinor, rd, NextName(lines[i], name), NextNsym(lines[i], nsym));
      assert s == SymmetriesAt(lines, i + 1);
    }
  }

  /** `nsym` is what the last `nsym=` line before `symmetries=` reads as,
      or as before i when there is none. */
  lemma {:induction false} HeadNsym<S, K, I>(lines: seq<string>, i: nat, number: int, spinor: bool, rd: Readers<S, K, I>,
                                    name: Option<string>, nsym: Option<int>)
    requires i <= |lines| && Head(lines, i, number, spinor, rd, name, nsym).Ok?
    ensures var hd := Head(lines, i, number, spinor, rd, name, nsym).value;
      var last := LastWith(lines, i, SymmetriesAt(lines, i), "nsym");
      && (last.Some? ==> Setting(last.value).Some? && ParseInt(Setting(last.value).value) == Some(hd.nsym))
      && (last.None? ==> nsym == Some(hd.nsym))
    decreases |lines| - i
  {
    var s := SymmetriesAt(lines, i);
    if Key(lines[i]) == "symmetries" {
      HeadAtSymmetries(lines, i, number, spinor, rd, name, nsym);
      assert s == i;
    } else {
      HeadStep(lines, i, number, spinor, rd, name, nsym);
      HeadNsym(lines, i + 1, number, spinor, rd, NextName(lines[i], name), NextNsym(lines[i], nsym));
      assert s == SymmetriesAt(lines, i + 1);
    }
  }

  /** Every `spinor=` line before `symmetries=` agrees with the requested
      spinor. */
  lemma {:induction false} HeadSpinor<S, K, I>(lines: seq<string>, i: nat, number: int, spinor: bool, rd: Readers<S, K, I>,
                                      name: Option<string>, nsym: Option<int>)
    requires i <= |lines| && Head(lines, i, number, spinor, rd, name, nsym).Ok?
    ensures forall k :: i <= k < SymmetriesAt(lines, i) && Key(lines[k]) == "spinor" ==>
      Setting(lines[k]).Some? && rd.parseBool(Setting(lines[k]).value) == Some(spinor)
    decreases |lines| - i
  {
    var s := SymmetriesAt(lines, i);
    if Key(lines[i]) == "symmetries" {
      assert s == i;
    } else {
      HeadStep(lines, i, number, spinor, rd, name, nsym);
      HeadSpinor(lines, i + 1, number, spinor, rd, NextName(lines[i], name), NextNsym(lines[i], nsym));
      assert s == SymmetriesAt(lines, i + 1);
    }
  }

  // ---------------------------------------------------------------
  // Body
  // ---------------------------------------------------------------

  /** The k-point in effect after line l: l itself when it reads as one. */
  function NextKPoint<S, K, I>(l: string, kp: Option<K>, rd: Readers<S, K, I>): Option<K>
  {
    if rd.kpoint(l).Ok? then Some(rd.kpoint(l).value) else kp
  }

  /** What line l adds to the irreps: itself, read as an irrep of kp, when
      it is not a k-point line (nothing when there is no k-point yet). */
  function Emitted<S, K, I>(l: string, kp: Option<K>, rd: Readers<S, K, I>): seq<I>
  {
    if rd.kpoint(l).Err? && kp.Some? && rd.irrep(l, kp.value).Ok? then [rd.irrep(l, kp.value).value] else []
  }

  /** The lines with their surrounding whitespace stripped. */
  function Stripped(ls: seq<string>): (r: seq<string>)
    ensures |r| == |ls|
  {
    if |ls| == 0 then [] else [Strip(ls[0])] + Stripped(ls[1..])
  }

  lemma {:induction false} StrippedAt(ls: seq<string>, i: nat)
    requires i < |ls|
    ensures Stripped(ls)[i] == Strip(ls[i])
  {
    if i > 0 {
      StrippedAt(ls[1..], i - 1);
    }
  }

  /** The body loop from stripped line i, with kp the last k-point read: a
      line that reads as a k-point replaces it, any other line is tried as
      an irrep of it, and lines that fail either way are dropped. */
  function Body<S, K, I>(sl: seq<string>, i: nat, kp: Option<K>, rd: Readers<S, K, I>): seq<I>
    decreases |sl| - i
  {
    if i >= |sl| then []
    else Emitted(sl[i], kp, rd) + Body(sl, i + 1, NextKPoint(sl[i], kp, rd), rd)
  }

  /** The k-point the last k-point line of sl[i0..n] reads as, if any. */
  function LastKPoint<S, K, I>(sl: seq<string>, i0: nat, n: nat, rd: Readers<S, K, I>): Option<K>
    requires i0 <= n <= |sl|
    decreases n
  {
    if n == i0 then None
    else if rd.kpoint(sl[n - 1]).Ok? then Some(rd.kpoint(sl[n - 1]).value)
    else LastKPoint(sl, i0, n - 1, rd)
  }

  /** Each line of sl[i0..n] that is not a k-point but reads as an irrep of
      the closest k-point line above it (within sl[i0..n]), as that irrep. */
  function Bound<S, K, I>(sl: seq<string>, i0: nat, n: nat, rd: Readers<S, K, I>): seq<I>
    requires i0 <= n <= |sl|
    decreases n
  {
    if n == i0 then []
    else Bound(sl, i0, n - 1, rd) + Emitted(sl[n - 1], LastKPoint(sl, i0, n - 1, rd), rd)
  }

  lemma {:induction false} BodyBoundFrom<S, K, I>(sl: seq<string>, i0: nat, i: nat, rd: Readers<S, K, I>)
    requires i0 <= i <= |sl|
    ensures Bound(sl, i0, i, rd) + Body(sl, i, LastKPoint(sl, i0, i, rd), rd) == Bound(sl, i0, |sl|, rd)
    decreases |sl| - i
  {
    if i < |sl| {
      var kp := LastKPoint(sl, i0, i, rd);
      var next := NextKPoint(sl[i], kp, rd);
      BodyBoundFrom(sl, i0, i + 1, rd);
      assert LastKPoint(sl, i0, i + 1, rd) == next;
      assert Bound(sl, i0, i + 1, rd) == Bound(sl, i0, i, rd) + Emitted(sl[i], kp, rd);
      assert Body(sl, i, kp, rd) == Emitted(sl[i], kp, rd) + Body(sl, i + 1, next, rd);
      Associative(Bound(sl, i0, i, rd), Emitted(sl[i], kp, rd), Body(sl, i + 1, next, rd));
    }
  }

  /** The body loop keeps exactly the irreps bound to the k-point above them. */
  lemma BodyBound<S, K, I>(sl: seq<string>, i0: nat, rd: Readers<S, K, I>)
    requires i0 <= |sl|
    ensures Body(sl, i0, None, rd) == Bound(sl, i0, |sl|, rd)
  {
    BodyBoundFrom(sl, i0, i0, rd);
  }

  // ---------------------------------------------------------------
  // Table
  // ---------------------------------------------------------------

  /** The table read with the given line readers. */
  function Scan(lines: seq<string>, number: int, spinor: bool, rd: Readers<SymopTable, KPoint, Irrep>): Result<IrrepTable>
  {
    var hd :- Head(lines, 0, number, spinor, rd, None, None);
    Ok(IrrepTable(number, hd.name, spinor, hd.nsym, hd.symmetries, None, Body(Stripped(lines), hd.next, None, rd)))
  }

  /** `IrrepTable(SG, spinor, fromUser=True)` on the lines of the file. */
  function UserTable(lines: seq<string>, number: int, spinor: bool, h: Host): Result<IrrepTable>
  {
    Scan(lines, number, spinor, UserReaders(h))
  }

  /** A table read from the user format holds `nsym` symmetries (the lines
      after `symmetries=` that parse) and the irreps bound to k-points
      after them. */
  lemma UserTableShape(lines: seq<string>, number: int, spinor: bool, rd: Readers<SymopTable, KPoint, Irrep>)
    requires Scan(lines, number, spinor, rd).Ok?
    ensures var t := Scan(lines, number, spinor, rd).value;
      var hd := Head(lines, 0, number, spinor, rd, None, None).value;
      var s := SymmetriesAt(lines, 0);
      && s < hd.next <= |lines|
      && t.number == number && t.spinor == spinor && t.nk.None?
      && t.symmetries == Parsed(lines, s + 1, hd.next, rd.symop)
      && |t.symmetries| == RangeLen(t.nsym)
      && t.irreps == Bound(Stripped(lines), hd.next, |lines|, rd)
  {
    var hd := Head(lines, 0, number, spinor, rd, None, None).value;
    HeadSymmetries(lines, 0, number, spinor, rd, None, None, hd);
    BodyBound(Stripped(lines), hd.next, rd);
  }

  /** `lines`, reversed, as the list `__init__user` pops from. */
  class Stack {
    var items: seq<string>

    constructor (lines: seq<string>)
      ensures items == Reversed(lines)
    {
      items := Reversed(lines);
    }

    /** `lines.pop()`. */
    method Pop() returns (r: Result<string>)
      modifies this
      ensures old(items) == [] ==> r == Err(IndexError) && items == []
      ensures old(items) != [] ==> r == Ok(old(items)[|old(items)| - 1]) && items == old(items)[..|old(items)| - 1]
    {
      if |items| == 0 {
        r := Err(IndexError);
      } else {
        r := Ok(items[|items| - 1]);
        items := items[..|items| - 1];
      }
    }
  }

  /** The symmetry loop, popping from the stack. */
  method ReadSymmetries<S>(st: Stack, ghost lines: seq<string>, ghost i: nat, n: int, parse: string -> Result<S>)
    returns (res: Result<seq<S>>, ghost next: nat)
    requires i <= |lines| && st.items == Reversed(lines[i..])
    modifies st
    ensures var r := Symmetries(lines, i, n, [], parse);
      && res.Ok? == r.Ok?
      && (res.Ok? ==> res.value == r.value.0 && next == r.value.1)
      && (res.Err? ==> res.error == r.error)
    ensures res.Ok? ==> next <= |lines| && st.items == Reversed(lines[next..])
  {
    next := i;
    var syms: seq<S> := [];
    ghost var j := i;
    while |syms| < n
      invariant i <= j <= |lines| && st.items == Reversed(lines[j..])
      invariant Symmetries(lines, i, n, [], parse) == Symmetries(lines, j, n, syms, parse)
      decreases |lines| - j
    {
      var raw := st.Pop();
      if raw.Err? {
        res := Err(IndexError);
        return;
      }
      ReversedPop(lines, j);
      j := j + 1;
      var op := parse(raw.value);
      if op.Ok? {
        syms := syms + [op.value];
      }
    }
    res := Ok(syms);
    next := j;
  }

  /** The header loop, popping from the stack. */
  method ReadHead<S, K, I>(st: Stack, ghost lines: seq<string>, number: int, spinor: bool, rd: Readers<S, K, I>)
    returns (res: Result<(Option<string>, int, seq<S>)>, ghost next: nat)
    requires st.items == Reversed(lines)
    modifies st
    ensures var r := Head(lines, 0, number, spinor, rd, None, None);
      && res.Ok? == r.Ok?
      && (res.Ok? ==> res.value == (r.value.name, r.value.nsym, r.value.symmetries) && next == r.value.next)
      && (res.Err? ==> res.error == r.error)
    ensures res.Ok? ==> next <= |lines| && st.items == Reversed(lines[next..])
  {
    ghost var i: nat := 0;
    next := 0;
    var name: Option<string> := None;
    var nsym: Option<int> := None;
    assert lines[0..] == lines;
    while |st.items| > 0
      invariant i <= |lines| && st.items == Reversed(lines[i..])
      invariant Head(lines, 0, number, spinor, rd, None, None) == Head(lines, i, number, spinor, rd, name, nsym)
      decreases |st.items|
    {
      ReversedPop(lines, i);
      var raw := st.Pop();
      var l := SplitOn(Strip(raw.value), '=');
      var key := Lower(l[0]);
      i := i + 1;
      if key == "SG" {
        if |l| < 2 {
          res := Err(IndexError);
          return;
        }
        var v := ParseInt(l[1]);
        if v.None? {
          res := Err(ValueError);
          return;
        }
        if v.value != number {
          res := Err(AssertionError);
          return;
        }
      } else if key == "name" {
        if |l| < 2 {
          res := Err(IndexError);
          return;
        }
        name := Some(l[1]);
      } else if key == "nsym" {
        if |l| < 2 {
          res := Err(IndexError);
          return;
        }
        var v := ParseInt(l[1]);
        if v.None? {
          res := Err(ValueError);
          return;
        }
        nsym := v;
      } else if key == "spinor" {
        if |l| < 2 {
          res := Err(IndexError);
          return;
        }
        var b := rd.parseBool(l[1]);
        if b.None? {
          res := Err(HelperError);
          return;
        }
        if b.value != spinor {
          res := Err(AssertionError);
          return;
        }
      } else if key == "symmetries" {
        if nsym.None? {
          res := Err(AttributeError);
          return;
        }
        var syms;
        syms, next := ReadSymmetries(st, lines, i, nsym.value, rd.symop);
        if syms.Err? {
          res := Err(syms.error);
          return;
        }
        res := Ok((name, nsym.value, syms.value));
        return;
      }
    }
    res := Err(AttributeError);
  }

  /** One body line: a k-point line replaces the k-point, any other line
      is tried as an irrep of it. */
  method ReadBodyLine<S, K, I>(l: string, kp: Option<K>, rd: Readers<S, K, I>) returns (kp': Option<K>, out: seq<I>)
    ensures kp' == NextKPoint(l, kp, rd) && out == Emitted(l, kp, rd)
  {
    kp', out := kp, [];
    var k := rd.kpoint(l);
    if k.Ok? {
      kp' := Some(k.value);
    } else if kp.Some? {
      var irr := rd.irrep(l, kp.value);
      if irr.Ok? {
        out := [irr.value];
      }
    }
  }

  /** The body loop, popping from the stack until it is empty. */
  method ReadBody<S, K, I>(st: Stack, ghost lines: seq<string>, ghost i0: nat, rd: Readers<S, K, I>) returns (irreps: seq<I>)
    requires i0 <= |lines| && st.items == Reversed(lines[i0..])
    modifies st
    ensures irreps == Body(Stripped(lines), i0, None, rd)
  {
    irreps := [];
    var kp: Option<K> := None;
    ghost var i := i0;
    ghost var sl := Stripped(lines);
    while |st.items| > 0
      invariant i0 <= i <= |lines| && st.items == Reversed(lines[i..])
      invariant Body(sl, i0, None, rd) == irreps + Body(sl, i, kp, rd)
      decreases |st.items|
    {
      ReversedPop(lines, i);
      StrippedAt(lines, i);
      var raw := st.Pop();
      var l := Strip(raw.value);
      var kp', out := ReadBodyLine(l, kp, rd);
      assert Body(sl, i, kp, rd) == out + Body(sl, i + 1, kp', rd);
      Associative(irreps, out, Body(sl, i + 1, kp', rd));
      irreps, kp, i := irreps + out, kp', i + 1;
    }
  }

  /** `__init__user` on the lines of the file, with the given readers. */
  method ReadTable(lines: seq<string>, number: int, spinor: bool, rd: Readers<SymopTable, KPoint, Irrep>) returns (res: Result<IrrepTable>)
    ensures res == Scan(lines, number, spinor, rd)
  {
    var st := new Stack(lines);
    assert lines[0..] == lines;
    var hd;
    ghost var next;
    hd, next := ReadHead(st, lines, number, spinor, rd);
    if hd.Err? {
      return Err(hd.error);
    }
    var irreps := ReadBody(st, lines, next, rd);
    res := Ok(IrrepTable(number, hd.value.0, spinor, hd.value.1, hd.value.2, None, irreps));
  }

  /** `IrrepTable(SG, spinor, fromUser=True)`, reading the given lines. */
  method LoadUser(lines: seq<string>, number: int, spinor: bool, h: Host) returns (res: Result<IrrepTable>)
    ensures res == UserTable(lines, number, spinor, h)
  {
    res := ReadTable(lines, number, spinor, UserReaders(h));
  }
}
