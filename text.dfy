/** The Python string operations the table reader relies on: `str.split()`,
    `str.split(c)`, `str.strip()`, `str.lower()`, `str.startswith` and
    `sep.join`. Whitespace is what Python's `str.isspace` accepts, which
    is also what `int()` and `float()` skip around a literal. */
module Text {

  /** Python's `str.isspace`: \t to \r, \x1c to \x1f and the space in
      ASCII, and the Unicode separators and spaces above it. */
  predicate IsSpace(c: char)
  {
    if c < '\U{0080}' then
      || c == ' ' || c == '\t' || c == '\n' || c == '\r' || c == '\U{000B}' || c == '\U{000C}'
      || c == '\U{001C}' || c == '\U{001D}' || c == '\U{001E}' || c == '\U{001F}'
    else
      c == '\U{0085}' || c == '\U{00A0}' || c == '\U{1680}' || c == '\U{2000}'
      || c == '\U{2001}' || c == '\U{2002}' || c == '\U{2003}' || c == '\U{2004}'
      || c == '\U{2005}' || c == '\U{2006}' || c == '\U{2007}' || c == '\U{2008}'
      || c == '\U{2009}' || c == '\U{200A}' || c == '\U{2028}' || c == '\U{2029}'
      || c == '\U{202F}' || c == '\U{205F}' || c == '\U{3000}'
  }

  predicate NoSpace(s: string)
  {
    forall i :: 0 <= i < |s| ==> !IsSpace(s[i])
  }

  predicate AllSpace(s: string)
  {
    forall i :: 0 <= i < |s| ==> IsSpace(s[i])
  }

  /** What `str.split()` can return as one element: non-empty, no whitespace. */
  predicate IsToken(s: string)
  {
    |s| > 0 && NoSpace(s)
  }

  /** Length of the leading run of non-whitespace characters. */
  function TokenLen(s: string): (n: nat)
    ensures n <= |s|
    ensures n < |s| ==> IsSpace(s[n])
    ensures |s| > 0 && !IsSpace(s[0]) ==> n > 0
  {
    if |s| == 0 || IsSpace(s[0]) then 0 else TokenLen(s[1..]) + 1
  }

  /** The leading run has no whitespace in it. */
  lemma {:induction false} TokenLenRun(s: string)
    ensures NoSpace(s[..TokenLen(s)])
  {
    if |s| > 0 && !IsSpace(s[0]) {
      var m := TokenLen(s[1..]);
      TokenLenRun(s[1..]);
      assert s[..m + 1] == [s[0]] + s[1..][..m];
    }
  }

  /** Python's `s.split()`: the maximal runs of non-whitespace, in order. */
  function SplitWs(s: string): (r: seq<string>)
    decreases |s|
  {
    if |s| == 0 then []
    else if IsSpace(s[0]) then SplitWs(s[1..])
    else
      var n := TokenLen(s);
      [s[..n]] + SplitWs(s[n..])
  }

  /** Every element of `s.split()` is a token. */
  lemma {:induction false} SplitWsTokens(s: string)
    ensures forall i :: 0 <= i < |SplitWs(s)| ==> IsToken(SplitWs(s)[i])
    decreases |s|
  {
    if |s| > 0 {
      if IsSpace(s[0]) {
        SplitWsTokens(s[1..]);
      } else {
        TokenLenRun(s);
        SplitWsTokens(s[TokenLen(s)..]);
      }
    }
  }

  lemma {:induction false} TokenLenNoSpace(s: string)
    requires NoSpace(s)
    ensures TokenLen(s) == |s|
  {
    if |s| > 0 {
      TokenLenNoSpace(s[1..]);
    }
  }

  lemma {:induction false} TokenLenAppend(a: string, b: string)
    ensures TokenLen(a) < |a| ==> TokenLen(a + b) == TokenLen(a)
    ensures TokenLen(a) == |a| && (b == [] || IsSpace(b[0])) ==> TokenLen(a + b) == |a|
  {
    if |a| > 0 {
      assert (a + b)[0] == a[0];
      assert (a + b)[1..] == a[1..] + b;
      TokenLenAppend(a[1..], b);
    } else {
      assert a + b == b;
    }
  }

  /** Splitting distributes over a concatenation whose seam is whitespace. */
  lemma {:induction false} SplitWsAppend(a: string, b: string)
    requires a == [] || b == [] || IsSpace(a[|a| - 1]) || IsSpace(b[0])
    ensures SplitWs(a + b) == SplitWs(a) + SplitWs(b)
    decreases |a|
  {
    if a == [] {
      assert a + b == b;
    } else if IsSpace(a[0]) {
      assert (a + b)[1..] == a[1..] + b;
      SplitWsAppend(a[1..], b);
    } else {
      var n := TokenLen(a);
      TokenLenAppend(a, b);
      if n < |a| {
        SplitWsAppendRest(a, b);
      } else {
        TokenLenRun(a);
        assert a[..n] == a && !IsSpace(a[n - 1]);
        var ab := a + b;
        assert TokenLen(ab) == n && ab[..n] == a && ab[n..] == b;
        assert SplitWs(ab) == [a] + SplitWs(b);
        assert a[n..] == [];
        assert SplitWs(a) == [a];
      }
    }
  }

  /** SplitWsAppend when a starts with a token that ends inside a. */
  lemma {:induction false} SplitWsAppendRest(a: string, b: string)
    requires a != [] && !IsSpace(a[0]) && TokenLen(a) < |a|
    requires b == [] || IsSpace(a[|a| - 1]) || IsSpace(b[0])
    ensures SplitWs(a + b) == SplitWs(a) + SplitWs(b)
    decreases |a|, 0
  {
    var n := TokenLen(a);
    var ab := a + b;
    TokenLenAppend(a, b);
    assert ab[0] == a[0] && TokenLen(ab) == n;
    assert ab[..n] == a[..n];
    assert ab[n..] == a[n..] + b;
    assert SplitWs(ab) == [a[..n]] + SplitWs(a[n..] + b);
    SplitWsAppend(a[n..], b);
    assert SplitWs(a) == [a[..n]] + SplitWs(a[n..]);
    Associative([a[..n]], SplitWs(a[n..]), SplitWs(b));
  }

  lemma SplitWsToken(w: string)
    requires IsToken(w)
    ensures SplitWs(w) == [w]
  {
    TokenLenNoSpace(w);
    assert w[..|w|] == w;
    assert w[|w|..] == [];
  }

  lemma {:induction false} SplitWsSpaces(sp: string)
    requires AllSpace(sp)
    ensures SplitWs(sp) == []
  {
    if |sp| > 0 {
      SplitWsSpaces(sp[1..]);
    }
  }

  /** A whitespace separator between two texts separates their tokens. */
  lemma SplitWsSep(a: string, sp: string, b: string)
    requires |sp| > 0 && AllSpace(sp)
    ensures SplitWs(a + sp + b) == SplitWs(a) + SplitWs(b)
  {
    assert a + sp + b == a + (sp + b);
    SplitWsAppend(a, sp + b);
    SplitWsAppend(sp, b);
    SplitWsSpaces(sp);
  }

  /** Whitespace around a text adds no tokens. */
  lemma SplitWsSurround(lead: string, s: string, trail: string)
    requires AllSpace(lead) && AllSpace(trail)
    ensures SplitWs(lead + s + trail) == SplitWs(s)
  {
    SplitWsSpaces(lead);
    SplitWsSpaces(trail);
    assert lead + s + trail == lead + (s + trail);
    SplitWsAppend(lead, s + trail);
    SplitWsAppend(s, trail);
    assert [] + (SplitWs(s) + []) == SplitWs(s);
  }

  /** Two tokens, each followed by a space. */
  lemma SplitWsTwo(a: string, b: string)
    requires IsToken(a) && IsToken(b)
    ensures SplitWs(a + " " + b + " ") == [a, b]
  {
    assert a + " " + b + " " == a + " " + (b + " ");
    SplitWsSep(a, " ", b + " ");
    SplitWsToken(a);
    assert "" + b + " " == b + " ";
    SplitWsSurround("", b, " ");
    SplitWsToken(b);
  }

  lemma Associative<T>(a: seq<T>, b: seq<T>, c: seq<T>)
    ensures a + (b + c) == (a + b) + c
  {
  }

  /** Two tokens, each followed by a space, in front of a text. */
  lemma SplitWsLead(a: string, b: string, c: string)
    requires IsToken(a) && IsToken(b)
    ensures SplitWs(a + " " + (b + " " + c)) == [a, b] + SplitWs(c)
  {
    SplitWsSep(a, " ", b + " " + c);
    SplitWsSep(b, " ", c);
    SplitWsToken(a);
    SplitWsToken(b);
  }

  lemma SplitWsJoin3(a: string, b: string, c: string, sep: string)
    requires |sep| > 0 && AllSpace(sep)
    ensures SplitWs(Join([a, b, c], sep)) == SplitWs(a) + (SplitWs(b) + SplitWs(c))
  {
    assert [a, b, c][1..] == [b, c] && [b, c][1..] == [c];
    assert Join([b, c], sep) == b + sep + c;
    assert Join([a, b, c], sep) == a + sep + Join([b, c], sep);
    SplitWsSep(a, sep, b + sep + c);
    SplitWsSep(b, sep, c);
  }

  /** A text, a whitespace separator and two texts after it whose seam
      is whitespace split into the tokens of each in turn. */
  lemma SplitWsSpaced(a: string, sep: string, b: string, c: string)
    requires |sep| > 0 && AllSpace(sep) && (c == [] || IsSpace(c[0]))
    ensures SplitWs(a + sep + (b + c)) == SplitWs(a) + (SplitWs(b) + SplitWs(c))
  {
    SplitWsSep(a, sep, b + c);
    SplitWsAppend(b, c);
  }

  /** Python's `sep.join(parts)`. */
  function Join(parts: seq<string>, sep: string): string
  {
    if |parts| == 0 then ""
    else if |parts| == 1 then parts[0]
    else parts[0] + sep + Join(parts[1..], sep)
  }

  /** Tokens joined by whitespace split back into the same tokens. */
  lemma {:induction false} SplitWsJoin(parts: seq<string>, sep: string)
    requires forall i :: 0 <= i < |parts| ==> IsToken(parts[i])
    requires |sep| > 0 && AllSpace(sep)
    ensures SplitWs(Join(parts, sep)) == parts
  {
    if |parts| == 1 {
      SplitWsToken(parts[0]);
    } else if |parts| > 1 {
      SplitWsJoin(parts[1..], sep);
      SplitWsSep(parts[0], sep, Join(parts[1..], sep));
      SplitWsToken(parts[0]);
    }
  }

  /** Python's `s.split(c)`: the fields between occurrences of `c`; never empty. */
  function SplitOn(s: string, c: char): (r: seq<string>)
    ensures |r| >= 1
  {
    if |s| == 0 then [""]
    else
      var rest := SplitOn(s[1..], c);
      if s[0] == c then [""] + rest
      else [[s[0]] + rest[0]] + rest[1..]
  }

  lemma {:induction false} SplitOnNone(s: string, c: char)
    requires c !in s
    ensures SplitOn(s, c) == [s]
  {
    if |s| > 0 {
      SplitOnNone(s[1..], c);
      assert [s[0]] + s[1..] == s;
    }
  }

  /** The first field ends at the first occurrence of the separator. */
  lemma {:induction false} SplitOnFirst(a: string, c: char, b: string)
    requires c !in a
    ensures SplitOn(a + [c] + b, c) == [a] + SplitOn(b, c)
  {
    if |a| == 0 {
      assert a + [c] + b == [c] + b;
      assert ([c] + b)[1..] == b;
    } else {
      assert (a + [c] + b)[1..] == a[1..] + [c] + b;
      SplitOnFirst(a[1..], c, b);
      assert [a[0]] + a[1..] == a;
    }
  }

  /** Three fields free of the separator, joined by it, split back. */
  lemma SplitOnThree(a: string, b: string, d: string, c: char)
    requires c !in a && c !in b && c !in d
    ensures SplitOn(a + [c] + (b + [c] + d), c) == [a, b, d]
  {
    SplitOnFirst(a, c, b + [c] + d);
    SplitOnFirst(b, c, d);
    SplitOnNone(d, c);
  }

  /** Index of the first non-whitespace character of s at or after i. */
  function SkipSpaces(s: string, i: nat): (j: nat)
    requires i <= |s|
    ensures i <= j <= |s|
    ensures j < |s| ==> !IsSpace(s[j])
    decreases |s| - i
  {
    if i < |s| && IsSpace(s[i]) then SkipSpaces(s, i + 1) else i
  }

  /** End of s[lo..j] once its trailing whitespace is dropped. */
  function TrimEnd(s: string, lo: nat, j: nat): (k: nat)
    requires lo <= j <= |s|
    ensures lo <= k <= j
  {
    if j > lo && IsSpace(s[j - 1]) then TrimEnd(s, lo, j - 1) else j
  }

  /** Python's `s.strip()`: s without its leading and trailing whitespace. */
  function Strip(s: string): string
  {
    var lo := SkipSpaces(s, 0);
    s[lo..TrimEnd(s, lo, |s|)]
  }

  lemma {:induction false} SkipSpacesAt(s: string, i: nat, stop: nat)
    requires i <= stop <= |s|
    requires forall k :: i <= k < stop ==> IsSpace(s[k])
    requires stop == |s| || !IsSpace(s[stop])
    ensures SkipSpaces(s, i) == stop
    decreases stop - i
  {
    if i < stop {
      SkipSpacesAt(s, i + 1, stop);
    }
  }

  lemma {:induction false} TrimEndAt(s: string, lo: nat, j: nat, stop: nat)
    requires lo <= stop <= j <= |s|
    requires forall k :: stop <= k < j ==> IsSpace(s[k])
    requires stop == lo || !IsSpace(s[stop - 1])
    ensures TrimEnd(s, lo, j) == stop
    decreases j
  {
    if stop < j {
      TrimEndAt(s, lo, j - 1, stop);
    }
  }

  lemma {:induction false} SkipSpacesAll(s: string, i: nat)
    requires i <= |s|
    ensures forall k :: i <= k < SkipSpaces(s, i) ==> IsSpace(s[k])
    decreases |s| - i
  {
    if i < |s| && IsSpace(s[i]) {
      SkipSpacesAll(s, i + 1);
    }
  }

  lemma {:induction false} TrimEndAll(s: string, lo: nat, j: nat)
    requires lo <= j <= |s|
    ensures forall k :: TrimEnd(s, lo, j) <= k < j ==> IsSpace(s[k])
  {
    if j > lo && IsSpace(s[j - 1]) {
      TrimEndAll(s, lo, j - 1);
    }
  }

  /** Stripping removes exactly the whitespace around the text. */
  lemma StripPadded(lead: string, s: string, trail: string)
    requires AllSpace(lead) && AllSpace(trail)
    requires s == [] || (!IsSpace(s[0]) && !IsSpace(s[|s| - 1]))
    ensures Strip(lead + s + trail) == s
  {
    var x := lead + s + trail;
    if s == [] {
      SkipSpacesAt(x, 0, |x|);
      assert x[|x|..|x|] == s;
    } else {
      var a, b := |lead|, |lead| + |s|;
      assert x[a] == s[0] && x[b - 1] == s[|s| - 1];
      SkipSpacesAt(x, 0, a);
      TrimEndAt(x, a, |x|, b);
      assert x[a..b] == s;
    }
  }

  /** A text without tokens is all whitespace. */
  lemma {:induction false} SplitWsEmpty(s: string)
    requires SplitWs(s) == []
    ensures AllSpace(s)
    decreases |s|
  {
    if |s| > 0 {
      SplitWsEmpty(s[1..]);
      assert forall i :: 1 <= i < |s| ==> s[i] == s[1..][i - 1];
    }
  }

  lemma SplitWsFirstToken(s: string, w: string)
    requires |s| > 0 && !IsSpace(s[0]) && SplitWs(s) == [w]
    ensures |w| <= |s| && s == w + s[|w|..] && AllSpace(s[|w|..]) && IsToken(w)
  {
    var n := TokenLen(s);
    SplitWsHead(s);
    SingletonConcat(s[..n], SplitWs(s[n..]), w);
    TokenLenRun(s);
    SplitWsEmpty(s[n..]);
    assert s == s[..n] + s[n..];
  }

  /** A string that starts with a token: that token, then the rest split. */
  lemma SplitWsHead(s: string)
    requires |s| > 0 && !IsSpace(s[0])
    ensures SplitWs(s) == [s[..TokenLen(s)]] + SplitWs(s[TokenLen(s)..])
  {
  }

  lemma SingletonConcat<T>(x: T, ys: seq<T>, w: T)
    requires [x] + ys == [w]
    ensures x == w && ys == []
  {
    assert ([x] + ys)[0] == x;
  }

  lemma SplitWsSingle(s: string, w: string)
    requires SplitWs(s) == [w]
    ensures Strip(s) == w
  {
    var i := SkipSpaces(s, 0);
    SkipSpacesAll(s, 0);
    AllSpaceSlice(s, 0, i);
    assert s == s[0..i] + s[i..|s|];
    SplitWsLeading(s[0..i], s[i..|s|], w);
  }

  /** SplitWsSingle once the leading whitespace is split off. */
  lemma SplitWsLeading(lead: string, rest: string, w: string)
    requires AllSpace(lead) && (rest == [] || !IsSpace(rest[0]))
    requires SplitWs(lead + rest) == [w]
    ensures Strip(lead + rest) == w
  {
    SplitWsAppend(lead, rest);
    SplitWsSpaces(lead);
    assert SplitWs(rest) == [w];
    SplitWsFirstToken(rest, w);
    var trail := rest[|w|..];
    assert lead + rest == lead + w + trail;
    StripPadded(lead, w, trail);
  }

  /** A run of whitespace characters, taken out of s, is all whitespace. */
  lemma AllSpaceSlice(s: string, i: nat, j: nat)
    requires i <= j <= |s|
    requires forall k :: i <= k < j ==> IsSpace(s[k])
    ensures AllSpace(s[i..j])
  {
    assert forall k :: 0 <= k < j - i ==> s[i..j][k] == s[i + k];
  }

  /** s is its stripped text with the removed whitespace on either side. */
  lemma StripSides(s: string)
    ensures var lo := SkipSpaces(s, 0);
            var hi := TrimEnd(s, lo, |s|);
            AllSpace(s[0..lo]) && AllSpace(s[hi..|s|]) && s == s[0..lo] + (Strip(s) + s[hi..|s|])
  {
    var lo := SkipSpaces(s, 0);
    var hi := TrimEnd(s, lo, |s|);
    SkipSpacesAll(s, 0);
    TrimEndAll(s, lo, |s|);
    AllSpaceSlice(s, 0, lo);
    AllSpaceSlice(s, hi, |s|);
    ThreeSlices(s, lo, hi);
  }

  lemma ThreeSlices<T>(s: seq<T>, i: nat, j: nat)
    requires i <= j <= |s|
    ensures s == s[0..i] + (s[i..j] + s[j..|s|])
  {
    assert s[i..|s|] == s[i..j] + s[j..|s|];
    assert s == s[0..i] + s[i..|s|];
  }

  /** A token surrounded by whitespace splits into that token alone. */
  lemma SplitWsPadded(lead: string, w: string, trail: string)
    requires AllSpace(lead) && AllSpace(trail) && IsToken(w)
    ensures SplitWs(lead + (w + trail)) == [w]
  {
    SplitWsSpaces(lead);
    SplitWsSpaces(trail);
    SplitWsToken(w);
    SplitWsAppend(lead, w + trail);
    SplitWsAppend(w, trail);
  }

  /** `s.strip() == w` for a token w holds exactly when w is the only
      token of s. */
  lemma StripToken(s: string, w: string)
    requires IsToken(w)
    ensures Strip(s) == w <==> SplitWs(s) == [w]
  {
    if SplitWs(s) == [w] {
      SplitWsSingle(s, w);
    }
    if Strip(s) == w {
      StripSides(s);
      var lo := SkipSpaces(s, 0);
      SplitWsPadded(s[0..lo], w, s[TrimEnd(s, lo, |s|)..|s|]);
    }
  }

  /** ASCII `str.lower()` on one character. */
  function LowerChar(c: char): char
  {
    if 'A' <= c <= 'Z' then (c as int + 32) as char else c
  }

  /** Python's `s.lower()` on ASCII letters, character by character; other
      letters are kept as they are. */
  function Lower(s: string): (r: string)
    ensures |r| == |s|
  {
    if |s| == 0 then [] else [LowerChar(s[0])] + Lower(s[1..])
  }

  /** Python's `s.startswith(p)`. */
  predicate StartsWith(s: string, p: string)
  {
    |p| <= |s| && s[..|p|] == p
  }
}
