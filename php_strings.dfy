/** The PHP string built-ins the database layer leans on, stated over
    `string` (a sequence of characters): decimal rendering of integers,
    `trim`, `strtoupper`/`strtolower` (ASCII only), `explode`/`implode`,
    `str_replace` and `substr` with a negative length. */
module PhpStrings {

  // ---------------------------------------------------------------------
  // Decimal text of integers (what string interpolation of an int gives)
  // ---------------------------------------------------------------------

  predicate IsDigit(c: char) { '0' <= c <= '9' }

  function DigitChar(d: nat): (c: char)
    requires d < 10
    ensures IsDigit(c) && (c as int) - ('0' as int) == d
  {
    ('0' as int + d) as char
  }

  /** Decimal digits of n, most significant first, without leading zeros. */
  function NatToString(n: nat): (s: string)
    ensures |s| > 0
    ensures forall i :: 0 <= i < |s| ==> IsDigit(s[i])
    decreases n
  {
    if n < 10 then [DigitChar(n)] else NatToString(n / 10) + [DigitChar(n % 10)]
  }

  /** Reads a string of digits as a natural number (the inverse of NatToString). */
  function ParseNat(s: string): nat
    decreases |s|
  {
    if s == [] then 0
    else
      var d := (s[|s| - 1] as int) - ('0' as int);
      ParseNat(s[..|s| - 1]) * 10 + (if 0 <= d then d else 0)
  }

  lemma {:induction false} ParseNatToString(n: nat)
    ensures ParseNat(NatToString(n)) == n
    decreases n
  {
    if n >= 10 {
      var s := NatToString(n);
      assert s[..|s| - 1] == NatToString(n / 10);
      ParseNatToString(n / 10);
    }
  }

  /** PHP's rendering of an int in a string: an optional minus sign and digits. */
  function IntToString(i: int): (s: string)
    ensures |s| > 0
  {
    if i < 0 then "-" + NatToString(-i) else NatToString(i)
  }

  function ParseInt(s: string): int
  {
    if |s| > 0 && s[0] == '-' then 0 - ParseNat(s[1..]) as int else ParseNat(s)
  }

  /** The decimal text of an integer denotes that integer. */
  lemma IntToStringRoundTrip(i: int)
    ensures ParseInt(IntToString(i)) == i
  {
    if i < 0 {
      assert IntToString(i)[1..] == NatToString(-i);
      ParseNatToString(-i);
    } else {
      ParseNatToString(i);
      assert IsDigit(NatToString(i)[0]);
    }
  }

  /** Different integers have different decimal texts. */
  lemma IntToStringInjective(i: int, j: int)
    requires IntToString(i) == IntToString(j)
    ensures i == j
  {
    IntToStringRoundTrip(i);
    IntToStringRoundTrip(j);
  }

  // ---------------------------------------------------------------------
  // trim, strtoupper, strtolower
  // ---------------------------------------------------------------------

  /** The characters PHP's `trim` strips by default: " \t\n\r\0\x0B". */
  predicate IsTrimmed(c: char)
  {
    c == ' ' || c == '\t' || c == '\n' || c == '\r' || c == '\0' || c as int == 11
  }

  function TrimLeft(s: string): (r: string)
    ensures |r| <= |s| && r == s[|s| - |r|..]
    ensures r == [] || !IsTrimmed(r[0])
    decreases |s|
  {
    if |s| > 0 && IsTrimmed(s[0]) then TrimLeft(s[1..]) else s
  }

  function TrimRight(s: string): (r: string)
    ensures |r| <= |s| && r == s[..|r|]
    ensures r == [] || !IsTrimmed(r[|r| - 1])
    decreases |s|
  {
    if |s| > 0 && IsTrimmed(s[|s| - 1]) then TrimRight(s[..|s| - 1]) else s
  }

  /** PHP `trim`: strips the default whitespace set from both ends. */
  function Trim(s: string): (r: string)
    ensures r == [] || (!IsTrimmed(r[0]) && !IsTrimmed(r[|r| - 1]))
  {
    var l := TrimLeft(s);
    var r := TrimRight(l);
    assert r != [] ==> r[0] == l[0];
    r
  }

  /** A string already free of padding at both ends is its own trim. */
  lemma TrimUnpadded(s: string)
    requires s != [] && !IsTrimmed(s[0]) && !IsTrimmed(s[|s| - 1])
    ensures Trim(s) == s
  {
  }

  function UpperChar(c: char): char
  {
    if 'a' <= c <= 'z' then (c as int - 32) as char else c
  }

  function LowerChar(c: char): char
  {
    if 'A' <= c <= 'Z' then (c as int + 32) as char else c
  }

  /** PHP `strtoupper`, ASCII letters only. */
  function Upper(s: string): (r: string)
    ensures |r| == |s|
    ensures forall i :: 0 <= i < |s| ==> r[i] == UpperChar(s[i])
  {
    seq(|s|, i requires 0 <= i < |s| => UpperChar(s[i]))
  }

  /** A string without lower-case ASCII letters is its own upper case. */
  lemma UpperUnchanged(s: string)
    requires forall i :: 0 <= i < |s| ==> !('a' <= s[i] <= 'z')
    ensures Upper(s) == s
  {
  }

  /** A keyword such as AND or `=` survives `strtoupper(trim(..))`. */
  lemma UpperTrimUnchanged(s: string)
    requires s != [] && !IsTrimmed(s[0]) && !IsTrimmed(s[|s| - 1])
    requires forall i :: 0 <= i < |s| ==> !('a' <= s[i] <= 'z')
    ensures Upper(Trim(s)) == s
  {
    TrimUnpadded(s);
    UpperUnchanged(s);
  }

  /** PHP `strtolower`, ASCII letters only. */
  function Lower(s: string): (r: string)
    ensures |r| == |s|
    ensures forall i :: 0 <= i < |s| ==> r[i] == LowerChar(s[i])
  {
    seq(|s|, i requires 0 <= i < |s| => LowerChar(s[i]))
  }

  // ---------------------------------------------------------------------
  // explode / implode
  // ---------------------------------------------------------------------

  /** PHP `implode(sep, parts)`. */
  function Join(sep: string, parts: seq<string>): string
    decreases |parts|
  {
    if |parts| == 0 then ""
    else if |parts| == 1 then parts[0]
    else Join(sep, parts[..|parts| - 1]) + sep + parts[|parts| - 1]
  }

  function Count(c: char, s: string): nat
    decreases |s|
  {
    if s == [] then 0 else (if s[0] == c then 1 else 0) + Count(c, s[1..])
  }

  /** PHP `explode(c, s)` for a one-character separator: the pieces between
      the occurrences of c; there is always at least one piece. */
  function Split(s: string, c: char): (pieces: seq<string>)
    ensures |pieces| == Count(c, s) + 1
    ensures forall k :: 0 <= k < |pieces| ==> c !in pieces[k]
    decreases |s|
  {
    if s == [] then [""]
    else
      var rest := Split(s[1..], c);
      if s[0] == c then [""] + rest else [[s[0]] + rest[0]] + rest[1..]
  }

  /** Prepending a first piece to a join. */
  lemma {:induction false} JoinCons(sep: string, p: string, ps: seq<string>)
    requires |ps| > 0
    ensures Join(sep, [p] + ps) == p + sep + Join(sep, ps)
    decreases |ps|
  {
    if |ps| > 1 {
      assert ([p] + ps)[..|ps|] == [p] + ps[..|ps| - 1];
      JoinCons(sep, p, ps[..|ps| - 1]);
    }
  }

  /** A string without the separator is one piece. */
  lemma {:induction false} SplitNoSep(s: string, c: char)
    requires c !in s
    ensures Split(s, c) == [s]
    decreases |s|
  {
    if s != [] {
      SplitNoSep(s[1..], c);
      assert [s[0]] + s[1..] == s;
    }
  }

  /** Splitting a + [c] + b when a holds no c: the first piece is a. */
  lemma {:induction false} SplitAround(a: string, b: string, c: char)
    requires c !in a
    ensures Split(a + [c] + b, c) == [a] + Split(b, c)
    decreases |a|
  {
    if a == [] {
      assert [c] + b == a + [c] + b;
      assert ([c] + b)[1..] == b;
    } else {
      SplitAround(a[1..], b, c);
      assert (a + [c] + b)[1..] == a[1..] + [c] + b;
      assert [a[0]] + a[1..] == a;
    }
  }

  /** implode undoes explode. */
  lemma {:induction false} JoinSplit(s: string, c: char)
    ensures Join([c], Split(s, c)) == s
    decreases |s|
  {
    if s != [] {
      JoinSplit(s[1..], c);
      if s[0] == c {
        JoinSplitSep(s, c);
      } else {
        JoinSplitOther(s, c);
      }
    }
  }

  /** One step of JoinSplit when s starts with the separator. */
  lemma JoinSplitSep(s: string, c: char)
    requires s != [] && s[0] == c && Join([c], Split(s[1..], c)) == s[1..]
    ensures Join([c], Split(s, c)) == s
  {
    var rest := Split(s[1..], c);
    assert Split(s, c) == [""] + rest;
    JoinCons([c], "", rest);
    assert s == [c] + s[1..];
  }

  /** One step of JoinSplit when s starts with another character. */
  lemma JoinSplitOther(s: string, c: char)
    requires s != [] && s[0] != c && Join([c], Split(s[1..], c)) == s[1..]
    ensures Join([c], Split(s, c)) == s
  {
    var rest := Split(s[1..], c);
    assert Split(s, c) == [[s[0]] + rest[0]] + rest[1..];
    if |rest| == 1 {
      JoinSplitOtherOne([s[0]], rest, c);
    } else {
      JoinSplitOtherMore([s[0]], rest, c);
    }
    assert s == [s[0]] + s[1..];
  }

  lemma JoinSplitOtherOne(x: string, rest: seq<string>, c: char)
    requires |rest| == 1
    ensures Join([c], [x + rest[0]] + rest[1..]) == x + Join([c], rest)
  {
    assert [x + rest[0]] + rest[1..] == [x + rest[0]];
  }

  lemma JoinSplitOtherMore(x: string, rest: seq<string>, c: char)
    requires |rest| > 1
    ensures Join([c], [x + rest[0]] + rest[1..]) == x + Join([c], rest)
  {
    var r0, ys := rest[0], rest[1..];
    assert rest == [r0] + ys;
    JoinCons([c], x + r0, ys);
    JoinCons([c], r0, ys);
    Regroup(x, r0, [c], Join([c], ys));
  }

  lemma Regroup(x: string, a: string, b: string, d: string)
    ensures x + a + b + d == x + (a + b + d)
  {
  }

  // ---------------------------------------------------------------------
  // str_replace, substr
  // ---------------------------------------------------------------------

  predicate StartsWith(s: string, prefix: string)
  {
    |prefix| <= |s| && s[..|prefix|] == prefix
  }

  /** PHP `str_replace(tok, rep, s)`: a left-to-right scan that replaces
      non-overlapping occurrences of tok. */
  function Replace(s: string, tok: string, rep: string): string
    requires |tok| > 0
    decreases |s|
  {
    if |s| < |tok| then s
    else if s[..|tok|] == tok then rep + Replace(s[|tok|..], tok, rep)
    else [s[0]] + Replace(s[1..], tok, rep)
  }

  /** No occurrence of tok starts inside a, so replacing in a + b leaves a alone. */
  predicate NoMatchStartsIn(a: string, b: string, tok: string)
  {
    forall p :: 0 <= p < |a| ==> !StartsWith((a + b)[p..], tok)
  }

  lemma {:induction false} ReplaceSkipsPrefix(a: string, b: string, tok: string, rep: string)
    requires |tok| > 0 && NoMatchStartsIn(a, b, tok)
    ensures Replace(a + b, tok, rep) == a + Replace(b, tok, rep)
    decreases |a|
  {
    if a == [] {
      assert a + b == b;
    } else if |a + b| < |tok| {
      assert Replace(b, tok, rep) == b;
    } else {
      ReplaceSkipsFirst(a, b, tok, rep);
      ReplaceSkipsPrefix(a[1..], b, tok, rep);
      assert [a[0]] + (a[1..] + Replace(b, tok, rep)) == a + Replace(b, tok, rep);
    }
  }

  /** One step of ReplaceSkipsPrefix: the first character is copied. */
  lemma ReplaceSkipsFirst(a: string, b: string, tok: string, rep: string)
    requires |tok| > 0 && NoMatchStartsIn(a, b, tok)
    requires a != [] && |a + b| >= |tok|
    ensures Replace(a + b, tok, rep) == [a[0]] + Replace(a[1..] + b, tok, rep)
    ensures NoMatchStartsIn(a[1..], b, tok)
  {
    var s := a + b;
    assert s[0..] == s;
    assert s[..|tok|] != tok;
    assert s[1..] == a[1..] + b;
    forall p | 0 <= p < |a[1..]|
      ensures !StartsWith((a[1..] + b)[p..], tok)
    {
      assert (a[1..] + b)[p..] == s[p + 1..];
    }
  }

  /** A string holding no tok[0] offers no place for a match to start. */
  lemma NoFirstCharNoMatch(a: string, b: string, tok: string)
    requires |tok| > 0 && tok[0] !in a
    ensures NoMatchStartsIn(a, b, tok)
  {
    forall p | 0 <= p < |a|
      ensures !StartsWith((a + b)[p..], tok)
    {
      assert (a + b)[p..][0] == a[p];
    }
  }

  /** A final character that cannot end tok is never consumed by a match. */
  lemma {:induction false} ReplaceKeepsLast(m: string, c: char, tok: string, rep: string)
    requires |tok| > 0 && tok[|tok| - 1] != c
    ensures Replace(m + [c], tok, rep) == Replace(m, tok, rep) + [c]
    decreases |m|
  {
    var s := m + [c];
    if |s| < |tok| {
    } else if s[..|tok|] == tok {
      assert m[..|tok|] == tok;
      assert s[|tok|..] == m[|tok|..] + [c];
      ReplaceKeepsLast(m[|tok|..], c, tok, rep);
    } else if m == [] {
      assert Replace(s[1..], tok, rep) == [];
    } else {
      if |m| >= |tok| {
        assert m[..|tok|] == s[..|tok|];
      }
      assert s[1..] == m[1..] + [c];
      ReplaceKeepsLast(m[1..], c, tok, rep);
      if |m| < |tok| {
        assert Replace(m[1..] + [c], tok, rep) == m[1..] + [c];
      }
    }
  }

  /** Replacing tok at the very start of a string. */
  lemma ReplaceAtStart(tok: string, b: string, rep: string)
    requires |tok| > 0
    ensures Replace(tok + b, tok, rep) == rep + Replace(b, tok, rep)
  {
    assert (tok + b)[..|tok|] == tok;
    assert (tok + b)[|tok|..] == b;
  }

  /** A string holding no tok[0] is left as it is. */
  lemma ReplaceAbsent(s: string, tok: string, rep: string)
    requires |tok| > 0 && tok[0] !in s
    ensures Replace(s, tok, rep) == s
  {
    NoFirstCharNoMatch(s, [], tok);
    ReplaceSkipsPrefix(s, [], tok, rep);
    assert s + [] == s;
  }

  /** A match never ends on a character tok does not hold, so when a ends
      with one, replacing in a + b replaces in a and in b separately. */
  lemma {:induction false} ReplaceSplit(a: string, b: string, tok: string, rep: string)
    requires |tok| > 0 && a != [] && a[|a| - 1] !in tok
    ensures Replace(a + b, tok, rep) == Replace(a, tok, rep) + Replace(b, tok, rep)
    decreases |a|
  {
    var s := a + b;
    assert s[|a| - 1] == a[|a| - 1];
    if |s| < |tok| {
    } else if s[..|tok|] == tok {
      assert |a| > |tok|;
      assert a[|tok|..][|a| - |tok| - 1] == a[|a| - 1];
      ReplaceSplit(a[|tok|..], b, tok, rep);
      ReplaceSplitMatch(a, b, tok, rep);
    } else if |a| == 1 {
      assert s[1..] == b;
      assert Replace(a, tok, rep) == a;
    } else {
      assert a[1..][|a| - 2] == a[|a| - 1];
      ReplaceSplit(a[1..], b, tok, rep);
      ReplaceSplitOther(a, b, tok, rep);
    }
  }

  /** The step of ReplaceSplit where a match starts the text. */
  lemma ReplaceSplitMatch(a: string, b: string, tok: string, rep: string)
    requires |tok| > 0 && |a| > |tok| && (a + b)[..|tok|] == tok
    requires Replace(a[|tok|..] + b, tok, rep) == Replace(a[|tok|..], tok, rep) + Replace(b, tok, rep)
    ensures Replace(a + b, tok, rep) == Replace(a, tok, rep) + Replace(b, tok, rep)
  {
    var s := a + b;
    assert a[..|tok|] == tok;
    assert s[|tok|..] == a[|tok|..] + b;
    assert rep + (Replace(a[|tok|..], tok, rep) + Replace(b, tok, rep)) ==
           rep + Replace(a[|tok|..], tok, rep) + Replace(b, tok, rep);
  }

  /** The step of ReplaceSplit where the first character is copied. */
  lemma ReplaceSplitOther(a: string, b: string, tok: string, rep: string)
    requires |tok| > 0 && |a| > 1 && |a + b| >= |tok| && (a + b)[..|tok|] != tok
    requires Replace(a[1..] + b, tok, rep) == Replace(a[1..], tok, rep) + Replace(b, tok, rep)
    ensures Replace(a + b, tok, rep) == Replace(a, tok, rep) + Replace(b, tok, rep)
  {
    var s := a + b;
    assert s[1..] == a[1..] + b;
    if |a| >= |tok| {
      assert a[..|tok|] == s[..|tok|];
    }
    assert [a[0]] + (Replace(a[1..], tok, rep) + Replace(b, tok, rep)) ==
           [a[0]] + Replace(a[1..], tok, rep) + Replace(b, tok, rep);
  }

  /** PHP `substr(s, 0, -n)` for n > 0: all but the last n characters, or
      the empty string when s is not longer than n. */
  function DropLast(s: string, n: nat): (r: string)
    ensures |s| >= n ==> |r| == |s| - n
    ensures |s| < n ==> r == ""
    ensures StartsWith(s, r)
  {
    if |s| >= n then s[..|s| - n] else ""
  }

  /** Cutting |b| characters off a + b gives back a. */
  lemma DropLastAppend(a: string, b: string)
    ensures DropLast(a + b, |b|) == a
  {
    assert (a + b)[..|a|] == a;
  }
}
