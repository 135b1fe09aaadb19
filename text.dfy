/** Character classes and small string helpers shared by the Python scripts and the
    TypeScript client: Python's notion of whitespace, ASCII case mapping, the
    characters of `string.punctuation`, sequence flattening, `str.strip()`, and
    decimal integer text as written by JavaScript's `toString` and read by Python's `int`. */
module Text {

  /** The characters for which Python's `str.isspace()` holds, which are also what
      `\s` and `str.split()` treat as whitespace. */
  const Whitespace: set<char> := {
    '\t', '\n', '\U{0B}', '\U{0C}', '\r', '\U{1C}', '\U{1D}', '\U{1E}', '\U{1F}', ' ',
    '\U{0085}', '\U{00A0}', '\U{1680}',
    '\U{2000}', '\U{2001}', '\U{2002}', '\U{2003}', '\U{2004}', '\U{2005}', '\U{2006}', '\U{2007}',
    '\U{2008}', '\U{2009}', '\U{200A}', '\U{2028}', '\U{2029}', '\U{202F}', '\U{205F}', '\U{3000}'
  }

  predicate IsSpace(c: char) { c in Whitespace }

  predicate IsUpperAscii(c: char) { 'A' <= c <= 'Z' }

  function LowerChar(c: char): char {
    if IsUpperAscii(c) then (c as int + 32) as char else c
  }

  /** `str.lower()` / `toLowerCase()`, restricted to the ASCII letters. */
  function Lower(s: string): (r: string)
    ensures |r| == |s|
    ensures forall i :: 0 <= i < |s| ==> r[i] == LowerChar(s[i])
  {
    if s == [] then [] else [LowerChar(s[0])] + Lower(s[1..])
  }

  lemma LowerHasNoUpper(s: string)
    ensures forall i :: 0 <= i < |s| ==> !IsUpperAscii(Lower(s)[i])
  {
  }

  /** The 32 characters of Python's `string.punctuation`. */
  const Punctuation: string := "!\"#$%&'()*+,-./:;<=>?@[\\]^_`{|}~"

  /** Membership in `Punctuation`, by the four ASCII ranges it consists of. */
  predicate IsPunctuation(c: char) {
    '!' <= c <= '/' || ':' <= c <= '@' || '[' <= c <= '`' || '{' <= c <= '~'
  }

  lemma PunctuationRanges(c: char)
    ensures IsPunctuation(c) <==> c in Punctuation
  {
    if IsPunctuation(c) {
      PunctuationListed(c);
    }
    if c in Punctuation {
      var i :| 0 <= i < |Punctuation| && Punctuation[i] == c;
      PunctuationInRanges(i);
    }
  }

  lemma PunctuationListed(c: char)
    requires IsPunctuation(c)
    ensures c in Punctuation
  {
    var i := if c <= '/' then c as int - '!' as int
      else if c <= '@' then c as int - ':' as int + 15
      else if c <= '`' then c as int - '[' as int + 22
      else c as int - '{' as int + 28;
    assert Punctuation[i] == c;
  }

  lemma PunctuationInRanges(i: nat)
    requires i < |Punctuation|
    ensures IsPunctuation(Punctuation[i])
  {
  }

  lemma {:induction false} LowerAppend(a: string, b: string)
    ensures Lower(a + b) == Lower(a) + Lower(b)
  {
    if a == [] {
      assert a + b == b;
    } else {
      assert (a + b)[1..] == a[1..] + b;
      LowerAppend(a[1..], b);
      AppendAssoc([LowerChar(a[0])], Lower(a[1..]), Lower(b));
    }
  }


  /** `a` is `b` with some elements deleted, the rest kept in order. */
  predicate IsSubsequence<X(==)>(a: seq<X>, b: seq<X>)
    decreases |b|
  {
    a == [] || (b != [] && if a[0] == b[0] then IsSubsequence(a[1..], b[1..]) else IsSubsequence(a, b[1..]))
  }

  /** The concatenation of a sequence of sequences. */
  function Flatten<T>(ss: seq<seq<T>>): seq<T> {
    if ss == [] then [] else ss[0] + Flatten(ss[1..])
  }

  lemma {:induction false} FlattenAppend<T>(a: seq<seq<T>>, b: seq<seq<T>>)
    ensures Flatten(a + b) == Flatten(a) + Flatten(b)
  {
    if a == [] {
      assert a + b == b;
    } else {
      assert (a + b)[1..] == a[1..] + b;
      FlattenAppend(a[1..], b);
    }
  }

  lemma {:induction false} FlattenLength<T>(ss: seq<seq<T>>, bound: nat)
    requires forall k :: 0 <= k < |ss| ==> |ss[k]| <= bound
    ensures |Flatten(ss)| <= |ss| * bound
  {
    if ss != [] {
      FlattenLength(ss[1..], bound);
    }
  }

  /** A piece of a piece is a piece of the whole. */
  lemma SliceOfSlice<X>(s: seq<X>, p: nat, e: nat, i: nat, j: nat)
    requires p <= e <= |s| && i <= j <= e - p
    ensures s[p..e][i..j] == s[p + i..p + j]
  {
    var u, v := s[p..e][i..j], s[p + i..p + j];
    forall x | 0 <= x < j - i ensures u[x] == v[x] {
    }
  }

  lemma AppendAssoc<X>(a: seq<X>, b: seq<X>, c: seq<X>)
    ensures (a + b) + c == a + (b + c)
  {
  }

  lemma ConsSuffix<X>(x: X, xs: seq<X>, b: nat)
    requires 1 <= b <= |xs|
    ensures ([x] + xs)[b] == xs[b - 1] && ([x] + xs)[b..] == xs[b - 1..]
  {
  }

  /** `f` applied to each element, the results concatenated in order. */
  function ConcatMap<X, Y>(xs: seq<X>, f: X -> seq<Y>): seq<Y> {
    if xs == [] then [] else ConcatMap(xs[..|xs| - 1], f) + f(xs[|xs| - 1])
  }

  lemma ConcatMapStep<X, Y>(xs: seq<X>, i: nat, f: X -> seq<Y>)
    requires i < |xs|
    ensures ConcatMap(xs[..i + 1], f) == ConcatMap(xs[..i], f) + f(xs[i])
  {
    assert xs[..i + 1][..i] == xs[..i];
  }

  lemma {:induction false} ConcatMapAppend<X, Y>(a: seq<X>, b: seq<X>, f: X -> seq<Y>)
    ensures ConcatMap(a + b, f) == ConcatMap(a, f) + ConcatMap(b, f)
    decreases |b|
  {
    if b == [] {
      assert a + b == a;
    } else {
      var init := b[..|b| - 1];
      assert (a + b)[..|a + b| - 1] == a + init;
      ConcatMapAppend(a, init, f);
    }
  }

  /** Every element of the result comes from some element's image. */
  lemma {:induction false} ConcatMapIndex<X, Y>(xs: seq<X>, f: X -> seq<Y>, k: nat)
    requires k < |ConcatMap(xs, f)|
    ensures exists i, j :: 0 <= i < |xs| && 0 <= j < |f(xs[i])| && ConcatMap(xs, f)[k] == f(xs[i])[j]
  {
    var init := xs[..|xs| - 1];
    var front := ConcatMap(init, f);
    if k < |front| {
      ConcatMapIndex(init, f, k);
      var i, j :| 0 <= i < |init| && 0 <= j < |f(init[i])| && front[k] == f(init[i])[j];
      assert xs[i] == init[i];
    } else {
      assert ConcatMap(xs, f)[k] == f(xs[|xs| - 1])[k - |front|];
    }
  }

  /** A property holds along a run of a piece exactly when it holds along the same
      run of the whole. */
  lemma RunInPiece<X>(s: seq<X>, a: nat, b: nat, lo: nat, hi: nat, P: X -> bool)
    requires a <= b <= |s| && lo <= hi <= b - a
    ensures (forall i :: lo <= i < hi ==> P(s[a..b][i])) <==> (forall i :: a + lo <= i < a + hi ==> P(s[i]))
  {
    var t := s[a..b];
    if forall i :: lo <= i < hi ==> P(t[i]) {
      forall j | a + lo <= j < a + hi ensures P(s[j]) {
        assert s[j] == t[j - a];
      }
    }
    if forall j :: a + lo <= j < a + hi ==> P(s[j]) {
      forall i | lo <= i < hi ensures P(t[i]) {
        assert t[i] == s[a + i];
      }
    }
  }

  /** A suffix is the concatenation of its three consecutive pieces. */
  lemma SliceInThree<X>(s: seq<X>, a: nat, b: nat, c: nat)
    requires a <= b <= c <= |s|
    ensures s[a..] == s[a..b] + (s[b..c] + s[c..])
  {
  }

  /** A scanner `f` (the output produced from each position on) that copies the
      element at every position of `s[p..q]` produces that piece unchanged. */
  lemma {:induction false} CopiedRun<X>(s: seq<X>, f: nat -> seq<X>, p: nat, q: nat)
    requires p <= q <= |s|
    requires forall i :: p <= i < q ==> f(i) == [s[i]] + f(i + 1)
    ensures f(p) == s[p..q] + f(q)
    decreases q - p
  {
    if p < q {
      CopiedRun(s, f, p + 1, q);
      assert s[p..q] == [s[p]] + s[p + 1..q];
    }
  }

  /** Leading whitespace removed, as Python's `str.lstrip()`. */
  function StripStart(s: string): string {
    if s != [] && IsSpace(s[0]) then StripStart(s[1..]) else s
  }

  /** Trailing whitespace removed, as Python's `str.rstrip()`. */
  function StripEnd(s: string): string {
    if s != [] && IsSpace(s[|s| - 1]) then StripEnd(s[..|s| - 1]) else s
  }

  /** Leading and trailing whitespace removed, as Python's `str.strip()`. */
  function Strip(s: string): string {
    StripEnd(StripStart(s))
  }

  lemma {:induction false} StripStartSpec(s: string)
    ensures var r := StripStart(s);
      |r| <= |s| && r == s[|s| - |r|..]
      && (forall i :: 0 <= i < |s| - |r| ==> IsSpace(s[i]))
      && (r != [] ==> !IsSpace(r[0]))
  {
    if s != [] && IsSpace(s[0]) {
      StripStartSpec(s[1..]);
    }
  }

  lemma {:induction false} StripEndSpec(s: string)
    ensures var r := StripEnd(s);
      |r| <= |s| && r == s[..|r|]
      && (forall i :: |r| <= i < |s| ==> IsSpace(s[i]))
      && (r != [] ==> !IsSpace(r[|r| - 1]))
  {
    if s != [] && IsSpace(s[|s| - 1]) {
      StripEndSpec(s[..|s| - 1]);
    }
  }

  /** The stripped text is a piece of the original that neither starts nor ends with
      whitespace, and text without whitespace is left alone. */
  lemma StripSpec(s: string)
    ensures |Strip(s)| <= |s|
    ensures Strip(s) != [] ==> !IsSpace(Strip(s)[0]) && !IsSpace(Strip(s)[|Strip(s)| - 1])
    ensures (forall i :: 0 <= i < |s| ==> !IsSpace(s[i])) ==> Strip(s) == s
  {
    var a := StripStart(s);
    StripStartSpec(s);
    assert |a| < |s| ==> IsSpace(s[0]);
    var r := StripEnd(a);
    StripEndSpec(a);
    assert r != [] ==> r[0] == a[0];
    assert |r| < |a| ==> IsSpace(a[|r|]);
  }

  // Decimal integers as text.

  predicate IsDigit(c: char) { '0' <= c <= '9' }

  function DigitValue(c: char): (d: nat)
    requires IsDigit(c)
    ensures d < 10
  {
    c as int - '0' as int
  }

  function DigitChar(d: nat): char
    requires d < 10
  {
    ('0' as int + d) as char
  }

  /** The decimal digits of n, most significant first, with no leading zeros. */
  function Digits(n: nat): (r: string)
    ensures |r| > 0 && forall i :: 0 <= i < |r| ==> IsDigit(r[i])
  {
    if n < 10 then [DigitChar(n)] else Digits(n / 10) + [DigitChar(n % 10)]
  }

  /** JavaScript's `Number.prototype.toString()` on an integral number. */
  function IntToString(n: int): string {
    if n < 0 then "-" + Digits(-n) else Digits(n)
  }

  /** The value of a non-empty run of decimal digits. */
  function DigitsValue(s: string): nat
    requires forall i :: 0 <= i < |s| ==> IsDigit(s[i])
  {
    if s == [] then 0 else DigitsValue(s[..|s| - 1]) * 10 + DigitValue(s[|s| - 1])
  }

  /** Python's `int(text)` on an optional sign followed by ASCII digits; `None`
      stands for the `ValueError` it raises on anything else. */
  function ParseInt(s: string): (r: Option<int>)
    ensures r.Some? ==> |s| > 0
  {
    if |s| > 0 && (s[0] == '-' || s[0] == '+') then
      var body := s[1..];
      if |body| > 0 && forall i :: 0 <= i < |body| ==> IsDigit(body[i]) then
        Some(if s[0] == '-' then 0 - DigitsValue(body) else DigitsValue(body))
      else None
    else if |s| > 0 && forall i :: 0 <= i < |s| ==> IsDigit(s[i]) then
      Some(DigitsValue(s))
    else None
  }

  datatype Option<T> = None | Some(value: T)

  lemma {:induction false} DigitsRoundTrip(n: nat)
    ensures DigitsValue(Digits(n)) == n
  {
    if n >= 10 {
      DigitsRoundTrip(n / 10);
      var d := Digits(n / 10) + [DigitChar(n % 10)];
      assert d[..|d| - 1] == Digits(n / 10);
    }
  }

  /** Digits alone read back as their value. */
  lemma ParseDigits(n: nat)
    ensures ParseInt(Digits(n)) == Some(n)
  {
    var d := Digits(n);
    assert d[0] != '-' && d[0] != '+' by { assert IsDigit(d[0]); }
    DigitsRoundTrip(n);
  }

  /** A minus sign followed by digits reads back as the negated value. */
  lemma ParseNegativeDigits(n: nat)
    ensures ParseInt("-" + Digits(n)) == Some(0 - n)
  {
    var d := Digits(n);
    assert ("-" + d)[1..] == d;
    DigitsRoundTrip(n);
  }

  /** Writing an integer as text and reading it back gives the same integer. */
  lemma IntToStringRoundTrip(n: int)
    ensures ParseInt(IntToString(n)) == Some(n)
  {
    if n < 0 {
      ParseNegativeDigits(-n);
    } else {
      ParseDigits(n);
    }
  }
}
