/**
 * The few `str` operations the core uses: prefix and suffix tests, `strip`,
 * `removesuffix`, `split(sep, 1)`, `join`, `replace`, and `str(n)` for integers.
 */
module Text {
  import opened Wrappers

  predicate StartsWith(s: string, p: string) {
    |p| <= |s| && s[..|p|] == p
  }

  predicate EndsWith(s: string, p: string) {
    |p| <= |s| && s[|s| - |p|..] == p
  }

  lemma PrefixOfConcat(a: string, b: string, p: string)
    requires StartsWith(a, p)
    ensures StartsWith(a + b, p)
  {
    assert (a + b)[..|p|] == a[..|p|];
  }

  lemma SuffixOfConcat(a: string, b: string, p: string)
    requires EndsWith(b, p)
    ensures EndsWith(a + b, p)
  {
    assert (a + b)[|a + b| - |p|..] == b[|b| - |p|..];
  }

  lemma EndsWithBreakThen(a: string, b: string)
    ensures EndsWith(a + "\n" + b, "\n" + b)
  {
    assert (a + "\n" + b)[|a|..] == "\n" + b;
  }

  /** `s.removesuffix(p)` */
  function RemoveSuffix(s: string, p: string): (r: string)
    ensures EndsWith(s, p) ==> r + p == s
    ensures !EndsWith(s, p) ==> r == s
  {
    if EndsWith(s, p) then
      assert s == s[..|s| - |p|] + s[|s| - |p|..];
      s[..|s| - |p|]
    else s
  }

  /** `s.lstrip(c)` for a single character `c`. */
  function StripStart(s: string, c: char): (r: string)
    ensures |r| <= |s| && r == s[|s| - |r|..]
    ensures r == [] || r[0] != c
    ensures forall k :: 0 <= k < |s| - |r| ==> s[k] == c
  {
    if s != [] && s[0] == c then StripStart(s[1..], c) else s
  }

  /** `s.rstrip(c)` for a single character `c`. */
  function StripEnd(s: string, c: char): (r: string)
    ensures |r| <= |s| && r == s[..|r|]
    ensures r == [] || r[|r| - 1] != c
    ensures forall k :: |r| <= k < |s| ==> s[k] == c
  {
    if s != [] && s[|s| - 1] == c then StripEnd(s[..|s| - 1], c) else s
  }

  /** `r` is `s` with `a` copies of `c` taken from its front and only `c`s taken from its back. */
  predicate Framed(s: string, r: string, c: char, a: int) {
    && 0 <= a <= |s| - |r|
    && r == s[a..a + |r|]
    && (forall k :: 0 <= k < a ==> s[k] == c)
    && (forall k :: a + |r| <= k < |s| ==> s[k] == c)
  }

  /** `s.strip(c)`: every leading and trailing `c` removed, the middle kept. */
  function Strip(s: string, c: char): (r: string)
    ensures r == [] || (r[0] != c && r[|r| - 1] != c)
    ensures |r| <= |s|
    ensures exists a :: Framed(s, r, c, a)
    ensures c !in s ==> r == s
  {
    var t := StripStart(s, c);
    var r := StripEnd(t, c);
    var a := |s| - |t|;
    assert r == s[a..a + |r|] by {
      assert r == t[..|r|];
    }
    assert forall k :: a + |r| <= k < |s| ==> s[k] == t[k - a];
    assert Framed(s, r, c, a);
    r
  }

  /** Stripping `m + c`, where `m` has `c` at neither end, gives `m`. */
  lemma StripOneTrailing(m: string, c: char)
    requires m == [] || (m[0] != c && m[|m| - 1] != c)
    ensures Strip(m + [c], c) == m
  {
    if m == [] {
      assert StripStart([c], c) == StripStart([], c);
    } else {
      assert StripStart(m + [c], c) == m + [c];
      assert (m + [c])[..|m|] == m;
    }
  }

  predicate OccursAt(s: string, sep: string, i: nat) {
    i + |sep| <= |s| && s[i..i + |sep|] == sep
  }

  /** `s.find(sep, i)`: the least index from `i` on where `sep` occurs. */
  function FindFrom(s: string, sep: string, i: nat): (r: Option<nat>)
    requires i <= |s|
    ensures r.Some? ==> i <= r.value && OccursAt(s, sep, r.value)
    ensures forall j :: i <= j && (r.None? || j < r.value) ==> !OccursAt(s, sep, j)
    decreases |s| - i
  {
    if OccursAt(s, sep, i) then Some(i)
    else if i + |sep| >= |s| then None
    else FindFrom(s, sep, i + 1)
  }

  /** `s.split(sep, 1)[1]` for a non-empty `sep`: the text after the first `sep`, or nothing (an `IndexError`) when `sep` does not occur. */
  function AfterFirst(s: string, sep: string): (r: Option<string>)
    requires |sep| > 0
    ensures r.None? <==> forall j: nat :: !OccursAt(s, sep, j)
    ensures r.Some? ==>
      exists i: nat :: OccursAt(s, sep, i) && r.value == s[i + |sep|..] &&
        forall j: nat :: j < i ==> !OccursAt(s, sep, j)
  {
    match FindFrom(s, sep, 0)
    case None => None
    case Some(i) => Some(s[i + |sep|..])
  }

  /** Splitting `sep + x` at its first `sep` gives back `x`, whatever `x` holds. */
  lemma AfterFirstOfPrefixed(sep: string, x: string)
    requires |sep| > 0
    ensures AfterFirst(sep + x, sep) == Some(x)
  {
    assert OccursAt(sep + x, sep, 0);
  }

  /** Splitting once at a single character: nothing when it is absent, else what follows its first occurrence. */
  lemma AfterFirstChar(s: string, c: char)
    ensures AfterFirst(s, [c]).None? <==> c !in s
    ensures AfterFirst(s, [c]).Some? ==>
      exists i :: 0 <= i < |s| && s[i] == c && c !in s[..i] && AfterFirst(s, [c]).value == s[i + 1..]
  {
    forall i: nat ensures OccursAt(s, [c], i) <==> i < |s| && s[i] == c {
      if i < |s| {
        assert s[i..i + 1] == [s[i]];
      }
    }
    if AfterFirst(s, [c]).Some? {
      var i: nat :| OccursAt(s, [c], i) && AfterFirst(s, [c]).value == s[i + 1..] &&
        forall j: nat :: j < i ==> !OccursAt(s, [c], j);
      assert c !in s[..i] by {
        forall j | 0 <= j < i ensures s[..i][j] != c {
          assert !OccursAt(s, [c], j);
        }
      }
    }
  }

  /** `sep.join(parts)` */
  function Join(sep: string, parts: seq<string>): string {
    if parts == [] then ""
    else if |parts| == 1 then parts[0]
    else Join(sep, parts[..|parts| - 1]) + sep + parts[|parts| - 1]
  }

  /** A join of several parts ends with the last one, after the separator. */
  lemma JoinEndsWithLast(sep: string, parts: seq<string>)
    requires |parts| >= 1
    ensures EndsWith(Join(sep, parts), parts[|parts| - 1])
    ensures |parts| >= 2 ==> EndsWith(Join(sep, parts), sep + parts[|parts| - 1])
  {
    var j := Join(sep, parts);
    var last := parts[|parts| - 1];
    if |parts| >= 2 {
      assert j == Join(sep, parts[..|parts| - 1]) + (sep + last);
      assert j[|j| - |sep + last|..] == sep + last;
      assert j[|j| - |last|..] == last;
    }
  }

  /** `s.replace(c, t)` for a single character `c`. */
  function ReplaceChar(s: string, c: char, t: string): (r: string)
    ensures c !in t ==> c !in r
    ensures c !in s ==> r == s
  {
    if s == [] then ""
    else (if s[0] == c then t else [s[0]]) + ReplaceChar(s[1..], c, t)
  }

  // ---- str(n) for integers, and its inverse ----

  const Digits := "0123456789"

  predicate IsDigit(ch: char) {
    '0' <= ch <= '9'
  }

  function DigitValue(ch: char): nat
    requires IsDigit(ch)
  {
    (ch as int) - ('0' as int)
  }

  /** The decimal digits of `n`, most significant first, with no leading zero. */
  function NatText(n: nat): (r: string)
    ensures |r| >= 1 && forall k :: 0 <= k < |r| ==> IsDigit(r[k])
    ensures r[0] == '0' ==> n == 0
    decreases n
  {
    if n < 10 then [Digits[n]] else NatText(n / 10) + [Digits[n % 10]]
  }

  /** `str(n)` for an `int`: a minus sign for negative numbers, then the digits. */
  function Decimal(n: int): (r: string)
    ensures forall k :: 0 <= k < |r| ==> IsDigit(r[k]) || (k == 0 && r[k] == '-')
  {
    if n < 0 then "-" + NatText(-n) else NatText(n)
  }

  function ParseNat(s: string): nat
    requires forall k :: 0 <= k < |s| ==> IsDigit(s[k])
  {
    if s == [] then 0 else ParseNat(s[..|s| - 1]) * 10 + DigitValue(s[|s| - 1])
  }

  /** `int(s)` for what `str` produces. */
  function ParseDecimal(s: string): int
    requires forall k :: 0 <= k < |s| ==> IsDigit(s[k]) || (k == 0 && s[k] == '-')
  {
    if s != [] && s[0] == '-' then -(ParseNat(s[1..]) as int) else ParseNat(s)
  }

  lemma {:induction false} NatTextRoundTrip(n: nat)
    ensures ParseNat(NatText(n)) == n
    decreases n
  {
    if n >= 10 {
      NatTextRoundTrip(n / 10);
      var s := NatText(n);
      assert s[..|s| - 1] == NatText(n / 10);
    }
  }

  /** `int(str(n)) == n`: the decimal rendering loses nothing. */
  lemma DecimalRoundTrip(n: int)
    ensures ParseDecimal(Decimal(n)) == n
  {
    if n < 0 {
      NatTextRoundTrip(-n);
      assert Decimal(n)[1..] == NatText(-n);
    } else {
      NatTextRoundTrip(n);
    }
  }

  /** Hence distinct integers render differently. */
  lemma DecimalInjective(a: int, b: int)
    requires Decimal(a) == Decimal(b)
    ensures a == b
  {
    DecimalRoundTrip(a);
    DecimalRoundTrip(b);
  }
}
