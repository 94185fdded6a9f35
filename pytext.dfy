/**
 * The Python string and integer built-ins the two scripts rely on:
 * `str.isspace`, `str.strip`, `str.lower`, `str.isdigit`, `int(...)`, `str(int)`
 * and the `03d` format. Whitespace is Python's full `isspace` set; case mapping
 * and digits are ASCII only.
 */
module PyText {
  import opened Wrappers

  /** Python's `str.isspace` (and the `\s` class of `re`) for one character. */
  predicate IsSpace(c: char) {
    ('\t' <= c <= '\r') || ('\U{1C}' <= c <= ' ') || c == '\U{85}' || c == '\U{A0}'
    || c == '\U{1680}' || ('\U{2000}' <= c <= '\U{200A}') || c == '\U{2028}' || c == '\U{2029}'
    || c == '\U{202F}' || c == '\U{205F}' || c == '\U{3000}'
  }

  predicate AllSpace(s: string) {
    forall i :: 0 <= i < |s| ==> IsSpace(s[i])
  }

  /** The number of whitespace characters `s` starts with. */
  function LeadingSpaces(s: string): (n: nat)
    ensures n <= |s| && (forall i :: 0 <= i < n ==> IsSpace(s[i]))
    ensures n < |s| ==> !IsSpace(s[n])
  {
    if s != [] && IsSpace(s[0]) then 1 + LeadingSpaces(s[1..]) else 0
  }

  /** The number of whitespace characters `s` ends with. */
  function TrailingSpaces(s: string): (n: nat)
    ensures n <= |s| && (forall i :: |s| - n <= i < |s| ==> IsSpace(s[i]))
    ensures n < |s| ==> !IsSpace(s[|s| - 1 - n])
  {
    if s != [] && IsSpace(s[|s| - 1]) then 1 + TrailingSpaces(s[..|s| - 1]) else 0
  }

  /** The two counts are fixed by what they promise. */
  lemma LeadingSpacesUnique(s: string, n: nat)
    requires n <= |s| && (forall i :: 0 <= i < n ==> IsSpace(s[i]))
    requires n < |s| ==> !IsSpace(s[n])
    ensures n == LeadingSpaces(s)
  {
  }

  lemma TrailingSpacesUnique(s: string, n: nat)
    requires n <= |s| && (forall i :: |s| - n <= i < |s| ==> IsSpace(s[i]))
    requires n < |s| ==> !IsSpace(s[|s| - 1 - n])
    ensures n == TrailingSpaces(s)
  {
  }

  /** `s.lstrip()` */
  function TrimStart(s: string): (r: string)
  {
    s[LeadingSpaces(s)..]
  }

  /** `s.rstrip()` */
  function TrimEnd(s: string): (r: string)
  {
    s[..|s| - TrailingSpaces(s)]
  }

  /** `s.strip()` */
  function Strip(s: string): (r: string)
    ensures r == [] || (!IsSpace(r[0]) && !IsSpace(r[|r| - 1]))
    ensures r == [] <==> AllSpace(s)
  {
    TrimEnd(TrimStart(s))
  }

  /** What `strip` keeps is the stretch after the leading whitespace. */
  lemma StripIsSlice(s: string)
    ensures LeadingSpaces(s) + |Strip(s)| <= |s|
    ensures Strip(s) == s[LeadingSpaces(s)..LeadingSpaces(s) + |Strip(s)|]
  {
  }

  /** `s` is its leading whitespace, then what `strip` keeps, then its trailing whitespace. */
  lemma StripSplit(s: string)
    ensures LeadingSpaces(s) + |Strip(s)| <= |s|
    ensures var a, m := LeadingSpaces(s), |Strip(s)|;
      && AllSpace(s[..a]) && AllSpace(s[a + m..])
      && s == s[..a] + Strip(s) + s[a + m..]
  {
    var a := LeadingSpaces(s);
    StripIsSlice(s);
    LeadingRunIsSpace(s);
    StripTailIsSpace(s);
    SliceThree(s, a, a + |Strip(s)|);
  }

  /** What follows the kept stretch is whitespace. */
  lemma StripTailIsSpace(s: string)
    ensures LeadingSpaces(s) + |Strip(s)| <= |s|
    ensures AllSpace(s[LeadingSpaces(s) + |Strip(s)|..])
  {
    var a := LeadingSpaces(s);
    var t := TrimStart(s);
    var m := |t| - TrailingSpaces(t);
    assert |Strip(s)| == m;
    assert s[a + m..] == t[m..];
    TrailingRunIsSpace(t);
  }

  lemma LeadingRunIsSpace(s: string)
    ensures AllSpace(s[..LeadingSpaces(s)])
  {
    var a := LeadingSpaces(s);
    assert forall i :: 0 <= i < a ==> s[..a][i] == s[i];
  }

  lemma TrailingRunIsSpace(t: string)
    ensures AllSpace(t[|t| - TrailingSpaces(t)..])
  {
    var m := |t| - TrailingSpaces(t);
    assert forall i :: 0 <= i < |t| - m ==> t[m..][i] == t[m + i];
  }

  lemma SliceThree<T>(s: seq<T>, a: nat, b: nat)
    requires a <= b <= |s|
    ensures s == s[..a] + s[a..b] + s[b..]
  {
  }

  /** A string with no whitespace at either end is left alone by `strip`. */
  lemma StripUnpadded(s: string)
    requires s == [] || (!IsSpace(s[0]) && !IsSpace(s[|s| - 1]))
    ensures Strip(s) == s
  {
    LeadingSpacesUnique(s, 0);
    TrailingSpacesUnique(s, 0);
  }

  lemma TrimStartAfterSpaces(pre: string, x: string)
    requires AllSpace(pre)
    ensures TrimStart(pre + x) == TrimStart(x)
  {
    var u := pre + x;
    var a := LeadingSpaces(x);
    assert forall i :: |pre| <= i < |u| ==> u[i] == x[i - |pre|];
    LeadingSpacesUnique(u, |pre| + a);
    assert u[|pre| + a..] == x[a..];
  }

  lemma TrimEndBeforeSpaces(x: string, post: string)
    requires AllSpace(post)
    ensures TrimEnd(x + post) == TrimEnd(x)
  {
    var u := x + post;
    var b := TrailingSpaces(x);
    assert forall i :: 0 <= i < |x| ==> u[i] == x[i];
    TrailingSpacesUnique(u, b + |post|);
    assert u[..|u| - (b + |post|)] == x[..|x| - b];
  }

  lemma TrimStartBeforeText(x: string, post: string)
    requires !AllSpace(x)
    ensures TrimStart(x + post) == TrimStart(x) + post
  {
    var u := x + post;
    var a := LeadingSpaces(x);
    assert forall i :: 0 <= i < |x| ==> u[i] == x[i];
    LeadingSpacesUnique(u, a);
    assert u[a..] == x[a..] + post;
  }

  /** Whitespace around a string never changes what `strip` returns. */
  lemma {:induction false} StripPadded(pre: string, s: string, post: string)
    requires AllSpace(pre) && AllSpace(post)
    ensures Strip(pre + s + post) == Strip(s)
  {
    var u := pre + s + post;
    if AllSpace(s) {
      assert AllSpace(u);
    } else {
      assert u == pre + (s + post);
      TrimStartAfterSpaces(pre, s + post);
      TrimStartBeforeText(s, post);
      TrimEndBeforeSpaces(TrimStart(s), post);
    }
  }

  /** The ASCII part of `str.lower` for one character. */
  function LowerChar(c: char): char {
    if 'A' <= c <= 'Z' then (c as int + 32) as char else c
  }

  /** `s.lower()`, character by character. */
  function Lower(s: string): (r: string)
    ensures |r| == |s| && forall i :: 0 <= i < |s| ==> r[i] == LowerChar(s[i])
  {
    seq(|s|, i requires 0 <= i < |s| => LowerChar(s[i]))
  }

  lemma LowerConcat(a: string, b: string, c: string)
    ensures Lower(a + b + c) == Lower(a) + Lower(b) + Lower(c)
  {
  }

  lemma LowerKeepsSpace(s: string)
    ensures forall i :: 0 <= i < |s| ==> IsSpace(Lower(s)[i]) == IsSpace(s[i])
  {
  }

  lemma {:induction false} StripLowerPadded(pre: string, mid: string, post: string)
    requires AllSpace(pre) && AllSpace(post)
    requires mid != [] && !IsSpace(mid[0]) && !IsSpace(mid[|mid| - 1])
    ensures Strip(Lower(pre + mid + post)) == Lower(mid)
  {
    LowerConcat(pre, mid, post);
    LowerKeepsSpace(pre);
    LowerKeepsSpace(mid);
    LowerKeepsSpace(post);
    var lp, lm, lq := Lower(pre), Lower(mid), Lower(post);
    assert AllSpace(lp) && AllSpace(lq);
    StripPadded(lp, lm, lq);
    StripUnpadded(lm);
  }

  /** Text without ASCII capitals is its own lower-case form. */
  lemma LowerUnchanged(s: string)
    requires forall i :: 0 <= i < |s| ==> !('A' <= s[i] <= 'Z')
    ensures Lower(s) == s
  {
  }

  lemma LowerIdempotent(s: string)
    ensures Lower(Lower(s)) == Lower(s)
  {
  }

  /** Lower-casing and stripping commute. */
  lemma {:induction false} StripLower(s: string)
    ensures Strip(Lower(s)) == Lower(Strip(s))
  {
    if AllSpace(s) {
      LowerKeepsSpace(s);
      assert AllSpace(Lower(s));
    } else {
      StripSplit(s);
      var a, m := LeadingSpaces(s), |Strip(s)|;
      StripLowerPadded(s[..a], Strip(s), s[a + m..]);
    }
  }

  predicate IsDigit(c: char) {
    '0' <= c <= '9'
  }

  predicate AllDigits(s: string) {
    forall i :: 0 <= i < |s| ==> IsDigit(s[i])
  }

  /** `s.isdigit()` over ASCII: non-empty and every character a digit. */
  predicate IsDigitString(s: string) {
    s != [] && AllDigits(s)
  }

  function DigitValue(c: char): nat
    requires IsDigit(c)
  {
    c as int - '0' as int
  }

  function DigitChar(d: nat): (c: char)
    requires d < 10
    ensures IsDigit(c) && DigitValue(c) == d
  {
    ('0' as int + d) as char
  }

  /** The value of a run of decimal digits, as `int(...)` reads it. */
  function DigitsValue(s: string): nat
    requires AllDigits(s)
  {
    if s == [] then 0 else DigitsValue(s[..|s| - 1]) * 10 + DigitValue(s[|s| - 1])
  }

  function Pow10(n: nat): (r: nat)
    ensures r >= 1
  {
    if n == 0 then 1 else 10 * Pow10(n - 1)
  }

  /** `k` digits spell a number below `10^k`. */
  lemma {:induction false} DigitsValueBound(s: string)
    requires AllDigits(s)
    ensures DigitsValue(s) < Pow10(|s|)
    decreases |s|
  {
    if s != [] {
      DigitsValueBound(s[..|s| - 1]);
    }
  }

  lemma ThreeDigits(s: string)
    requires |s| == 3 && AllDigits(s)
    ensures DigitsValue(s) == 100 * DigitValue(s[0]) + 10 * DigitValue(s[1]) + DigitValue(s[2])
  {
    var a, b := s[..2], s[..1];
    assert a[..1] == b && a[1] == s[1] && b[..0] == [] && b[0] == s[0];
    assert DigitsValue(b) == DigitValue(s[0]);
    assert DigitsValue(a) == DigitsValue(b) * 10 + DigitValue(s[1]);
  }

  lemma FourDigits(s: string)
    requires |s| == 4 && AllDigits(s)
    ensures DigitsValue(s) == 1000 * DigitValue(s[0]) + 100 * DigitValue(s[1]) + 10 * DigitValue(s[2]) + DigitValue(s[3])
  {
    ThreeDigits(s[..3]);
  }

  /** `str(n)` for a non-negative integer: canonical decimal, read back as `n`. */
  function NatToString(n: nat): (r: string)
    ensures IsDigitString(r) && DigitsValue(r) == n
    ensures r[0] == '0' ==> r == "0"
    ensures n < 10 <==> |r| == 1
  {
    if n < 10 then [DigitChar(n)]
    else
      var p := NatToString(n / 10);
      var r := p + [DigitChar(n % 10)];
      assert r[..|r| - 1] == p;
      r
  }

  lemma {:induction false} Pow10Monotone(a: nat, b: nat)
    requires a <= b
    ensures Pow10(a) <= Pow10(b)
    decreases b
  {
    if a < b {
      Pow10Monotone(a, b - 1);
    }
  }

  /** A spelling of `k > 1` digits has no leading zero, so it is at least `10^(k-1)`. */
  lemma {:induction false} NatToStringLowerBound(n: nat)
    ensures |NatToString(n)| > 1 ==> Pow10(|NatToString(n)| - 1) <= n
  {
    if n >= 10 {
      NatToStringLowerBound(n / 10);
      assert |NatToString(n)| == |NatToString(n / 10)| + 1;
    }
  }

  /** `str(n)` has at most `k` digits exactly when `n < 10^k`. */
  lemma NatToStringLength(n: nat, k: nat)
    requires k >= 1
    ensures |NatToString(n)| <= k <==> n < Pow10(k)
  {
    var d := NatToString(n);
    DigitsValueBound(d);
    NatToStringLowerBound(n);
    if |d| <= k {
      Pow10Monotone(|d|, k);
    } else {
      Pow10Monotone(k, |d| - 1);
    }
  }

  /** Distinct numbers have distinct decimal spellings. */
  lemma NatToStringInjective(a: nat, b: nat)
    requires NatToString(a) == NatToString(b)
    ensures a == b
  {
  }

  /** `str(i)` for any integer. */
  function IntToString(i: int): (r: string)
    ensures r != [] && !IsSpace(r[0]) && !IsSpace(r[|r| - 1])
    ensures forall k :: 0 <= k < |r| ==> r[k] == '-' || IsDigit(r[k])
  {
    if i < 0 then "-" + NatToString(-i) else NatToString(i)
  }

  /** Leading zeros do not change the value of a digit run. */
  lemma {:induction false} DigitsValueLeadingZeros(z: string, s: string)
    requires forall i :: 0 <= i < |z| ==> z[i] == '0'
    requires AllDigits(s)
    ensures AllDigits(z + s) && DigitsValue(z + s) == DigitsValue(s)
    decreases |s|
  {
    if s == [] {
      ZerosValue(z);
      assert z + s == z;
    } else {
      var p := s[..|s| - 1];
      assert (z + s)[..|z + s| - 1] == z + p;
      DigitsValueLeadingZeros(z, p);
    }
  }

  lemma {:induction false} ZerosValue(z: string)
    requires forall i :: 0 <= i < |z| ==> z[i] == '0'
    ensures AllDigits(z) && DigitsValue(z) == 0
    decreases |z|
  {
    if z != [] {
      ZerosValue(z[..|z| - 1]);
    }
  }

  function Zeros(n: nat): (r: string)
    ensures |r| == n && forall i :: 0 <= i < n ==> r[i] == '0'
  {
    seq(n, _ => '0')
  }

  /**
   * `f"{n:03d}"`: the decimal spelling of `n` padded on the left with zeros
   * to at least `width` characters.
   */
  function ZeroPad(n: nat, width: nat): (r: string)
  {
    var d := NatToString(n);
    if |d| < width then Zeros(width - |d|) + d else d
  }

  /** A digit run with `_` allowed only between two digits, as `int(...)` accepts it. */
  predicate IsUnderscoredDigits(s: string) {
    && s != []
    && IsDigit(s[0]) && IsDigit(s[|s| - 1])
    && (forall i :: 0 <= i < |s| ==> IsDigit(s[i]) || s[i] == '_')
    && (forall i :: 0 <= i < |s| - 1 && s[i] == '_' ==> IsDigit(s[i + 1]))
  }

  function DropUnderscores(s: string): (r: string)
    requires forall i :: 0 <= i < |s| ==> IsDigit(s[i]) || s[i] == '_'
    ensures AllDigits(r)
    ensures AllDigits(s) ==> r == s
  {
    if s == [] then []
    else (if s[0] == '_' then [] else [s[0]]) + DropUnderscores(s[1..])
  }

  /** The digits part of `int(...)`: `digit ("_"? digit)*`. */
  function ParseUnsigned(s: string): Option<nat> {
    if IsUnderscoredDigits(s) then Some(DigitsValue(DropUnderscores(s))) else None
  }

  /**
   * Python's `int(s)` in base 10: surrounding whitespace, an optional sign,
   * then digits with single underscores between them. `None` is the
   * `ValueError` that any other text raises.
   */
  function ParseInt(s: string): Option<int> {
    ParseSigned(Strip(s))
  }

  /** `int(...)` of text that is already stripped: an optional sign, then digits. */
  function ParseSigned(t: string): Option<int> {
    if t != [] && (t[0] == '-' || t[0] == '+') then
      match ParseUnsigned(t[1..])
      case Some(v) => Some(if t[0] == '-' then -(v as int) else v as int)
      case None => None
    else
      match ParseUnsigned(t)
      case Some(v) => Some(v as int)
      case None => None
  }

  lemma {:induction false} ParseUnsignedNat(n: nat)
    ensures ParseUnsigned(NatToString(n)) == Some(n)
  {
    var d := NatToString(n);
    assert IsUnderscoredDigits(d);
  }

  lemma {:induction false} ParseIntNat(n: nat)
    ensures ParseInt(NatToString(n)) == Some(n)
  {
    var d := NatToString(n);
    StripUnpadded(d);
    ParseUnsignedNat(n);
    ParseSignedUnsigned(d);
  }

  lemma ParseSignedUnsigned(t: string)
    requires t != [] && IsDigit(t[0])
    ensures ParseSigned(t) == ParseUnsigned(t)
  {
  }

  lemma {:induction false} ParseIntNegative(n: nat)
    ensures ParseInt("-" + NatToString(n)) == Some(-(n as int))
  {
    var d := NatToString(n);
    var s := "-" + d;
    assert !IsSpace(s[0]) && s[|s| - 1] == d[|d| - 1];
    StripUnpadded(s);
    ParseUnsignedNat(n);
    ParseSignedNegative(d, n);
  }

  lemma ParseSignedNegative(d: string, n: nat)
    requires ParseUnsigned(d) == Some(n)
    ensures ParseSigned("-" + d) == Some(-(n as int))
  {
    assert ("-" + d)[1..] == d;
  }

  /** `int(str(i)) == i`. */
  lemma {:induction false} ParseIntToString(i: int)
    ensures ParseInt(IntToString(i)) == Some(i)
  {
    if i < 0 {
      ParseIntToStringNegative(i);
    } else {
      ParseIntNat(i);
    }
  }

  lemma ParseIntToStringNegative(i: int)
    requires i < 0
    ensures ParseInt(IntToString(i)) == Some(i)
  {
    var n: nat := -i;
    assert IntToString(i) == "-" + NatToString(n);
    ParseIntNegative(n);
  }

  /** The part of `s` before the first `c` (all of `s` when there is none). */
  function TakeUntil(s: string, c: char): (r: string)
    ensures |r| <= |s| && r == s[..|r|] && c !in r
    ensures |r| < |s| ==> s[|r|] == c
  {
    if s == [] || s[0] == c then [] else [s[0]] + TakeUntil(s[1..], c)
  }

  lemma {:induction false} TakeUntilPrefix(a: string, c: char, b: string)
    requires c !in a
    ensures TakeUntil(a + [c] + b, c) == a
    decreases |a|
  {
    if a != [] {
      assert (a + [c] + b)[1..] == a[1..] + [c] + b;
      TakeUntilPrefix(a[1..], c, b);
    }
  }
}
