/**
 * The JavaScript string operations the board relies on: `trim`, `toLowerCase`,
 * `includes`, and the decimal rendering of a count inside a template literal.
 */
module Text {

  /** The code points `String.prototype.trim` strips: ECMAScript's WhiteSpace and LineTerminator. */
  predicate IsSpace(c: char) {
    var n := c as int;
    || n == 0x09 || n == 0x0A || n == 0x0B || n == 0x0C || n == 0x0D || n == 0x20
    || n == 0xA0 || n == 0x1680 || (0x2000 <= n <= 0x200A)
    || n == 0x2028 || n == 0x2029 || n == 0x202F || n == 0x205F || n == 0x3000 || n == 0xFEFF
  }

  predicate AllSpace(s: string) {
    forall i :: 0 <= i < |s| ==> IsSpace(s[i])
  }

  /** A string with no whitespace at either end, which is what `trim` returns. */
  predicate IsTrimmed(s: string) {
    s == [] || (!IsSpace(s[0]) && !IsSpace(s[|s| - 1]))
  }

  /** The number of whitespace characters at the start of `s`. */
  function LeadingSpaces(s: string): (n: nat)
    ensures n <= |s|
    ensures forall i :: 0 <= i < n ==> IsSpace(s[i])
    ensures n < |s| ==> !IsSpace(s[n])
  {
    if s != [] && IsSpace(s[0]) then 1 + LeadingSpaces(s[1..]) else 0
  }

  /** The number of whitespace characters at the end of `s`. */
  function TrailingSpaces(s: string): (n: nat)
    ensures n <= |s|
    ensures forall i :: |s| - n <= i < |s| ==> IsSpace(s[i])
    ensures n < |s| ==> !IsSpace(s[|s| - 1 - n])
  {
    if s != [] && IsSpace(s[|s| - 1]) then 1 + TrailingSpaces(s[..|s| - 1]) else 0
  }

  /** `s` without its leading whitespace. */
  function TrimStart(s: string): string {
    s[LeadingSpaces(s)..]
  }

  /** `s` without its trailing whitespace. */
  function TrimEnd(s: string): string {
    s[..|s| - TrailingSpaces(s)]
  }

  /** `s.trim()`: `s` without its leading and trailing whitespace. */
  function Trim(s: string): string {
    TrimEnd(TrimStart(s))
  }

  lemma {:induction false} TrimStartSplit(s: string)
    ensures s == s[..LeadingSpaces(s)] + TrimStart(s)
    ensures AllSpace(s[..LeadingSpaces(s)])
    ensures TrimStart(s) != [] ==> !IsSpace(TrimStart(s)[0])
  {
    var k := LeadingSpaces(s);
    forall i | 0 <= i < k ensures IsSpace(s[..k][i]) {
      assert s[..k][i] == s[i];
    }
  }

  lemma {:induction false} TrimEndSplit(t: string)
    ensures t == TrimEnd(t) + t[|TrimEnd(t)|..]
    ensures AllSpace(t[|TrimEnd(t)|..])
    ensures TrimEnd(t) != [] ==> !IsSpace(TrimEnd(t)[|TrimEnd(t)| - 1]) && TrimEnd(t)[0] == t[0]
  {
    var m := |t| - TrailingSpaces(t);
    forall i | 0 <= i < |t| - m ensures IsSpace(t[m..][i]) {
      assert t[m..][i] == t[m + i];
    }
  }

  /**
   * `Trim(s)` is the middle of `s` once whitespace is cut from both ends:
   * what precedes and follows it in `s` is all whitespace, and it is trimmed itself.
   */
  lemma {:induction false} TrimSplit(s: string)
    ensures LeadingSpaces(s) + |Trim(s)| <= |s|
    ensures s[LeadingSpaces(s)..LeadingSpaces(s) + |Trim(s)|] == Trim(s)
    ensures AllSpace(s[..LeadingSpaces(s)])
    ensures AllSpace(s[LeadingSpaces(s) + |Trim(s)|..])
    ensures IsTrimmed(Trim(s))
  {
    var k := LeadingSpaces(s);
    var t := TrimStart(s);
    var m := |t| - TrailingSpaces(t);
    TrimStartSplit(s);
    TrimEndSplit(t);
    SliceParts(s, k, m);
  }

  /** Splitting the tail `s[k..]` at `m` splits `s` at `k + m`. */
  lemma {:induction false} SliceParts<T>(s: seq<T>, k: nat, m: nat)
    requires k + m <= |s|
    ensures s[k..][..m] == s[k..k + m]
    ensures s[k..][m..] == s[k + m..]
  {
  }

  /**
   * Trim is determined by its meaning: whenever `s` is whitespace, then a
   * trimmed middle, then whitespace, `Trim(s)` is that middle.
   */
  lemma {:induction false} TrimUnique(s: string, a: string, m: string, b: string)
    requires s == a + m + b
    requires AllSpace(a) && AllSpace(b) && IsTrimmed(m)
    ensures Trim(s) == m
  {
    var k := LeadingSpaces(s);
    var t := s[k..];
    var n := TrailingSpaces(t);
    if m == [] {
      assert AllSpace(s) by {
        forall i | 0 <= i < |s| ensures IsSpace(s[i]) {
          if i < |a| { assert s[i] == a[i]; } else { assert s[i] == b[i - |a|]; }
        }
      }
      assert k == |s|;
    } else {
      assert s[|a|] == m[0];
      assert k == |a|;
      assert t == m + b;
      assert t[|m| - 1] == m[|m| - 1];
      assert n == |b|;
      assert t[..|t| - n] == m;
    }
  }

  /** `trim` is idempotent. */
  lemma {:induction false} TrimIdempotent(s: string)
    ensures Trim(Trim(s)) == Trim(s)
  {
    TrimSplit(s);
    TrimOfTrimmed(Trim(s));
  }

  /** A string with no whitespace at either end is its own trim. */
  lemma {:induction false} TrimOfTrimmed(s: string)
    requires IsTrimmed(s)
    ensures Trim(s) == s
  {
    assert s == [] + s + [];
    TrimUnique(s, [], s, []);
  }

  /** A string trims to empty exactly when all its characters are whitespace. */
  lemma {:induction false} TrimEmptyIffAllSpace(s: string)
    ensures Trim(s) == [] <==> AllSpace(s)
  {
    TrimSplit(s);
    var k := LeadingSpaces(s);
    if AllSpace(s) {
      TrimUnique(s, s, [], []);
    } else {
      var i :| 0 <= i < |s| && !IsSpace(s[i]);
      if k <= i {
        assert s[i] == s[k..][i - k];
      }
    }
  }

  /** Appending whitespace to an already trimmed string trims back to it. */
  lemma {:induction false} TrimTrailingSpace(t: string, b: string)
    requires IsTrimmed(t) && AllSpace(b)
    ensures Trim(t + b) == t
  {
    TrimUnique(t + b, [], t, b);
  }

  /** Whitespace in front of a string does not change how it trims. */
  lemma {:induction false} TrimLeadingSpace(a: string, s: string)
    requires AllSpace(a)
    ensures Trim(a + s) == Trim(s)
  {
    TrimSplit(s);
    var k, m := LeadingSpaces(s), |Trim(s)|;
    AllSpaceConcat(a, s[..k]);
    PrefixedParts(a, s, k, m);
    TrimUnique(a + s, a + s[..k], s[k..k + m], s[k + m..]);
  }

  /** `a + s` cut into `a` with the head of `s`, the middle of `s`, and the rest. */
  lemma {:induction false} PrefixedParts<T>(a: seq<T>, s: seq<T>, k: nat, m: nat)
    requires k + m <= |s|
    ensures a + s == (a + s[..k]) + s[k..k + m] + s[k + m..]
  {
    assert s == s[..k] + s[k..k + m] + s[k + m..];
  }

  lemma {:induction false} AllSpaceConcat(x: string, y: string)
    requires AllSpace(x) && AllSpace(y)
    ensures AllSpace(x + y)
  {
    forall i | 0 <= i < |x + y| ensures IsSpace((x + y)[i]) {
      if i < |x| {
        assert (x + y)[i] == x[i];
      } else {
        assert (x + y)[i] == y[i - |x|];
      }
    }
  }

  /** `toLowerCase` on one character; only the ASCII letters are mapped. */
  function LowerChar(c: char): char {
    if 'A' <= c <= 'Z' then (c as int + 32) as char else c
  }

  /** `s.toLowerCase()`, character by character. */
  function ToLower(s: string): (r: string)
    ensures |r| == |s|
    ensures forall i :: 0 <= i < |s| ==> r[i] == LowerChar(s[i])
  {
    if s == [] then [] else [LowerChar(s[0])] + ToLower(s[1..])
  }

  lemma {:induction false} LowerKeepsSpace(c: char)
    ensures IsSpace(LowerChar(c)) <==> IsSpace(c)
  {
  }

  lemma {:induction false} LowerConcat(x: string, y: string)
    ensures ToLower(x + y) == ToLower(x) + ToLower(y)
  {
    assert forall i :: 0 <= i < |x + y| ==> (x + y)[i] == if i < |x| then x[i] else y[i - |x|];
  }

  lemma {:induction false} LowerAllSpace(s: string)
    requires AllSpace(s)
    ensures ToLower(s) == s
  {
  }

  /** Lower-casing leaves whitespace on either side of a middle part as it is. */
  lemma {:induction false} LowerBetweenSpaces(a: string, mid: string, b: string)
    requires AllSpace(a) && AllSpace(b)
    ensures ToLower(a + mid + b) == a + ToLower(mid) + b
  {
    LowerConcat(a + mid, b);
    LowerConcat(a, mid);
    LowerAllSpace(a);
    LowerAllSpace(b);
  }

  /** Lower-casing a trimmed string leaves it trimmed. */
  lemma {:induction false} LowerKeepsTrimmed(s: string)
    requires IsTrimmed(s)
    ensures IsTrimmed(ToLower(s))
  {
    if s != [] {
      LowerKeepsSpace(s[0]);
      LowerKeepsSpace(s[|s| - 1]);
    }
  }

  /** Lower-casing commutes with trimming, so the order of `trim()` and `toLowerCase()` is immaterial. */
  lemma {:induction false} LowerTrimCommute(s: string)
    ensures ToLower(Trim(s)) == Trim(ToLower(s))
  {
    TrimSplit(s);
    var k, m := LeadingSpaces(s), |Trim(s)|;
    var a, mid, b := s[..k], Trim(s), s[k + m..];
    assert s == a + mid + b;
    LowerBetweenSpaces(a, mid, b);
    LowerKeepsTrimmed(mid);
    TrimUnique(ToLower(s), a, ToLower(mid), b);
  }

  /** Two strings that lower-case alike are whitespace at the same positions. */
  lemma {:induction false} LowerAlikeSameSpaces(x: string, y: string)
    requires ToLower(x) == ToLower(y)
    ensures AllSpace(x) <==> AllSpace(y)
  {
    assert |x| == |y|;
    forall i | 0 <= i < |x| ensures IsSpace(x[i]) <==> IsSpace(y[i]) {
      LowerKeepsSpace(x[i]);
      LowerKeepsSpace(y[i]);
      assert LowerChar(x[i]) == ToLower(x)[i];
    }
  }

  /** `needle` occurs in `hay` at some position. */
  ghost predicate IsInfix(needle: string, hay: string) {
    exists i :: 0 <= i <= |hay| && needle <= hay[i..]
  }

  /** `hay.includes(needle)`, scanning left to right. */
  function Includes(hay: string, needle: string): bool {
    needle <= hay || (hay != [] && Includes(hay[1..], needle))
  }

  lemma {:induction false} IncludesFindsInfix(hay: string, needle: string)
    requires Includes(hay, needle)
    ensures IsInfix(needle, hay)
  {
    if needle <= hay {
      assert hay[0..] == hay;
    } else {
      IncludesFindsInfix(hay[1..], needle);
      var i :| 0 <= i <= |hay[1..]| && needle <= hay[1..][i..];
      assert hay[1..][i..] == hay[i + 1..];
    }
  }

  lemma {:induction false} InfixIsIncluded(hay: string, needle: string)
    requires IsInfix(needle, hay)
    ensures Includes(hay, needle)
  {
    var i :| 0 <= i <= |hay| && needle <= hay[i..];
    if i > 0 {
      assert hay[1..][i - 1..] == hay[i..];
      InfixIsIncluded(hay[1..], needle);
    } else {
      assert hay[i..] == hay;
    }
  }

  /** `includes` is true exactly when the needle occurs somewhere in the haystack. */
  lemma IncludesIsInfix(hay: string, needle: string)
    ensures Includes(hay, needle) <==> IsInfix(needle, hay)
  {
    if Includes(hay, needle) {
      IncludesFindsInfix(hay, needle);
    }
    if IsInfix(needle, hay) {
      InfixIsIncluded(hay, needle);
    }
  }

  /** Lower-casing both sides keeps an occurrence. */
  lemma {:induction false} LowerKeepsInfix(needle: string, hay: string)
    requires IsInfix(needle, hay)
    ensures IsInfix(ToLower(needle), ToLower(hay))
  {
    var i :| 0 <= i <= |hay| && needle <= hay[i..];
    assert ToLower(needle) <= ToLower(hay)[i..] by {
      forall j | 0 <= j < |needle| ensures ToLower(needle)[j] == ToLower(hay)[i..][j] {
        assert needle[j] == hay[i + j];
      }
    }
  }

  /** A slice of a part of `s` is the slice of `s` at the same positions. */
  lemma {:induction false} SliceWithin<T>(s: seq<T>, off: nat, x: seq<T>, p: nat, n: nat)
    requires off + |x| <= |s| && s[off..off + |x|] == x
    requires p + n <= |x|
    ensures s[off + p..off + p + n] == x[p..p + n]
  {
    forall k | p <= k < p + n ensures x[k] == s[off + k] {
      assert x[k] == s[off..off + |x|][k];
    }
    assert s[off + p..off + p + n] == x[p..p + n];
  }

  /** The two parts of `a` and `b` joined by one character are slices of the join. */
  lemma {:induction false} JoinedParts(a: string, c: char, b: string)
    ensures (a + [c] + b)[0..0 + |a|] == a
    ensures (a + [c] + b)[|a| + 1..|a| + 1 + |b|] == b
  {
    var s := a + [c] + b;
    assert s[0..0 + |a|] == a;
    assert s[|a| + 1..|a| + 1 + |b|] == b;
  }

  /** The empty string occurs in every string. */
  lemma {:induction false} EmptyIsInfix(hay: string)
    ensures IsInfix([], hay)
  {
    assert [] <= hay[0..];
  }

  /** Any non-empty stretch `w` of `s` that begins and ends with a non-space survives trimming. */
  lemma {:induction false} TrimKeepsInner(s: string, i: nat, w: string)
    requires i + |w| <= |s| && s[i..i + |w|] == w
    requires w != [] && IsTrimmed(w)
    ensures LeadingSpaces(s) <= i && w <= Trim(s)[i - LeadingSpaces(s)..]
    ensures IsInfix(w, Trim(s))
  {
    var j := i + |w|;
    assert w[0] == s[i] && w[|w| - 1] == s[j - 1];
    var k, u := LeadingSpaces(s), TrimStart(s);
    var m := |u| - TrailingSpaces(u);
    var t := Trim(s);
    assert k <= i;
    assert u[j - 1 - k] == s[j - 1];
    assert j - k <= m;
    forall d | 0 <= d < |w| ensures t[i - k..][..|w|][d] == w[d] {
      assert w[d] == s[i..j][d] == s[i + d];
      assert t[i - k..][..|w|][d] == t[i - k + d] == u[i - k + d] == s[i + d];
    }
    assert t[i - k..][..|w|] == w;
  }

  /** The decimal digit for `d < 10`. */
  function Digit(d: nat): char
    requires d < 10
  {
    "0123456789"[d]
  }

  /** The value of a decimal digit character, 0 for any other character. */
  function DigitValue(c: char): nat {
    if '0' <= c <= '9' then c as int - '0' as int else 0
  }

  /** How a template literal such as `${n}` renders a non-negative integer. */
  function DecimalString(n: nat): (s: string)
    ensures s != []
  {
    if n < 10 then [Digit(n)] else DecimalString(n / 10) + [Digit(n % 10)]
  }

  /** Reads a string of decimal digits back as a number. */
  function DecimalValue(s: string): nat {
    if s == [] then 0 else 10 * DecimalValue(s[..|s| - 1]) + DigitValue(s[|s| - 1])
  }

  /** The rendering is all digits, and has no leading zero unless it is "0" itself. */
  lemma {:induction false} DecimalStringDigits(n: nat)
    ensures forall i :: 0 <= i < |DecimalString(n)| ==> '0' <= DecimalString(n)[i] <= '9'
    ensures n == 0 <==> DecimalString(n) == "0"
    ensures n > 0 ==> DecimalString(n)[0] != '0'
  {
    var s := DecimalString(n);
    if n >= 10 {
      DecimalStringDigits(n / 10);
      var h := DecimalString(n / 10);
      assert s == h + [Digit(n % 10)];
      assert s[0] == h[0];
      forall i | 0 <= i < |s| ensures '0' <= s[i] <= '9' {
        if i < |h| {
          assert s[i] == h[i];
        }
      }
    }
  }

  lemma {:induction false} DecimalRoundTrip(n: nat)
    ensures DecimalValue(DecimalString(n)) == n
  {
    var s := DecimalString(n);
    assert DigitValue(Digit(n % 10)) == n % 10;
    if n >= 10 {
      DecimalRoundTrip(n / 10);
      assert s[..|s| - 1] == DecimalString(n / 10);
    }
  }
}
