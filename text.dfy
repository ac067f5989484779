/** String helpers with the semantics of the JavaScript and SQLite operations the
    data layer relies on: ASCII case folding (SQLite's NOCASE collation and LIKE),
    decimal rendering (`String(n)`), `padStart(2, '0')`, `parseInt(s, 10)`,
    `String.prototype.trim`, `endsWith` and SQLite's BINARY collation. */
module Text {
  import opened Wrappers

  // ---------------------------------------------------------------------------
  // ASCII case folding: SQLite folds only the 26 upper-case ASCII letters.

  function LowerChar(c: char): char {
    if 'A' <= c <= 'Z' then (c as int + 32) as char else c
  }

  function Lower(s: string): (r: string)
    ensures |r| == |s|
    ensures forall i :: 0 <= i < |s| ==> r[i] == LowerChar(s[i])
  {
    seq(|s|, i requires 0 <= i < |s| => LowerChar(s[i]))
  }

  predicate OccursAt(s: string, part: string, i: int) {
    0 <= i <= |s| - |part| && s[i..i + |part|] == part
  }

  predicate Contains(s: string, part: string) {
    exists i :: 0 <= i <= |s| - |part| && OccursAt(s, part, i)
  }

  predicate EndsWith(s: string, c: char) {
    |s| > 0 && s[|s| - 1] == c
  }

  // ---------------------------------------------------------------------------
  // Decimal digits.

  predicate IsDigit(c: char) {
    '0' <= c <= '9'
  }

  predicate AllDigits(s: string) {
    forall i :: 0 <= i < |s| ==> IsDigit(s[i])
  }

  function DigitChar(d: nat): char
    requires d < 10
  {
    ('0' as int + d) as char
  }

  function DigitValue(c: char): nat
    requires IsDigit(c)
  {
    c as int - '0' as int
  }

  /** `String(n)` for a non-negative integer: its decimal digits, without a
      leading zero. */
  function NatToString(n: nat): (r: string)
    ensures 1 <= |r| && AllDigits(r)
    ensures |r| == 1 <==> n < 10
    decreases n
  {
    if n < 10 then [DigitChar(n)] else NatToString(n / 10) + [DigitChar(n % 10)]
  }

  /** `String(i)` for any integer: a minus sign before the digits of a negative one. */
  function IntToString(i: int): string {
    if i < 0 then "-" + NatToString(-i) else NatToString(i)
  }

  /** The number a string of decimal digits denotes (leading zeros allowed). */
  function DigitsValue(s: string): nat
    requires AllDigits(s)
    decreases |s|
  {
    if s == [] then 0 else DigitsValue(s[..|s| - 1]) * 10 + DigitValue(s[|s| - 1])
  }

  /** Reading back the digits `String(n)` writes gives `n`. */
  lemma {:induction false} DigitsValueOfNatToString(n: nat)
    ensures DigitsValue(NatToString(n)) == n
  {
    if n >= 10 {
      var s := NatToString(n / 10) + [DigitChar(n % 10)];
      assert s[..|s| - 1] == NatToString(n / 10);
      DigitsValueOfNatToString(n / 10);
    }
  }

  /** Leading zeros do not change the value of a digit string. */
  lemma {:induction false} DigitsValueLeadingZeros(z: string, s: string)
    requires forall i :: 0 <= i < |z| ==> z[i] == '0'
    requires AllDigits(s)
    ensures AllDigits(z + s) && DigitsValue(z + s) == DigitsValue(s)
    decreases |s|
  {
    if s == [] {
      assert z + s == z;
      OnlyZeros(z);
    } else {
      var zs := z + s;
      assert zs[..|zs| - 1] == z + s[..|s| - 1];
      DigitsValueLeadingZeros(z, s[..|s| - 1]);
    }
  }

  lemma {:induction false} OnlyZeros(z: string)
    requires forall i :: 0 <= i < |z| ==> z[i] == '0'
    ensures AllDigits(z) && DigitsValue(z) == 0
    decreases |z|
  {
    if z != [] {
      OnlyZeros(z[..|z| - 1]);
    }
  }

  /** `s.padStart(2, '0')`: zeros on the left up to length two; a longer string
      is left as it is. */
  function PadTwo(s: string): (r: string)
    ensures |r| == if |s| < 2 then 2 else |s|
    ensures r[|r| - |s|..] == s
    ensures forall i :: 0 <= i < |r| - |s| ==> r[i] == '0'
  {
    if |s| >= 2 then s else if |s| == 1 then "0" + s else "00"
  }

  /** The zero-padded rendering of `n` still reads back as `n`. */
  lemma PadTwoValue(n: nat)
    ensures AllDigits(PadTwo(NatToString(n)))
    ensures DigitsValue(PadTwo(NatToString(n))) == n
  {
    var s := NatToString(n);
    var p := PadTwo(s);
    var z := p[..|p| - |s|];
    assert p == z + s;
    DigitsValueLeadingZeros(z, s);
    DigitsValueOfNatToString(n);
  }

  // ---------------------------------------------------------------------------
  // Whitespace and `parseInt`.

  /** The characters JavaScript's `trim` and `parseInt` skip: WhiteSpace and
      LineTerminator of ECMA-262 (tab, line feed, vertical tab, form feed,
      carriage return, the space separators of Unicode category Zs, the line
      and paragraph separators and the byte-order mark). */
  predicate IsJsSpace(c: char) {
    || c == '\t' || c == '\n' || c == '\U{000B}' || c == '\U{000C}' || c == '\r'
    || c == ' ' || c == '\U{00A0}' || c == '\U{1680}'
    || ('\U{2000}' <= c <= '\U{200A}')
    || c == '\U{2028}' || c == '\U{2029}' || c == '\U{202F}' || c == '\U{205F}'
    || c == '\U{3000}' || c == '\U{FEFF}'
  }

  function TrimStart(s: string): (r: string)
    ensures |r| <= |s| && r == s[|s| - |r|..]
    ensures r != [] ==> !IsJsSpace(r[0])
  {
    if s != [] && IsJsSpace(s[0]) then TrimStart(s[1..]) else s
  }

  function TrimEnd(s: string): (r: string)
    ensures |r| <= |s| && r == s[..|r|]
    ensures r != [] ==> !IsJsSpace(r[|r| - 1])
  {
    if s != [] && IsJsSpace(s[|s| - 1]) then TrimEnd(s[..|s| - 1]) else s
  }

  /** What `TrimStart` drops is whitespace. */
  lemma {:induction false} TrimStartDropsSpace(s: string)
    ensures forall i :: 0 <= i < |s| - |TrimStart(s)| ==> IsJsSpace(s[i])
    decreases |s|
  {
    if s != [] && IsJsSpace(s[0]) {
      TrimStartDropsSpace(s[1..]);
      var n := |s| - |TrimStart(s)|;
      forall i | 0 <= i < n ensures IsJsSpace(s[i]) {
        if i > 0 {
          assert s[i] == s[1..][i - 1];
        }
      }
    }
  }

  /** What `TrimEnd` drops is whitespace. */
  lemma {:induction false} TrimEndDropsSpace(s: string)
    ensures forall i :: |TrimEnd(s)| <= i < |s| ==> IsJsSpace(s[i])
    decreases |s|
  {
    if s != [] && IsJsSpace(s[|s| - 1]) {
      TrimEndDropsSpace(s[..|s| - 1]);
      var n := |TrimEnd(s)|;
      forall i | n <= i < |s| ensures IsJsSpace(s[i]) {
        if i < |s| - 1 {
          assert s[i] == s[..|s| - 1][i];
        }
      }
    }
  }

  /** `s.trim()`: the longest slice of `s` that neither starts nor ends with
      whitespace. */
  function Trim(s: string): (r: string)
    ensures |r| <= |s|
    ensures r != [] ==> !IsJsSpace(r[0]) && !IsJsSpace(r[|r| - 1])
    ensures exists i, j :: 0 <= i <= j <= |s| && r == s[i..j] &&
              forall k :: 0 <= k < i || j <= k < |s| ==> IsJsSpace(s[k])
  {
    TrimIsSlice(s);
    TrimEnd(TrimStart(s))
  }

  /** What `Trim` keeps is a slice of `s` with only whitespace outside it. */
  lemma {:induction false} TrimIsSlice(s: string)
    ensures exists i, j :: 0 <= i <= j <= |s| && TrimEnd(TrimStart(s)) == s[i..j] &&
              forall k :: 0 <= k < i || j <= k < |s| ==> IsJsSpace(s[k])
  {
    TrimSliceOf(s);
    TrimSpaceOutside(s);
    var i := |s| - |TrimStart(s)|;
    SliceWitness(s, TrimEnd(TrimStart(s)), i, i + |TrimEnd(TrimStart(s))|);
  }

  /** The bounds of that slice: from the first character `TrimStart` keeps. */
  lemma {:induction false} TrimSliceOf(s: string)
    ensures var i := |s| - |TrimStart(s)|;
            TrimEnd(TrimStart(s)) == s[i..i + |TrimEnd(TrimStart(s))|]
  {
    var t := TrimStart(s);
    PrefixOfSuffix(s, t, TrimEnd(t));
  }

  /** Everything outside those bounds is whitespace. */
  lemma {:induction false} TrimSpaceOutside(s: string)
    ensures var i := |s| - |TrimStart(s)|;
            forall k :: 0 <= k < i || i + |TrimEnd(TrimStart(s))| <= k < |s| ==> IsJsSpace(s[k])
  {
    var t := TrimStart(s);
    TrimStartDropsSpace(s);
    TrimEndDropsSpace(t);
    SpaceAround(s, t, TrimEnd(t));
  }

  /** Bounds `i`, `j` with these properties witness the existential. The
      helpers below are stated as implications over plain sequences, so that
      their callers only match them and never reason about slices next to the
      recursive trimming functions. */
  lemma SliceWitness(s: string, u: string, i: int, j: int)
    ensures (0 <= i <= j <= |s| && u == s[i..j] &&
             forall k :: 0 <= k < i || j <= k < |s| ==> IsJsSpace(s[k])) ==>
            exists i, j :: 0 <= i <= j <= |s| && u == s[i..j] &&
              forall k :: 0 <= k < i || j <= k < |s| ==> IsJsSpace(s[k])
  {
  }

  /** A prefix `u` of a suffix `t` of `s` is a slice of `s`. */
  lemma PrefixOfSuffix<T>(s: seq<T>, t: seq<T>, u: seq<T>)
    ensures (|t| <= |s| && t == s[|s| - |t|..] && |u| <= |t| && u == t[..|u|]) ==>
            u == s[|s| - |t|..|s| - |t| + |u|]
  {
  }

  /** With whitespace dropped before the suffix `t` of `s` and after the prefix
      `u` of `t`, everything of `s` outside `u` is whitespace. */
  lemma {:induction false} SpaceAround(s: string, t: string, u: string)
    ensures (&& |t| <= |s| && t == s[|s| - |t|..] && |u| <= |t|
             && (forall k :: 0 <= k < |s| - |t| ==> IsJsSpace(s[k]))
             && (forall k :: |u| <= k < |t| ==> IsJsSpace(t[k]))) ==>
            forall k :: 0 <= k < |s| - |t| || |s| - |t| + |u| <= k < |s| ==> IsJsSpace(s[k])
  {
    var i := |s| - |t|;
    if |t| <= |s| && t == s[i..] && |u| <= |t| && forall k :: |u| <= k < |t| ==> IsJsSpace(t[k]) {
      forall k | i + |u| <= k < |s| ensures IsJsSpace(s[k]) {
        assert s[k] == t[k - i];
      }
    }
  }

  /** `trim` gives the empty string exactly when `s` is all whitespace. */
  lemma TrimAllSpace(s: string)
    ensures Trim(s) == [] <==> forall i :: 0 <= i < |s| ==> IsJsSpace(s[i])
  {
    var t := TrimStart(s);
    TrimStartDropsSpace(s);
    if t != [] {
      assert t[0] == s[|s| - |t|];
      TrimEndDropsSpace(t);
    }
  }

  /** The longest prefix of decimal digits. */
  function DigitPrefix(s: string): (r: string)
    ensures |r| <= |s| && r == s[..|r|] && AllDigits(r)
    ensures |r| < |s| ==> !IsDigit(s[|r|])
  {
    if s == [] || !IsDigit(s[0]) then [] else [s[0]] + DigitPrefix(s[1..])
  }

  /** `parseInt(s, 10)`: skip leading whitespace, take an optional sign and the
      longest run of digits after it; None stands for NaN (no digit there). */
  function ParseIntDecimal(s: string): Option<int> {
    ParseSigned(TrimStart(s))
  }

  /** `parseInt` after the leading whitespace is gone. */
  function ParseSigned(t: string): Option<int> {
    if |t| > 0 && t[0] == '-' then
      match ParseDigits(t[1..])
      case None => None
      case Some(n) => Some(-(n as int))
    else if |t| > 0 && t[0] == '+' then ParseDigits(t[1..])
    else ParseDigits(t)
  }

  /** The value of the digits at the start of `u`; None when there are none. */
  function ParseDigits(u: string): Option<nat> {
    var d := DigitPrefix(u);
    if d == [] then None else Some(DigitsValue(d))
  }

  /** The digit prefix of a digit string is the whole string. */
  lemma {:induction false} DigitPrefixOfDigits(d: string)
    requires AllDigits(d)
    ensures DigitPrefix(d) == d
    decreases |d|
  {
    if d != [] {
      DigitPrefixOfDigits(d[1..]);
      assert [d[0]] + d[1..] == d;
    }
  }

  lemma ParseDigitsOfDigits(d: string)
    requires d != [] && AllDigits(d)
    ensures ParseDigits(d) == Some(DigitsValue(d))
  {
    DigitPrefixOfDigits(d);
  }

  /** Nothing is trimmed from a string that starts with a non-space. */
  lemma TrimStartNoSpace(s: string)
    requires s != [] && !IsJsSpace(s[0])
    ensures TrimStart(s) == s
  {
  }

  /** `parseInt` of a non-empty digit string, with or without a minus sign. */
  lemma ParseUnsigned(d: string)
    requires d != [] && AllDigits(d)
    ensures ParseIntDecimal(d) == Some(DigitsValue(d))
  {
    calc {
      ParseIntDecimal(d);
      ParseSigned(TrimStart(d));
    == { DigitNotSpace(d[0]); TrimStartNoSpace(d); }
      ParseSigned(d);
    == { ParseSignedDigit(d); }
      ParseDigits(d);
    == { ParseDigitsOfDigits(d); }
      Some(DigitsValue(d) as int);
    }
  }

  lemma DigitNotSpace(c: char)
    requires IsDigit(c)
    ensures !IsJsSpace(c)
  {
  }

  /** `parseInt` of a string that starts with a digit reads the digits. */
  lemma ParseSignedDigit(t: string)
    requires t != [] && IsDigit(t[0])
    ensures ParseSigned(t) == ParseDigits(t)
  {
  }

  lemma ParseSignedMinus(t: string, u: string)
    requires t != [] && t[0] == '-' && t[1..] == u
    ensures ParseSigned(t) == if ParseDigits(u).None? then None else Some(-(ParseDigits(u).value as int))
  {
  }

  /** `parseInt` of a minus sign followed by a non-empty digit string of value `v`. */
  lemma ParseMinusDigits(t: string, d: string, v: nat)
    requires t != [] && t[0] == '-' && t[1..] == d
    requires d != [] && AllDigits(d) && DigitsValue(d) == v
    ensures ParseIntDecimal(t) == Some(-(v as int))
  {
    TrimStartNoSpace(t);
    ParseSignedMinus(t, d);
    ParseDigitsOfDigits(d);
  }

  lemma HeadAndTail<T>(x: T, d: seq<T>)
    ensures ([x] + d)[0] == x && ([x] + d)[1..] == d
  {
  }

  /** `parseInt(String(i), 10) == i`: what the settings table stores reads back
      unchanged. */
  lemma ParseIntOfIntToString(i: int)
    ensures ParseIntDecimal(IntToString(i)) == Some(i)
  {
    if i < 0 {
      ParseNegativeText(-i);
    } else {
      ParseNatText(i);
    }
  }

  lemma ParseNatText(n: nat)
    ensures ParseIntDecimal(NatToString(n)) == Some(n as int)
  {
    ParseUnsigned(NatToString(n));
    DigitsValueOfNatToString(n);
  }

  lemma ParseNegativeText(n: nat)
    requires n > 0
    ensures ParseIntDecimal(IntToString(-(n as int))) == Some(-(n as int))
  {
    var d := NatToString(n);
    var t := IntToString(-(n as int));
    assert t == ['-'] + d;
    HeadAndTail('-', d);
    DigitsValueOfNatToString(n);
    ParseMinusDigits(t, d, n);
  }

  // ---------------------------------------------------------------------------
  // JavaScript's `.length`.

  /** The UTF-16 code units of one character: a character above U+FFFF is
      stored as a surrogate pair. */
  function CodeUnits(c: char): nat {
    if c as int >= 0x1_0000 then 2 else 1
  }

  /** `s.length` in JavaScript: the number of UTF-16 code units. */
  function Utf16Length(s: string): (n: nat)
    ensures |s| <= n <= 2 * |s|
  {
    if s == [] then 0 else CodeUnits(s[0]) + Utf16Length(s[1..])
  }

  /** Within the Basic Multilingual Plane `.length` counts characters. */
  lemma {:induction false} Utf16LengthBmp(s: string)
    requires forall i :: 0 <= i < |s| ==> s[i] as int < 0x1_0000
    ensures Utf16Length(s) == |s|
    decreases |s|
  {
    if s != [] {
      Utf16LengthBmp(s[1..]);
    }
  }

  /** Outside it every character counts twice. */
  lemma {:induction false} Utf16LengthAstral(s: string)
    requires forall i :: 0 <= i < |s| ==> s[i] as int >= 0x1_0000
    ensures Utf16Length(s) == 2 * |s|
    decreases |s|
  {
    if s != [] {
      Utf16LengthAstral(s[1..]);
    }
  }

  // ---------------------------------------------------------------------------
  // SQLite's BINARY collation.

  /** `a` sorts no later than `b` under BINARY collation: code points compared
      left to right, a proper prefix first (the order of their UTF-8 bytes). */
  predicate StrLe(a: string, b: string)
    decreases |a|
  {
    |a| == 0 || (|b| > 0 && if a[0] == b[0] then StrLe(a[1..], b[1..]) else a[0] < b[0])
  }

  lemma {:induction false} StrLeTotal(a: string, b: string)
    ensures StrLe(a, b) || StrLe(b, a)
    decreases |a|
  {
    if |a| > 0 && |b| > 0 && a[0] == b[0] {
      StrLeTotal(a[1..], b[1..]);
    }
  }

  lemma {:induction false} StrLeTransitive(a: string, b: string, c: string)
    requires StrLe(a, b) && StrLe(b, c)
    ensures StrLe(a, c)
    decreases |a|
  {
    if |a| > 0 && a[0] == b[0] && b[0] == c[0] {
      StrLeTransitive(a[1..], b[1..], c[1..]);
    }
  }
}
