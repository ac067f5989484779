/** Clock-style rendering of whole seconds (`formatDuration`, `formatTimerDisplay`)
    and the rule that marks a stored timestamp as UTC. A small reader for the
    colon-separated form is the partner of both renderers: reading a rendering
    back gives the number of seconds it was made from. */
module Formatting {
  import opened Text
  import opened Wrappers

  /** JavaScript's `%`: the remainder takes the sign of the dividend. */
  function JsRem(a: int, b: int): int
    requires b > 0
  {
    if a >= 0 then a % b else -((-a) % b)
  }

  /** `String(n).padStart(2, '0')`. */
  function Pad(n: int): string {
    PadTwo(IntToString(n))
  }

  /** `formatDuration`: "H:MM:SS" when there is at least one hour, else "M:SS".
      `Math.floor(t / d)` is Dafny's `t / d`, which rounds down for d > 0. */
  function FormatDuration(totalSeconds: int): string {
    var hours := totalSeconds / 3600;
    var minutes := JsRem(totalSeconds, 3600) / 60;
    var seconds := JsRem(totalSeconds, 60);
    if hours > 0 then IntToString(hours) + ":" + Pad(minutes) + ":" + Pad(seconds)
    else IntToString(minutes) + ":" + Pad(seconds)
  }

  /** `formatTimerDisplay`: "MM:SS", minutes not wrapped at an hour. */
  function FormatTimerDisplay(seconds: int): string {
    var mins := seconds / 60;
    var secs := JsRem(seconds, 60);
    Pad(mins) + ":" + Pad(secs)
  }

  // ---------------------------------------------------------------------------
  // Reading a clock string back.

  /** The colon-separated fields of `s`. */
  function SplitColon(s: string): (r: seq<string>)
    ensures |r| >= 1
    decreases |s|
  {
    if s == [] then [[]]
    else if s[|s| - 1] == ':' then SplitColon(s[..|s| - 1]) + [[]]
    else
      var p := SplitColon(s[..|s| - 1]);
      p[..|p| - 1] + [p[|p| - 1] + [s[|s| - 1]]]
  }

  predicate DigitFields(fields: seq<string>) {
    forall i :: 0 <= i < |fields| ==> fields[i] != [] && AllDigits(fields[i])
  }

  /** The fields read as base-60 places, most significant first. */
  function Base60(fields: seq<string>): nat
    requires DigitFields(fields)
  {
    if fields == [] then 0
    else Base60(fields[..|fields| - 1]) * 60 + DigitsValue(fields[|fields| - 1])
  }

  /** "M:SS" or "H:MM:SS" read as a number of seconds; None for any other shape. */
  function ParseClock(s: string): Option<nat> {
    var fields := SplitColon(s);
    if 2 <= |fields| <= 3 && DigitFields(fields) then Some(Base60(fields)) else None
  }

  lemma {:induction false} SplitColonNoColon(b: string)
    requires AllDigits(b)
    ensures SplitColon(b) == [b]
    decreases |b|
  {
    if b != [] {
      SplitColonNoColon(b[..|b| - 1]);
      assert b[..|b| - 1] + [b[|b| - 1]] == b;
    }
  }

  lemma {:induction false} SplitColonAppend(a: string, b: string)
    requires AllDigits(b)
    ensures SplitColon(a + ":" + b) == SplitColon(a) + [b]
    decreases |b|
  {
    var s := a + ":" + b;
    if b == [] {
      assert s[..|s| - 1] == a;
    } else {
      var b' := b[..|b| - 1];
      assert s[..|s| - 1] == a + ":" + b';
      SplitColonAppend(a, b');
      assert b' + [b[|b| - 1]] == b;
    }
  }

  lemma Base60Two(a: string, b: string)
    requires a != [] && AllDigits(a) && b != [] && AllDigits(b)
    ensures DigitFields([a, b])
    ensures Base60([a, b]) == DigitsValue(a) * 60 + DigitsValue(b)
  {
    assert DigitFields([a]);
    assert Base60([a]) == DigitsValue(a) by {
      assert [a][..0] == [];
    }
    assert [a, b][..1] == [a];
  }

  lemma Base60Three(a: string, b: string, c: string)
    requires a != [] && AllDigits(a) && b != [] && AllDigits(b) && c != [] && AllDigits(c)
    ensures DigitFields([a, b, c])
    ensures Base60([a, b, c]) == (DigitsValue(a) * 60 + DigitsValue(b)) * 60 + DigitsValue(c)
  {
    assert [a, b, c][..2] == [a, b];
    Base60Two(a, b);
  }

  /** Splitting "A:B" and "A:B:C" into their fields, for digit strings. */
  lemma SplitTwo(a: string, b: string)
    requires AllDigits(a) && AllDigits(b)
    ensures SplitColon(a + ":" + b) == [a, b]
  {
    SplitColonAppend(a, b);
    SplitColonNoColon(a);
  }

  lemma SplitThree(a: string, b: string, c: string)
    requires AllDigits(a) && AllDigits(b) && AllDigits(c)
    ensures SplitColon(a + ":" + b + ":" + c) == [a, b, c]
  {
    SplitColonAppend(a + ":" + b, c);
    SplitTwo(a, b);
  }

  /** Division by 60 is determined by quotient and remainder. */
  lemma DivMod60(n: nat, q: int, r: int)
    requires 0 <= r < 60 && n == 60 * q + r
    ensures n / 60 == q && n % 60 == r
  {
  }

  // ---------------------------------------------------------------------------
  // Stored timestamps.

  /** `parseUTCTimestamp`'s suffix rule: a trailing 'Z' is added only when it is
      missing (the date parsing itself is not part of the model). */
  function NormalizeUtc(timestamp: string): (r: string)
    ensures EndsWith(r, 'Z')
    ensures r == timestamp || r == timestamp + "Z"
    ensures EndsWith(timestamp, 'Z') <==> r == timestamp
  {
    if EndsWith(timestamp, 'Z') then timestamp else timestamp + "Z"
  }

  lemma NormalizeUtcIdempotent(timestamp: string)
    ensures NormalizeUtc(NormalizeUtc(timestamp)) == NormalizeUtc(timestamp)
  {
  }
}
