/** The round trips of the two clock renderers through the reader. */
module ClockRoundTrip {
  import opened Text
  import opened Wrappers
  import opened Formatting

  /** The hour, minute and second fields of a non-negative duration. */
  lemma ClockFields(n: nat)
    ensures n == (n / 3600) * 3600 + ((n % 3600) / 60) * 60 + n % 60
    ensures JsRem(n, 3600) == n % 3600 && JsRem(n, 60) == n % 60
  {
    var hours := n / 3600;
    var rem := n % 3600;
    var minutes := rem / 60;
    var seconds := rem % 60;
    assert n == 3600 * hours + rem;
    assert rem == 60 * minutes + seconds;
    DivMod60(n, 60 * hours + minutes, seconds);
  }

  /** The text `formatDuration` renders for a non-negative duration, field by field. */
  lemma FormatDurationText(n: nat)
    ensures n / 3600 > 0 ==>
      FormatDuration(n) == NatToString(n / 3600) + ":" + Pad((n % 3600) / 60) + ":" + Pad(n % 60)
    ensures n / 3600 == 0 ==> FormatDuration(n) == NatToString((n % 3600) / 60) + ":" + Pad(n % 60)
  {
    ClockFields(n);
  }

  /** Reading "A:B" and "A:B:C" for non-empty digit fields. */
  lemma ParseTwo(a: string, b: string)
    requires a != [] && AllDigits(a) && b != [] && AllDigits(b)
    ensures ParseClock(a + ":" + b) == Some(DigitsValue(a) * 60 + DigitsValue(b))
  {
    var s := a + ":" + b;
    SplitTwo(a, b);
    Base60Two(a, b);
    var f := SplitColon(s);
    assert f == [a, b];
    assert |f| == 2 && DigitFields(f);
    assert ParseClock(s) == Some(Base60(f));
  }

  lemma ParseThree(a: string, b: string, c: string)
    requires a != [] && AllDigits(a) && b != [] && AllDigits(b) && c != [] && AllDigits(c)
    ensures ParseClock(a + ":" + b + ":" + c) ==
            Some((DigitsValue(a) * 60 + DigitsValue(b)) * 60 + DigitsValue(c))
  {
    var s := a + ":" + b + ":" + c;
    SplitThree(a, b, c);
    Base60Three(a, b, c);
    var f := SplitColon(s);
    assert f == [a, b, c];
    assert |f| == 3;
    assert DigitFields(f);
    assert ParseClock(s) == Some(Base60(f));
  }

  lemma PadValue(m: nat)
    ensures Pad(m) != [] && AllDigits(Pad(m)) && DigitsValue(Pad(m)) == m
  {
    PadTwoValue(m);
  }

  lemma NatStringValue(m: nat)
    ensures NatToString(m) != [] && AllDigits(NatToString(m)) && DigitsValue(NatToString(m)) == m
  {
    DigitsValueOfNatToString(m);
  }

  /** A field that reads as `v`. */
  predicate Reads(field: string, v: nat) {
    field != [] && AllDigits(field) && DigitsValue(field) == v
  }

  lemma LongRoundTrip(h: string, m: string, s: string, hours: nat, minutes: nat, seconds: nat)
    requires Reads(h, hours) && Reads(m, minutes) && Reads(s, seconds)
    ensures ParseClock(h + ":" + m + ":" + s) == Some(hours * 3600 + minutes * 60 + seconds)
  {
    ParseThree(h, m, s);
    assert (hours * 60 + minutes) * 60 + seconds == hours * 3600 + minutes * 60 + seconds;
  }

  lemma ShortRoundTrip(m: string, s: string, minutes: nat, seconds: nat)
    requires Reads(m, minutes) && Reads(s, seconds)
    ensures ParseClock(m + ":" + s) == Some(minutes * 60 + seconds)
  {
    ParseTwo(m, s);
  }

  /** Reading back what `formatDuration` renders gives the seconds it started from. */
  lemma FormatDurationRoundTrip(n: nat)
    ensures ParseClock(FormatDuration(n)) == Some(n)
  {
    FormatDurationText(n);
    if n / 3600 > 0 {
      LongFormatReads(n);
    } else {
      ShortFormatReads(n);
    }
  }

  /** "H:MM:SS" built from the three fields reads back as their total. */
  lemma LongFieldsRead(hours: nat, minutes: nat, seconds: nat)
    ensures ParseClock(NatToString(hours) + ":" + Pad(minutes) + ":" + Pad(seconds)) == Some(hours * 3600 + minutes * 60 + seconds)
  {
    NatStringValue(hours);
    PadValue(minutes);
    PadValue(seconds);
    LongRoundTrip(NatToString(hours), Pad(minutes), Pad(seconds), hours, minutes, seconds);
  }

  /** "M:SS" built from the two fields reads back as their total. */
  lemma ShortFieldsRead(minutes: nat, seconds: nat)
    ensures ParseClock(NatToString(minutes) + ":" + Pad(seconds)) == Some(minutes * 60 + seconds)
  {
    NatStringValue(minutes);
    PadValue(seconds);
    ShortRoundTrip(NatToString(minutes), Pad(seconds), minutes, seconds);
  }

  /** "MM:SS" built from the two fields reads back as their total. */
  lemma PaddedFieldsRead(minutes: nat, seconds: nat)
    ensures ParseClock(Pad(minutes) + ":" + Pad(seconds)) == Some(minutes * 60 + seconds)
  {
    PadValue(minutes);
    PadValue(seconds);
    ShortRoundTrip(Pad(minutes), Pad(seconds), minutes, seconds);
  }

  lemma LongFormatReads(n: nat)
    ensures ParseClock(NatToString(n / 3600) + ":" + Pad((n % 3600) / 60) + ":" + Pad(n % 60)) == Some(n)
  {
    var h, m, sec := n / 3600, (n % 3600) / 60, n % 60;
    calc {
      ParseClock(NatToString(h) + ":" + Pad(m) + ":" + Pad(sec));
    == { LongFieldsRead(h, m, sec); }
      Some(h * 3600 + m * 60 + sec);
    == { ClockFields(n); }
      Some(n);
    }
  }

  lemma ShortFormatReads(n: nat)
    requires n / 3600 == 0
    ensures ParseClock(NatToString((n % 3600) / 60) + ":" + Pad(n % 60)) == Some(n)
  {
    var m, sec := (n % 3600) / 60, n % 60;
    calc {
      ParseClock(NatToString(m) + ":" + Pad(sec));
    == { ShortFieldsRead(m, sec); }
      Some(m * 60 + sec);
    == { ClockFields(n); }
      Some(n);
    }
  }

  /** The text `formatTimerDisplay` renders for a non-negative number of seconds. */
  lemma TimerDisplayText(n: nat)
    ensures FormatTimerDisplay(n) == Pad(n / 60) + ":" + Pad(n % 60)
  {
    assert JsRem(n, 60) == n % 60;
  }

  /** Reading back what `formatTimerDisplay` renders gives the seconds it started from. */
  lemma FormatTimerDisplayRoundTrip(n: nat)
    ensures ParseClock(FormatTimerDisplay(n)) == Some(n)
  {
    var m, sec := n / 60, n % 60;
    calc {
      ParseClock(FormatTimerDisplay(n));
    == { TimerDisplayText(n); }
      ParseClock(Pad(m) + ":" + Pad(sec));
    == { PaddedFieldsRead(m, sec); }
      Some(m * 60 + sec);
    == 
      Some(n);
    }
  }

  /** An hour or more always renders with three fields, less than an hour with two. */
  lemma FormatDurationShape(n: nat)
    ensures |SplitColon(FormatDuration(n))| == if n >= 3600 then 3 else 2
  {
    FormatDurationText(n);
    var seconds := n % 60;
    var ps := Pad(seconds);
    PadTwoValue(seconds);
    if n >= 3600 {
      var h := NatToString(n / 3600);
      var pm := Pad((n % 3600) / 60);
      PadTwoValue((n % 3600) / 60);
      assert FormatDuration(n) == h + ":" + pm + ":" + ps;
      SplitThree(h, pm, ps);
    } else {
      var m := NatToString((n % 3600) / 60);
      assert FormatDuration(n) == m + ":" + ps;
      SplitTwo(m, ps);
    }
  }
}
