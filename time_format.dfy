/**
 * The player's elapsed/duration readout (`formatTime` in the video player component):
 * whole seconds shown as `H:MM:SS` when there is at least one hour, else `M:SS`.
 */
module TimeFormat {
  import opened Wrappers
  import opened JsStrings

  /** `s.padStart(2, '0')`: strings shorter than two characters get leading zeros; longer ones are kept. */
  function PadStart2(s: string): (r: string)
    ensures |s| < 2 ==> |r| == 2 && r[2 - |s|..] == s && forall k :: 0 <= k < 2 - |s| ==> r[k] == '0'
    ensures |s| >= 2 ==> r == s
  {
    if |s| >= 2 then s else seq(2 - |s|, _ => '0') + s
  }

  /** A number below 100 padded to two digits reads back as itself. */
  lemma {:induction false} TwoDigits(n: nat)
    requires n < 100
    ensures var r := PadStart2(NatToString(n)); |r| == 2 && AllDigits(r) && DigitsValue(r) == n
  {
    var d := NatToString(n);
    var r := PadStart2(d);
    NatToStringValue(n);
    if n < 10 {
      assert d == [DigitChar(n)];
      assert r == ['0', DigitChar(n)];
      assert r[..1] == ['0'];
      assert r[..1][..0] == [];
    } else {
      assert d == NatToString(n / 10) + [DigitChar(n % 10)];
      assert NatToString(n / 10) == [DigitChar(n / 10)];
      assert r == d;
    }
  }

  /** `formatTime(seconds)` for a whole, non-negative number of seconds. */
  function FormatTime(seconds: nat): (r: string)
    ensures CountChar(r, ':') == if seconds >= 3600 then 2 else 1
    ensures |r| >= 4 && r[|r| - 3] == ':'
    ensures AllDigits(r[|r| - 2..]) && DigitsValue(r[|r| - 2..]) == seconds % 60
  {
    var hours := seconds / 3600;
    var mins := seconds % 3600 / 60;
    var secs := seconds % 60;
    var ss := PadStart2(NatToString(secs));
    TwoDigits(secs);
    NoDigitColons(ss);
    if hours > 0 then
      var hh := NatToString(hours);
      var mm := PadStart2(NatToString(mins));
      TwoDigits(mins);
      NoDigitColons(hh);
      NoDigitColons(mm);
      var r := hh + ":" + mm + ":" + ss;
      CountCharAppend(hh + ":" + mm + ":", ss, ':');
      CountCharAppend(hh + ":" + mm, ":", ':');
      CountCharAppend(hh + ":", mm, ':');
      CountCharAppend(hh, ":", ':');
      assert r[|r| - 2..] == ss;
      r
    else
      var m := NatToString(mins);
      NoDigitColons(m);
      var r := m + ":" + ss;
      CountCharAppend(m + ":", ss, ':');
      CountCharAppend(m, ":", ':');
      assert r[|r| - 2..] == ss;
      r
  }

  /** Digits contain no colon. */
  lemma NoDigitColons(s: string)
    requires AllDigits(s)
    ensures CountChar(s, ':') == 0 && ':' !in s
  {
    NoCharNoCount(s, ':');
  }

  /** A field as `n.toString()` writes it: one or more decimal digits, no leading zero unless it is `0`. */
  predicate Numeral(s: string) {
    s != [] && AllDigits(s) && (|s| > 1 ==> s[0] != '0')
  }

  /** A field of exactly two decimal digits. */
  predicate TwoDigitField(s: string) {
    |s| == 2 && AllDigits(s)
  }

  /**
   * The reading a viewer takes from the readout: `H:MM:SS` with at least one hour, or `M:SS`
   * below one hour, the leading field written without leading zeros, the minutes of the hour
   * form and the seconds of exactly two digits and below 60, converted back to seconds.
   */
  function ReadClock(r: string): Option<nat> {
    ReadFields(Split(r, ":"))
  }

  function HourTotal(hours: nat, mins: nat, secs: nat): nat {
    3600 * hours + 60 * mins + secs
  }

  function ReadFields(parts: seq<string>): Option<nat> {
    if |parts| == 3 && Numeral(parts[0]) && TwoDigitField(parts[1]) && TwoDigitField(parts[2])
      && DigitsValue(parts[0]) > 0 && DigitsValue(parts[1]) < 60 && DigitsValue(parts[2]) < 60
    then Some(HourTotal(DigitsValue(parts[0]), DigitsValue(parts[1]), DigitsValue(parts[2])))
    else if |parts| == 2 && Numeral(parts[0]) && TwoDigitField(parts[1])
      && DigitsValue(parts[0]) < 60 && DigitsValue(parts[1]) < 60
    then Some(60 * DigitsValue(parts[0]) + DigitsValue(parts[1]))
    else None
  }

  /** The readout loses nothing: every whole number of seconds is read back exactly. */
  lemma FormatTimeReadsBack(seconds: nat)
    ensures ReadClock(FormatTime(seconds)) == Some(seconds)
  {
    ClockArithmetic(seconds);
    var hours, mins, secs := seconds / 3600, seconds % 3600 / 60, seconds % 60;
    if hours > 0 {
      ReadsBackHours(hours, mins, secs, seconds);
      assert FormatTime(seconds)
        == NatToString(hours) + ":" + PadStart2(NatToString(mins)) + ":" + PadStart2(NatToString(secs));
    } else {
      assert seconds < 3600;
      ReadsBackMinutes(mins, secs, seconds);
      assert FormatTime(seconds) == NatToString(mins) + ":" + PadStart2(NatToString(secs));
    }
  }

  /**
   * Nothing else reads as a time: a text that reads as `n` seconds is exactly the readout of
   * `n`, so with `FormatTimeReadsBack` the readout and the reading are inverse to each other.
   */
  lemma ReadClockOnlyReadout(r: string, n: nat)
    requires ReadClock(r) == Some(n)
    ensures r == FormatTime(n)
  {
    var parts := Split(r, ":");
    JoinSplit(r, ":");
    if |parts| == 3 && Numeral(parts[0]) && TwoDigitField(parts[1]) && TwoDigitField(parts[2])
      && DigitsValue(parts[0]) > 0 && DigitsValue(parts[1]) < 60 && DigitsValue(parts[2]) < 60 {
      var hours, mins, secs := DigitsValue(parts[0]), DigitsValue(parts[1]), DigitsValue(parts[2]);
      JoinThree(parts);
      ClockFields(hours, mins, secs, n);
      NumeralIsText(parts[0]);
      PaddedFieldIsText(parts[1]);
      PaddedFieldIsText(parts[2]);
      assert FormatTime(n)
        == NatToString(hours) + ":" + PadStart2(NatToString(mins)) + ":" + PadStart2(NatToString(secs));
    } else {
      var mins, secs := DigitsValue(parts[0]), DigitsValue(parts[1]);
      JoinTwo(parts);
      ClockFields(0, mins, secs, n);
      NumeralIsText(parts[0]);
      PaddedFieldIsText(parts[1]);
      assert FormatTime(n) == NatToString(mins) + ":" + PadStart2(NatToString(secs));
    }
  }

  lemma ReadsBackHours(hours: nat, mins: nat, secs: nat, total: nat)
    requires hours > 0 && mins < 60 && secs < 60 && total == 3600 * hours + 60 * mins + secs
    ensures var r := NatToString(hours) + ":" + PadStart2(NatToString(mins)) + ":" + PadStart2(NatToString(secs));
      ReadClock(r) == Some(total)
  {
    TwoDigits(secs);
    TwoDigits(mins);
    NatToStringValue(hours);
    ReadHourClock(NatToString(hours), PadStart2(NatToString(mins)), PadStart2(NatToString(secs)), hours, mins, secs, total);
  }

  lemma ReadsBackMinutes(mins: nat, secs: nat, total: nat)
    requires mins < 60 && secs < 60 && total == 60 * mins + secs
    ensures var r := NatToString(mins) + ":" + PadStart2(NatToString(secs));
      ReadClock(r) == Some(total)
  {
    TwoDigits(secs);
    NatToStringValue(mins);
    ReadMinuteClock(NatToString(mins), PadStart2(NatToString(secs)), mins, secs, total);
  }

  /** `H:MM:SS` text reads as hours, minutes and seconds. */
  lemma ReadHourClock(hh: string, mm: string, ss: string, hours: nat, mins: nat, secs: nat, total: nat)
    requires Numeral(hh) && TwoDigitField(mm) && TwoDigitField(ss)
    requires DigitsValue(hh) == hours && DigitsValue(mm) == mins && DigitsValue(ss) == secs
    requires hours > 0 && mins < 60 && secs < 60 && total == 3600 * hours + 60 * mins + secs
    ensures ReadClock(hh + ":" + mm + ":" + ss) == Some(total)
  {
    NoDigitColons(hh);
    NoDigitColons(mm);
    NoDigitColons(ss);
    SplitThree(hh, mm, ss);
    ReadThreeFields(hh, mm, ss, total);
  }

  /** The three fields of `H:MM:SS` convert to their total. */
  lemma ReadThreeFields(hh: string, mm: string, ss: string, total: nat)
    requires Numeral(hh) && TwoDigitField(mm) && TwoDigitField(ss)
    requires DigitsValue(hh) > 0 && DigitsValue(mm) < 60 && DigitsValue(ss) < 60
    requires total == HourTotal(DigitsValue(hh), DigitsValue(mm), DigitsValue(ss))
    ensures ReadFields([hh, mm, ss]) == Some(total)
  {
    var parts := [hh, mm, ss];
    assert |parts| == 3 && parts[0] == hh && parts[1] == mm && parts[2] == ss;
  }

  /** `M:SS` text reads as minutes and seconds. */
  lemma ReadMinuteClock(m: string, ss: string, mins: nat, secs: nat, total: nat)
    requires Numeral(m) && TwoDigitField(ss)
    requires DigitsValue(m) == mins && DigitsValue(ss) == secs && mins < 60 && secs < 60
    requires total == 60 * mins + secs
    ensures ReadClock(m + ":" + ss) == Some(total)
  {
    NoDigitColons(m);
    NoDigitColons(ss);
    SplitTwo(m, ss);
  }

  /** A field without leading zeros is the decimal text of its value. */
  lemma {:induction false} NumeralIsText(s: string)
    requires Numeral(s)
    ensures NatToString(DigitsValue(s)) == s
    decreases |s|
  {
    var d := DigitValue(s[|s| - 1]);
    assert DigitChar(d) == s[|s| - 1];
    if |s| > 1 {
      var front := s[..|s| - 1];
      assert front[0] == s[0];
      NumeralIsText(front);
      var v := DigitsValue(front);
      if |front| == 1 {
        assert v == DigitValue(front[0]) && v > 0;
      } else {
        assert v >= 10;
      }
      ModUnique10(DigitsValue(s), v, d);
      assert s == front + [s[|s| - 1]];
    }
  }

  /** A two-digit field is its value's decimal text padded to two digits. */
  lemma PaddedFieldIsText(s: string)
    requires TwoDigitField(s)
    ensures PadStart2(NatToString(DigitsValue(s))) == s
  {
    var hi, lo := DigitValue(s[0]), DigitValue(s[1]);
    assert s[..1][..0] == [];
    assert DigitsValue(s[..1]) == hi;
    assert DigitChar(lo) == s[1] && DigitChar(hi) == s[0];
    if hi == 0 {
      assert NatToString(DigitsValue(s)) == [s[1]];
      assert s == ['0', s[1]];
    } else {
      ModUnique10(DigitsValue(s), hi, lo);
      assert NatToString(DigitsValue(s)) == [s[0], s[1]];
      assert s == [s[0], s[1]];
    }
  }

  /** Division by 10 has a unique quotient and remainder. */
  lemma ModUnique10(x: int, m: int, t: int)
    requires x == 10 * m + t && 0 <= t < 10
    ensures x % 10 == t && x / 10 == m
  {
    var m' := x / 10;
    var t' := x % 10;
    assert x == 10 * m' + t';
  }

  /** Fields below 60 minutes and 60 seconds are recovered from their total. */
  lemma ClockFields(hours: nat, mins: nat, secs: nat, total: nat)
    requires mins < 60 && secs < 60 && total == HourTotal(hours, mins, secs)
    ensures total / 3600 == hours && total % 3600 / 60 == mins && total % 60 == secs
  {
    ModUnique3600(total, hours, 60 * mins + secs);
    ModUnique(60 * mins + secs, mins, secs);
    ModUnique(total, 60 * hours + mins, secs);
  }

  /** Division by 3600 has a unique quotient and remainder. */
  lemma ModUnique3600(x: int, m: int, t: int)
    requires x == 3600 * m + t && 0 <= t < 3600
    ensures x % 3600 == t && x / 3600 == m
  {
    var m' := x / 3600;
    var t' := x % 3600;
    assert x == 3600 * m' + t';
  }

  lemma JoinTwo(parts: seq<string>)
    requires |parts| == 2
    ensures Join(parts, ":") == parts[0] + ":" + parts[1]
  {
    assert parts[1..] == [parts[1]];
  }

  lemma JoinThree(parts: seq<string>)
    requires |parts| == 3
    ensures Join(parts, ":") == parts[0] + ":" + parts[1] + ":" + parts[2]
  {
    assert parts[1..][1..] == [parts[2]];
    assert Join(parts[1..], ":") == parts[1] + ":" + parts[2];
  }

  /** Hours, minutes and seconds as the readout computes them add back up to the total. */
  lemma ClockArithmetic(seconds: nat)
    ensures 3600 * (seconds / 3600) + 60 * (seconds % 3600 / 60) + seconds % 60 == seconds
  {
    var q := seconds / 3600;
    var r := seconds % 3600;
    assert seconds == 3600 * q + r;
    var a := r / 60;
    var b := r % 60;
    assert r == 60 * a + b;
    ModUnique(seconds, 60 * q + a, b);
  }

  /** Division by 60 has a unique quotient and remainder. */
  lemma ModUnique(x: int, m: int, t: int)
    requires x == 60 * m + t && 0 <= t < 60
    ensures x % 60 == t && x / 60 == m
  {
    var m' := x / 60;
    var t' := x % 60;
    assert x == 60 * m' + t';
  }

  lemma SplitTwo(a: string, b: string)
    requires ':' !in a && ':' !in b
    ensures Split(a + ":" + b, ":") == [a, b]
  {
    assert [a, b][1..] == [b];
    assert Join([a, b], ":") == a + ":" + b;
    SplitJoin([a, b], ':');
  }

  lemma SplitThree(a: string, b: string, c: string)
    requires ':' !in a && ':' !in b && ':' !in c
    ensures Split(a + ":" + b + ":" + c, ":") == [a, b, c]
  {
    assert [a, b, c][1..] == [b, c];
    assert [b, c][1..] == [c];
    assert Join([b, c], ":") == b + ":" + c;
    assert Join([a, b, c], ":") == a + ":" + (b + ":" + c);
    assert a + ":" + (b + ":" + c) == a + ":" + b + ":" + c;
    SplitJoin([a, b, c], ':');
  }

  /** Two minutes and five seconds read `2:05`. */
  lemma FormatTime125()
    ensures FormatTime(125) == "2:05"
  {
    assert 125 / 3600 == 0 && 125 % 3600 / 60 == 2 && 125 % 60 == 5;
    assert NatToString(2) == "2";
    assert NatToString(5) == "5";
    assert PadStart2("5") == "05";
  }

  /** One hour, two minutes and five seconds read `1:02:05`. */
  lemma FormatTime3725()
    ensures FormatTime(3725) == "1:02:05"
  {
    assert 3725 / 3600 == 1 && 3725 % 3600 / 60 == 2 && 3725 % 60 == 5;
    assert NatToString(1) == "1";
    assert NatToString(2) == "2";
    assert NatToString(5) == "5";
    assert PadStart2("2") == "02";
    assert PadStart2("5") == "05";
  }
}
