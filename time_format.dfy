/**
 * `formatTime` of src/App.js: a whole, non-negative number of seconds shown
 * as hours, minutes and seconds, each field the decimal `toString()` of the
 * number left-padded with '0' to at least two characters, joined by ':'.
 */
module TimeFormat {
  import opened Options

  predicate IsDigit(c: char) {
    '0' <= c <= '9'
  }

  /** Every character of s is a decimal digit. */
  predicate AllDigits(s: string) {
    s == [] || (AllDigits(s[..|s| - 1]) && IsDigit(s[|s| - 1]))
  }

  function DigitValue(c: char): (d: nat)
    requires IsDigit(c)
    ensures d < 10
  {
    c as int - '0' as int
  }

  /** The character of decimal digit d. */
  function DigitChar(d: nat): (c: char)
    requires d < 10
    ensures IsDigit(c) && DigitValue(c) == d
  {
    ('0' as int + d) as char
  }

  /** The number a string of decimal digits denotes; leading zeros are allowed. */
  function ParseDecimal(s: string): nat
    requires AllDigits(s)
  {
    if s == [] then 0 else ParseDecimal(s[..|s| - 1]) * 10 + DigitValue(s[|s| - 1])
  }

  /**
   * `Number.prototype.toString()` on a non-negative integer: its decimal
   * digits, without leading zeros (0 is "0").
   */
  function ToDecimal(n: nat): (s: string)
    ensures AllDigits(s) && ParseDecimal(s) == n
    ensures |s| >= 1 && (s[0] == '0' <==> n == 0)
    ensures |s| == 1 <==> n < 10
    decreases n
  {
    if n < 10 then [DigitChar(n)]
    else
      var init := ToDecimal(n / 10);
      var s := init + [DigitChar(n % 10)];
      assert s[..|s| - 1] == init;
      s
  }

  lemma ToDecimalAtMostTwo(n: nat)
    ensures |ToDecimal(n)| <= 2 <==> n < 100
  {
    if n >= 10 {
      assert ToDecimal(n) == ToDecimal(n / 10) + [DigitChar(n % 10)];
    }
  }

  /**
   * `String.prototype.padStart(width, fill)` with a one-character fill: the
   * string is returned as it is when it is already `width` long or longer,
   * otherwise prefixed with copies of `fill` up to exactly `width`.
   */
  function PadStart(s: string, width: nat, fill: char): (r: string)
    ensures |r| == if |s| < width then width else |s|
    ensures r[|r| - |s|..] == s
    ensures forall i :: 0 <= i < |r| - |s| ==> r[i] == fill
  {
    if |s| >= width then s else seq(width - |s|, _ => fill) + s
  }

  /** Leading zeros do not change the value of a digit string. */
  lemma {:induction false} ParseDecimalLeadingZero(s: string)
    requires AllDigits(s)
    ensures AllDigits(['0'] + s) && ParseDecimal(['0'] + s) == ParseDecimal(s)
  {
    var t := ['0'] + s;
    if s != [] {
      assert t[..|t| - 1] == ['0'] + s[..|s| - 1];
      ParseDecimalLeadingZero(s[..|s| - 1]);
    } else {
      assert t[..|t| - 1] == [];
    }
  }

  /** One field of the clock: `n.toString().padStart(2, '0')`. */
  function Field(n: nat): (f: string)
    ensures AllDigits(f) && ParseDecimal(f) == n
    ensures |f| >= 2 && (|f| == 2 <==> n < 100)
    ensures f[0] == '0' <==> n < 10
  {
    var digits := ToDecimal(n);
    ToDecimalAtMostTwo(n);
    if |digits| >= 2 then PadStart(digits, 2, '0')
    else
      ParseDecimalLeadingZero(digits);
      assert PadStart(digits, 2, '0') == ['0'] + digits;
      PadStart(digits, 2, '0')
  }

  /** Digit strings of the same length and value are equal. */
  lemma {:induction false} SameLengthSameValue(a: string, b: string)
    requires AllDigits(a) && AllDigits(b) && |a| == |b|
    requires ParseDecimal(a) == ParseDecimal(b)
    ensures a == b
  {
    if a != [] {
      var i := |a| - 1;
      assert ParseDecimal(a[..i]) * 10 + DigitValue(a[i]) == ParseDecimal(b[..i]) * 10 + DigitValue(b[i]);
      assert DigitValue(a[i]) == DigitValue(b[i]);
      SameLengthSameValue(a[..i], b[..i]);
      assert a == a[..i] + [a[i]] && b == b[..i] + [b[i]];
    }
  }

  /** A digit string that does not start with '0' denotes a positive number. */
  lemma {:induction false} NoLeadingZeroPositive(a: string)
    requires AllDigits(a) && a != [] && a[0] != '0'
    ensures ParseDecimal(a) > 0
  {
    if |a| > 1 {
      assert a[..|a| - 1][0] == a[0];
      NoLeadingZeroPositive(a[..|a| - 1]);
    }
  }

  /** A digit string with no leading '0' (or the single digit "0") is the `toString()` of its value. */
  lemma {:induction false} CanonicalDigits(a: string)
    requires AllDigits(a) && a != [] && (|a| == 1 || a[0] != '0')
    ensures a == ToDecimal(ParseDecimal(a))
  {
    var i := |a| - 1;
    var n := ParseDecimal(a);
    if |a| == 1 {
      assert a[..i] == [];
      assert n == DigitValue(a[0]) < 10;
    } else {
      var init := a[..i];
      assert init[0] == a[0];
      CanonicalDigits(init);
      NoLeadingZeroPositive(init);
      assert n == ParseDecimal(init) * 10 + DigitValue(a[i]);
      assert n / 10 == ParseDecimal(init) && n % 10 == DigitValue(a[i]);
      assert a == init + [a[i]];
    }
  }

  /** Two digits denote a number below 100. */
  lemma TwoDigitsBelowHundred(a: string)
    requires AllDigits(a) && |a| == 2
    ensures ParseDecimal(a) < 100
  {
    var first := a[..1];
    assert first[..0] == [] && first[0] == a[0];
    assert ParseDecimal(first) == DigitValue(a[0]) < 10;
    assert ParseDecimal(a) == ParseDecimal(first) * 10 + DigitValue(a[1]);
  }

  /**
   * A field as `padStart(2, '0')` writes it is determined by its value: at
   * least two digits, and no leading '0' when longer than two.
   */
  lemma FieldUnique(f: string, n: nat)
    requires AllDigits(f) && ParseDecimal(f) == n && |f| >= 2
    requires |f| > 2 ==> f[0] != '0'
    ensures f == Field(n)
  {
    if |f| == 2 {
      TwoDigitsBelowHundred(f);
      SameLengthSameValue(f, Field(n));
    } else {
      CanonicalDigits(f);
      ToDecimalAtMostTwo(n);
      CanonicalDigits(Field(n));
    }
  }

  datatype Clock = Clock(hours: nat, minutes: nat, seconds: nat)

  /** The split of lines 9-11: hours by 3600, then minutes and seconds of the rest. */
  function Split(total: nat): (c: Clock)
    ensures c.hours * 3600 + c.minutes * 60 + c.seconds == total
    ensures c.minutes < 60 && c.seconds < 60
  {
    var rest := total % 3600;
    assert rest % 60 == total % 60 by {
      assert total == (total / 3600) * 3600 + rest;
      assert total == ((total / 3600) * 60 + rest / 60) * 60 + rest % 60;
    }
    Clock(total / 3600, rest / 60, total % 60)
  }

  /** Hours, minutes below 60 and seconds below 60 that add up to a total are the split of it. */
  lemma SplitUnique(total: nat, c: Clock)
    requires c.hours * 3600 + c.minutes * 60 + c.seconds == total
    requires c.minutes < 60 && c.seconds < 60
    ensures c == Split(total)
  {
    var d := Split(total);
    var small := c.minutes * 60 + c.seconds;
    assert small < 3600;
    assert c.hours == total / 3600 && small == total % 3600 by {
      assert total == c.hours * 3600 + small;
    }
    assert d.hours == c.hours;
    assert d.minutes * 60 + d.seconds == small;
    assert c.minutes == small / 60 && c.seconds == small % 60;
    assert d.minutes == small / 60 && d.seconds == small % 60;
  }

  /** The three fields joined by ':'. */
  function Join(h: string, m: string, s: string): (t: string)
    requires |m| == 2 && |s| == 2
    ensures |t| == |h| + 6 && t[|t| - 6] == ':' && t[|t| - 3] == ':'
    ensures t[..|t| - 6] == h && t[|t| - 5..|t| - 3] == m && t[|t| - 2..] == s
  {
    h + ":" + m + ":" + s
  }

  /** A joined string of canonical fields reads back field by field as the clock they came from. */
  lemma JoinReadsBack(h: string, m: string, s: string, c: Clock)
    requires |h| >= 2 && |m| == 2 && |s| == 2
    requires AllDigits(h) && AllDigits(m) && AllDigits(s)
    requires ParseDecimal(h) == c.hours && ParseDecimal(m) == c.minutes && ParseDecimal(s) == c.seconds
    requires c.minutes < 60 && c.seconds < 60
    requires |h| > 2 ==> h[0] != '0'
    ensures var t := Join(h, m, s);
      && ClockShaped(t)
      && ParseDecimal(t[..|t| - 6]) == c.hours
      && ParseDecimal(t[|t| - 5..|t| - 3]) == c.minutes
      && ParseDecimal(t[|t| - 2..]) == c.seconds
      && ParseTime(t) == Some(c.hours * 3600 + c.minutes * 60 + c.seconds)
  {
    var t := Join(h, m, s);
    assert t[0] == t[..|t| - 6][0];
  }

  lemma HoursBelowHundred(total: nat)
    ensures total / 3600 < 100 <==> total < 360000
  {
  }

  /** A clock shown as `HH:MM:SS`, each field padded to two digits. */
  function FormatClock(c: Clock): (t: string)
    requires c.minutes < 60 && c.seconds < 60
    ensures ClockShaped(t)
    ensures ParseTime(t) == Some(c.hours * 3600 + c.minutes * 60 + c.seconds)
    ensures |t| == 8 <==> c.hours < 100
  {
    var h, m, s := Field(c.hours), Field(c.minutes), Field(c.seconds);
    JoinReadsBack(h, m, s, c);
    Join(h, m, s)
  }

  /** `formatTime(seconds)` for a whole number of seconds. */
  function FormatTime(total: nat): (t: string)
    ensures ClockShaped(t)
    ensures ParseTime(t) == Some(total)
    ensures |t| == 8 <==> total < 360000
  {
    var c := Split(total);
    HoursBelowHundred(total);
    var t := FormatClock(c);
    assert ParseTime(t) == Some(total);
    t
  }

  /**
   * A clock string as `formatTime` writes it: an hour field of two digits, or
   * of more without a leading '0'; ':'; two digits below 60; ':'; two digits
   * below 60.
   */
  predicate ClockShaped(t: string) {
    && |t| >= 8 && t[|t| - 6] == ':' && t[|t| - 3] == ':'
    && AllDigits(t[..|t| - 6]) && AllDigits(t[|t| - 5..|t| - 3]) && AllDigits(t[|t| - 2..])
    && (|t| > 8 ==> t[0] != '0')
    && ParseDecimal(t[|t| - 5..|t| - 3]) < 60 && ParseDecimal(t[|t| - 2..]) < 60
  }

  /** Reads a clock string back into seconds; None for anything `formatTime` does not write. */
  function ParseTime(t: string): (r: Option<nat>)
    ensures r.Some? ==> |t| >= 8
  {
    if ClockShaped(t) then
      Some(ParseDecimal(t[..|t| - 6]) * 3600 + ParseDecimal(t[|t| - 5..|t| - 3]) * 60
           + ParseDecimal(t[|t| - 2..]))
    else None
  }

  /** A string with ':' 6 and 3 from its end is its three fields joined. */
  lemma SplitAtColons(t: string)
    requires |t| >= 8 && t[|t| - 6] == ':' && t[|t| - 3] == ':'
    ensures t == Join(t[..|t| - 6], t[|t| - 5..|t| - 3], t[|t| - 2..])
  {
  }

  /** `formatTime(n)` is the three fields of the split of n, joined. */
  lemma FormatTimeFields(n: nat)
    ensures var c := Split(n);
      FormatTime(n) == Join(Field(c.hours), Field(c.minutes), Field(c.seconds))
  {
  }

  /** Every string ParseTime accepts is the `formatTime` of what it reads: the two are inverse. */
  lemma ParseTimeFormat(t: string, n: nat)
    requires ParseTime(t) == Some(n)
    ensures t == FormatTime(n)
  {
    var h, m, s := t[..|t| - 6], t[|t| - 5..|t| - 3], t[|t| - 2..];
    var c := Clock(ParseDecimal(h), ParseDecimal(m), ParseDecimal(s));
    SplitUnique(n, c);
    assert h[0] == t[0];
    FieldUnique(h, c.hours);
    FieldUnique(m, c.minutes);
    FieldUnique(s, c.seconds);
    SplitAtColons(t);
    FormatTimeFields(n);
  }

  /** Two different totals never show the same string. */
  lemma FormatTimeInjective(a: nat, b: nat)
    ensures FormatTime(a) == FormatTime(b) ==> a == b
  {
    assert ParseTime(FormatTime(a)) == Some(a);
  }

  /** The example of one hour, one minute and one second. */
  lemma FormatTimeExample()
    ensures FormatTime(3661) == "01:01:01"
  {
    assert Split(3661) == Clock(1, 1, 1);
    assert ToDecimal(1) == "1";
    assert Field(1) == "01";
  }
}
