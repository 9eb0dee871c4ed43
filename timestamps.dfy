/**
 * Naive date-times and the three textual forms the core converts them through:
 * the design-file timestamp form `%Y-%m-%dT%H:%M:%SZ` read by `strptime`, and
 * the `isoformat`/`fromisoformat` pair of a whole-second naive `datetime`.
 */
module Timestamps {
  import opened Wrappers

  /** A naive date-time to the second. */
  datatype DateTime = DateTime(year: int, month: int, day: int, hour: int, minute: int, second: int)

  predicate LeapYear(y: int) {
    y % 4 == 0 && (y % 100 != 0 || y % 400 == 0)
  }

  function DaysInMonth(y: int, m: int): int
    requires 1 <= m <= 12
  {
    if m == 2 then (if LeapYear(y) then 29 else 28)
    else if m == 4 || m == 6 || m == 9 || m == 11 then 30
    else 31
  }

  /** The values a `datetime` accepts: years 1 to 9999, a real calendar day, a time of day. */
  predicate Valid(t: DateTime) {
    && 1 <= t.year <= 9999
    && 1 <= t.month <= 12
    && 1 <= t.day <= DaysInMonth(t.year, t.month)
    && 0 <= t.hour < 24
    && 0 <= t.minute < 60
    && 0 <= t.second < 60
  }

  // ---------------------------------------------------------------------
  // Decimal digits
  // ---------------------------------------------------------------------

  predicate IsDigit(c: char) {
    '0' <= c <= '9'
  }

  predicate AllDigits(s: string) {
    forall i :: 0 <= i < |s| ==> IsDigit(s[i])
  }

  function Pow10(n: nat): (r: nat)
    ensures r >= 1
  {
    if n == 0 then 1 else 10 * Pow10(n - 1)
  }

  /** The value of a string of decimal digits. */
  function Number(s: string): (r: nat)
    requires AllDigits(s)
    ensures r < Pow10(|s|)
  {
    if s == [] then 0 else 10 * Number(s[..|s| - 1]) + (s[|s| - 1] - '0') as int
  }

  /** `n` written with exactly `width` digits, zero-padded on the left. */
  function Padded(n: nat, width: nat): (s: string)
    ensures |s| == width && AllDigits(s)
  {
    if width == 0 then [] else Padded(n / 10, width - 1) + [('0' as int + n % 10) as char]
  }

  /** Writing a number in enough digits and reading it back gives the number. */
  lemma {:induction false} NumberPadded(n: nat, width: nat)
    requires n < Pow10(width)
    ensures Number(Padded(n, width)) == n
  {
    if width > 0 {
      var s := Padded(n, width);
      assert s[..|s| - 1] == Padded(n / 10, width - 1);
      NumberPadded(n / 10, width - 1);
    }
  }

  /** Reading a digit string and writing it back in as many digits gives the string. */
  lemma {:induction false} PaddedNumber(s: string)
    requires AllDigits(s)
    ensures Padded(Number(s), |s|) == s
  {
    if s != [] {
      var init := s[..|s| - 1];
      var n := Number(s);
      assert n / 10 == Number(init);
      assert n % 10 == (s[|s| - 1] - '0') as int;
      PaddedNumber(init);
      assert s == init + [s[|s| - 1]];
    }
  }

  // ---------------------------------------------------------------------
  // `datetime.strptime(s, "%Y-%m-%dT%H:%M:%SZ")`
  // ---------------------------------------------------------------------

  /** The shape `YYYY-MM-DDTHH:MM:SS` followed by `tail`, with its digit fields. */
  predicate Shaped(s: string, tail: string) {
    && |s| == 19 + |tail|
    && s[4] == '-' && s[7] == '-' && s[10] == 'T' && s[13] == ':' && s[16] == ':'
    && s[19..] == tail
    && AllDigits(s[0..4]) && AllDigits(s[5..7]) && AllDigits(s[8..10])
    && AllDigits(s[11..13]) && AllDigits(s[14..16]) && AllDigits(s[17..19])
  }

  /** The date-time a shaped string spells, not yet checked for range. */
  function Fields(s: string, tail: string): DateTime
    requires Shaped(s, tail)
  {
    DateTime(Number(s[0..4]), Number(s[5..7]), Number(s[8..10]),
             Number(s[11..13]), Number(s[14..16]), Number(s[17..19]))
  }

  /** Parse `s` as `YYYY-MM-DDTHH:MM:SS` + `tail`; a bad shape or an out-of-range field gives `None`. */
  function ParseWith(s: string, tail: string): (r: Option<DateTime>)
    ensures r.Some? ==> Valid(r.value)
    ensures r.Some? <==> Shaped(s, tail) && Valid(Fields(s, tail))
  {
    if Shaped(s, tail) && Valid(Fields(s, tail)) then Some(Fields(s, tail)) else None
  }

  /** `t` written as `YYYY-MM-DDTHH:MM:SS` + `tail`. */
  function FormatWith(t: DateTime, tail: string): string
    requires Valid(t)
  {
    Padded(t.year, 4) + "-" + Padded(t.month, 2) + "-" + Padded(t.day, 2) + "T"
    + Padded(t.hour, 2) + ":" + Padded(t.minute, 2) + ":" + Padded(t.second, 2) + tail
  }

  /** The design file's `lastModified` form, e.g. `2026-01-14T05:57:11Z`. */
  function ParseFigmaTimestamp(s: string): Option<DateTime> {
    ParseWith(s, "Z")
  }

  function FormatFigmaTimestamp(t: DateTime): string
    requires Valid(t)
  {
    FormatWith(t, "Z")
  }

  /** `t.isoformat()` of a naive whole-second `datetime`. */
  function IsoFormat(t: DateTime): string
    requires Valid(t)
  {
    FormatWith(t, "")
  }

  /** `datetime.fromisoformat(s)`, for the form `isoformat` writes. */
  function FromIsoFormat(s: string): Option<DateTime> {
    ParseWith(s, "")
  }

  /** Six digit fields joined by the separators split back into those fields at the fixed offsets. */
  lemma Layout(tail: string, y: string, mo: string, d: string, h: string, mi: string, se: string)
    requires |y| == 4 && |mo| == 2 && |d| == 2 && |h| == 2 && |mi| == 2 && |se| == 2
    ensures var s := y + "-" + mo + "-" + d + "T" + h + ":" + mi + ":" + se + tail;
      && |s| == 19 + |tail|
      && s[0..4] == y && s[5..7] == mo && s[8..10] == d
      && s[11..13] == h && s[14..16] == mi && s[17..19] == se
      && s[4] == '-' && s[7] == '-' && s[10] == 'T' && s[13] == ':' && s[16] == ':'
      && s[19..] == tail
  {
  }

  /** The written form splits into its fields at the fixed offsets. */
  lemma FormatLayout(t: DateTime, tail: string)
    requires Valid(t)
    ensures var s := FormatWith(t, tail);
      && |s| == 19 + |tail|
      && s[0..4] == Padded(t.year, 4) && s[5..7] == Padded(t.month, 2) && s[8..10] == Padded(t.day, 2)
      && s[11..13] == Padded(t.hour, 2) && s[14..16] == Padded(t.minute, 2) && s[17..19] == Padded(t.second, 2)
      && s[4] == '-' && s[7] == '-' && s[10] == 'T' && s[13] == ':' && s[16] == ':'
      && s[19..] == tail
  {
    Layout(tail, Padded(t.year, 4), Padded(t.month, 2), Padded(t.day, 2),
           Padded(t.hour, 2), Padded(t.minute, 2), Padded(t.second, 2));
  }

  /** A string laid out as six digit fields with the separators is shaped, and spells those fields. */
  lemma FromFields(s: string, tail: string, y: string, mo: string, d: string, h: string, mi: string, se: string)
    requires AllDigits(y) && AllDigits(mo) && AllDigits(d) && AllDigits(h) && AllDigits(mi) && AllDigits(se)
    requires |s| == 19 + |tail|
    requires s[0..4] == y && s[5..7] == mo && s[8..10] == d && s[11..13] == h && s[14..16] == mi && s[17..19] == se
    requires s[4] == '-' && s[7] == '-' && s[10] == 'T' && s[13] == ':' && s[16] == ':' && s[19..] == tail
    ensures Shaped(s, tail)
    ensures Fields(s, tail) == DateTime(Number(y), Number(mo), Number(d), Number(h), Number(mi), Number(se))
  {
  }

  /** The written form is nineteen characters followed by the tail. */
  lemma FormatLength(t: DateTime, tail: string)
    requires Valid(t)
    ensures |FormatWith(t, tail)| == 19 + |tail|
  {
  }

  /** Every valid date-time written with a tail parses back to itself. */
  lemma FormatThenParse(t: DateTime, tail: string)
    requires Valid(t)
    ensures ParseWith(FormatWith(t, tail), tail) == Some(t)
  {
    var s := FormatWith(t, tail);
    FormatLayout(t, tail);
    FromFields(s, tail, Padded(t.year, 4), Padded(t.month, 2), Padded(t.day, 2),
               Padded(t.hour, 2), Padded(t.minute, 2), Padded(t.second, 2));
    NumberPadded(t.year, 4);
    NumberPadded(t.month, 2);
    NumberPadded(t.day, 2);
    NumberPadded(t.hour, 2);
    NumberPadded(t.minute, 2);
    NumberPadded(t.second, 2);
    assert Fields(s, tail) == t;
  }

  /** A string that parses is exactly the written form of what it parses to. */
  lemma ParseThenFormat(s: string, tail: string)
    requires ParseWith(s, tail).Some?
    ensures FormatWith(ParseWith(s, tail).value, tail) == s
  {
    var t := ParseWith(s, tail).value;
    FormatLayout(t, tail);
    PaddedNumber(s[0..4]);
    PaddedNumber(s[5..7]);
    PaddedNumber(s[8..10]);
    PaddedNumber(s[11..13]);
    PaddedNumber(s[14..16]);
    PaddedNumber(s[17..19]);
    var f := FormatWith(t, tail);
    assert forall i :: 0 <= i < |s| ==> f[i] == s[i] by {
      forall i | 0 <= i < |s|
        ensures f[i] == s[i]
      {
        if i < 4 { assert f[i] == f[0..4][i]; assert s[i] == s[0..4][i]; }
        else if 5 <= i < 7 { assert f[i] == f[5..7][i - 5]; assert s[i] == s[5..7][i - 5]; }
        else if 8 <= i < 10 { assert f[i] == f[8..10][i - 8]; assert s[i] == s[8..10][i - 8]; }
        else if 11 <= i < 13 { assert f[i] == f[11..13][i - 11]; assert s[i] == s[11..13][i - 11]; }
        else if 14 <= i < 16 { assert f[i] == f[14..16][i - 14]; assert s[i] == s[14..16][i - 14]; }
        else if 17 <= i < 19 { assert f[i] == f[17..19][i - 17]; assert s[i] == s[17..19][i - 17]; }
        else if i >= 19 { assert f[i] == f[19..][i - 19]; assert s[i] == s[19..][i - 19]; }
      }
    }
  }

  /**
   * The parser accepts exactly the written forms of valid date-times, and a
   * string it accepts is the written form of the date-time it returns.
   */
  lemma ParseExactly(s: string, tail: string)
    ensures ParseWith(s, tail).Some? <==> exists t :: Valid(t) && FormatWith(t, tail) == s
    ensures ParseWith(s, tail).Some? ==> FormatWith(ParseWith(s, tail).value, tail) == s
  {
    if ParseWith(s, tail).Some? {
      ParseThenFormat(s, tail);
    } else if t :| Valid(t) && FormatWith(t, tail) == s {
      FormatThenParse(t, tail);
    }
  }

  /** `fromisoformat(isoformat(t)) == t`. */
  lemma IsoRoundTrip(t: DateTime)
    requires Valid(t)
    ensures FromIsoFormat(IsoFormat(t)) == Some(t)
  {
    FormatThenParse(t, "");
  }

  /** The design-file form parses back what it writes, and a parsed timestamp is written back verbatim. */
  lemma FigmaTimestampRoundTrip(t: DateTime, s: string)
    requires Valid(t)
    ensures ParseFigmaTimestamp(FormatFigmaTimestamp(t)) == Some(t)
    ensures ParseFigmaTimestamp(s).Some? ==> FormatFigmaTimestamp(ParseFigmaTimestamp(s).value) == s
  {
    FormatThenParse(t, "Z");
    if ParseFigmaTimestamp(s).Some? {
      ParseThenFormat(s, "Z");
    }
  }

  /** A date-time that does not exist, such as 30 February, is rejected rather than normalised. */
  lemma NoThirtiethOfFebruary()
    ensures ParseFigmaTimestamp("2026-02-30T05:57:11Z") == None
  {
    var bad := "2026-02-30T05:57:11Z";
    if Shaped(bad, "Z") {
      assert bad[5..7] == "02";
      assert Number(bad[5..7]) == 2;
      assert bad[8..10] == "30";
      assert Number(bad[8..10]) == 30;
    }
  }

  /** The timestamp of a design file, as the remote API writes it. */
  lemma FigmaTimestampExample()
    ensures ParseFigmaTimestamp("2026-01-14T05:57:11Z") == Some(DateTime(2026, 1, 14, 5, 57, 11))
  {
    var good := "2026-01-14T05:57:11Z";
    ExampleShaped();
    ExampleFields();
    assert Valid(DateTime(2026, 1, 14, 5, 57, 11));
  }

  lemma ExampleShaped()
    ensures Shaped("2026-01-14T05:57:11Z", "Z")
  {
    var good := "2026-01-14T05:57:11Z";
    assert good[0..4] == "2026";
    assert good[5..7] == "01";
    assert good[8..10] == "14";
    assert good[11..13] == "05";
    assert good[14..16] == "57";
    assert good[17..19] == "11";
    assert good[19..] == "Z";
  }

  lemma ExampleFields()
    requires Shaped("2026-01-14T05:57:11Z", "Z")
    ensures Fields("2026-01-14T05:57:11Z", "Z") == DateTime(2026, 1, 14, 5, 57, 11)
  {
    FieldDigits("2026-01-14T05:57:11Z", "Z");
  }

  /** Each field of a shaped string is the value of its digits. */
  lemma FieldDigits(s: string, tail: string)
    requires Shaped(s, tail)
    ensures var t := Fields(s, tail);
      && t.year == 1000 * (s[0] - '0') as int + 100 * (s[1] - '0') as int + 10 * (s[2] - '0') as int + (s[3] - '0') as int
      && t.month == 10 * (s[5] - '0') as int + (s[6] - '0') as int
      && t.day == 10 * (s[8] - '0') as int + (s[9] - '0') as int
      && t.hour == 10 * (s[11] - '0') as int + (s[12] - '0') as int
      && t.minute == 10 * (s[14] - '0') as int + (s[15] - '0') as int
      && t.second == 10 * (s[17] - '0') as int + (s[18] - '0') as int
  {
    FourDigits(s[0..4]);
    TwoDigits(s[5..7]);
    TwoDigits(s[8..10]);
    TwoDigits(s[11..13]);
    TwoDigits(s[14..16]);
    TwoDigits(s[17..19]);
  }

  /** The value of a two-digit field. */
  lemma TwoDigits(s: string)
    requires |s| == 2 && AllDigits(s)
    ensures Number(s) == 10 * (s[0] - '0') as int + (s[1] - '0') as int
  {
    assert s[..1][..0] == [];
  }

  /** The value of a four-digit field. */
  lemma FourDigits(s: string)
    requires |s| == 4 && AllDigits(s)
    ensures Number(s) == 1000 * (s[0] - '0') as int + 100 * (s[1] - '0') as int + 10 * (s[2] - '0') as int + (s[3] - '0') as int
  {
    assert s[..1][..0] == [];
    assert Number(s[..1]) == (s[0] - '0') as int;
    assert s[..2][..1] == s[..1];
    assert Number(s[..2]) == 10 * Number(s[..1]) + (s[1] - '0') as int;
    assert s[..3][..2] == s[..2];
    assert Number(s[..3]) == 10 * Number(s[..2]) + (s[2] - '0') as int;
  }
}
