/** Calendar timestamps (Python's naive `datetime`), their chronological
    order, and the text form `%Y-%m-%d %H:%M:%S` in which the store keeps
    chapter dates. */
module Dates {
  import opened Wrappers
  import opened Decimal

  datatype DateFields = DateFields(
    year: int, month: int, day: int,
    hour: int, minute: int, second: int, microsecond: int)
  {
    /** The ranges `datetime` enforces on construction. */
    predicate Valid() {
      && 1 <= year <= 9999
      && 1 <= month <= 12
      && 1 <= day <= DaysInMonth(year, month)
      && 0 <= hour < 24
      && 0 <= minute < 60
      && 0 <= second < 60
      && 0 <= microsecond < 1000000
    }
  }

  /** A `datetime` value: only valid field combinations exist. */
  type DateTime = d: DateFields | d.Valid() witness DateFields(1, 1, 1, 0, 0, 0, 0)

  predicate IsLeap(year: int) {
    year % 4 == 0 && (year % 100 != 0 || year % 400 == 0)
  }

  function DaysInMonth(year: int, month: int): int {
    if month == 2 then (if IsLeap(year) then 29 else 28)
    else if month == 4 || month == 6 || month == 9 || month == 11 then 30
    else 31
  }

  /** `a < b` on datetimes: chronological, i.e. lexicographic on the fields. */
  predicate Before(a: DateTime, b: DateTime) {
    if a.year != b.year then a.year < b.year
    else if a.month != b.month then a.month < b.month
    else if a.day != b.day then a.day < b.day
    else if a.hour != b.hour then a.hour < b.hour
    else if a.minute != b.minute then a.minute < b.minute
    else if a.second != b.second then a.second < b.second
    else a.microsecond < b.microsecond
  }

  /** The datetime with its sub-second part dropped. */
  function Truncate(d: DateTime): (r: DateTime)
    ensures r.microsecond == 0
  {
    d.(microsecond := 0)
  }

  /** `strftime(d, "%Y-%m-%d %H:%M:%S")`. */
  function Format(d: DateTime): (s: string)
    ensures |s| == 19
  {
    Pad(d.year, 4) + "-" + Pad(d.month, 2) + "-" + Pad(d.day, 2) + " "
      + Pad(d.hour, 2) + ":" + Pad(d.minute, 2) + ":" + Pad(d.second, 2)
  }

  /** `strptime(s, "%Y-%m-%d %H:%M:%S")` on the zero-padded form: None
      where Python raises ValueError. */
  function Parse(s: string): Option<DateTime> {
    if |s| == 19 && s[4] == '-' && s[7] == '-' && s[10] == ' ' && s[13] == ':' && s[16] == ':'
      && AllDigits(s[0..4]) && AllDigits(s[5..7]) && AllDigits(s[8..10])
      && AllDigits(s[11..13]) && AllDigits(s[14..16]) && AllDigits(s[17..19])
    then
      var d := DateFields(Value(s[0..4]), Value(s[5..7]), Value(s[8..10]),
                          Value(s[11..13]), Value(s[14..16]), Value(s[17..19]), 0);
      if d.Valid() then Some(d) else None
    else None
  }

  // ---------------------------------------------------------------------
  // Lemmas

  /** `<` on datetimes is a strict total order. */
  lemma BeforeIsStrictTotalOrder(a: DateTime, b: DateTime, c: DateTime)
    ensures !Before(a, a)
    ensures Before(a, b) && Before(b, c) ==> Before(a, c)
    ensures a != b ==> Before(a, b) || Before(b, a)
  {
  }

  /** Storing a datetime as text and reading it back loses exactly the
      sub-second part. */
  lemma FormatParse(d: DateTime)
    ensures Parse(Format(d)) == Some(Truncate(d))
  {
    var s := Format(d);
    Fields(Pad(d.year, 4), Pad(d.month, 2), Pad(d.day, 2),
           Pad(d.hour, 2), Pad(d.minute, 2), Pad(d.second, 2));
    PadValue(d.year, 4);
    PadValue(d.month, 2);
    PadValue(d.day, 2);
    PadValue(d.hour, 2);
    PadValue(d.minute, 2);
    PadValue(d.second, 2);
  }

  /** Where each field sits in the 19-character form. */
  lemma Fields(y: string, mo: string, da: string, h: string, mi: string, se: string)
    requires |y| == 4 && |mo| == 2 && |da| == 2 && |h| == 2 && |mi| == 2 && |se| == 2
    ensures var s := y + "-" + mo + "-" + da + " " + h + ":" + mi + ":" + se;
      && |s| == 19 && s[4] == '-' && s[7] == '-' && s[10] == ' ' && s[13] == ':' && s[16] == ':'
      && s[0..4] == y && s[5..7] == mo && s[8..10] == da
      && s[11..13] == h && s[14..16] == mi && s[17..19] == se
  {
    var s := y + "-" + mo + "-" + da + " " + h + ":" + mi + ":" + se;
    var tail := ":" + mi + ":" + se;
    Middle(y + "-", mo, "-" + da + " " + h + tail);
    Middle(y + "-" + mo + "-", da, " " + h + tail);
    Middle(y + "-" + mo + "-" + da + " ", h, tail);
    Middle(y + "-" + mo + "-" + da + " " + h + ":", mi, ":" + se);
    Middle(y + "-" + mo + "-" + da + " " + h + ":" + mi + ":", se, []);
  }

  lemma Middle(a: string, b: string, c: string)
    ensures (a + b + c)[|a|..|a| + |b|] == b
  {
    assert forall i :: 0 <= i < |b| ==> (a + b + c)[|a| + i] == b[i];
  }

  /** Every text that reads as a datetime is the stored form of that
      datetime, which has no sub-second part. */
  lemma ParseFormat(s: string, d: DateTime)
    requires Parse(s) == Some(d)
    ensures d.microsecond == 0 && Format(d) == s
  {
    ParsedFields(s, d);
    FormatFields(d, s[0..4], s[5..7], s[8..10], s[11..13], s[14..16], s[17..19]);
    Assemble(s);
  }

  /** What a successful parse has read: the separators, and each field as
      the value of its digits. */
  lemma ParsedFields(s: string, d: DateTime)
    requires Parse(s) == Some(d)
    ensures |s| == 19 && s[4] == '-' && s[7] == '-' && s[10] == ' ' && s[13] == ':' && s[16] == ':'
    ensures AllDigits(s[0..4]) && AllDigits(s[5..7]) && AllDigits(s[8..10])
    ensures AllDigits(s[11..13]) && AllDigits(s[14..16]) && AllDigits(s[17..19])
    ensures d == DateFields(Value(s[0..4]), Value(s[5..7]), Value(s[8..10]),
                            Value(s[11..13]), Value(s[14..16]), Value(s[17..19]), 0)
  {
  }

  /** A datetime whose fields are the values of digit strings of the
      stored widths is formatted as those strings. */
  lemma FormatFields(d: DateTime, y: string, mo: string, da: string, h: string, mi: string, se: string)
    requires |y| == 4 && |mo| == 2 && |da| == 2 && |h| == 2 && |mi| == 2 && |se| == 2
    requires AllDigits(y) && AllDigits(mo) && AllDigits(da) && AllDigits(h) && AllDigits(mi) && AllDigits(se)
    requires d.year == Value(y) && d.month == Value(mo) && d.day == Value(da)
    requires d.hour == Value(h) && d.minute == Value(mi) && d.second == Value(se)
    ensures Format(d) == y + "-" + mo + "-" + da + " " + h + ":" + mi + ":" + se
  {
    ValuePad(y);
    ValuePad(mo);
    ValuePad(da);
    ValuePad(h);
    ValuePad(mi);
    ValuePad(se);
  }

  /** A text with the separators of the stored form is its six fields
      joined by those separators. */
  lemma Assemble(s: string)
    requires |s| == 19 && s[4] == '-' && s[7] == '-' && s[10] == ' ' && s[13] == ':' && s[16] == ':'
    ensures s == s[0..4] + "-" + s[5..7] + "-" + s[8..10] + " " + s[11..13] + ":" + s[14..16] + ":" + s[17..19]
  {
    assert s[16..] == ":" + s[17..19];
    assert s[14..] == s[14..16] + s[16..];
    assert s[13..] == ":" + s[14..];
    assert s[11..] == s[11..13] + s[13..];
    assert s[10..] == " " + s[11..];
    assert s[8..] == s[8..10] + s[10..];
    assert s[7..] == "-" + s[8..];
    assert s[5..] == s[5..7] + s[7..];
    assert s[4..] == "-" + s[5..];
    assert s == s[0..4] + s[4..];
  }
}
