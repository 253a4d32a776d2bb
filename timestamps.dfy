/** Python `datetime.datetime` values as the record keeps them, their text form
    written by `isoformat()` (section 5.6 of RFC 3339, `full-date "T"
    partial-time` without an offset) and read back by
    `strptime(s, "%Y-%m-%dT%H:%M:%S.%f")`. */
module Timestamps {
  import opened Results
  import opened Decimal

  /** A naive date-time, field by field. */
  datatype DateTime = DateTime(
    year: nat, month: nat, day: nat,
    hour: nat, minute: nat, second: nat, microsecond: nat)
  {
    /** The ranges `datetime.datetime` enforces on construction. */
    predicate Valid() {
      && 1 <= year <= 9999
      && 1 <= month <= 12
      && 1 <= day <= DaysInMonth(year, month)
      && hour < 24 && minute < 60 && second < 60
      && microsecond < 1000000
    }
  }

  /** The values a `datetime.datetime` object can hold. */
  type Timestamp = t: DateTime | t.Valid() witness DateTime(1, 1, 1, 0, 0, 0, 0)

  predicate IsLeap(year: nat) {
    year % 4 == 0 && (year % 100 != 0 || year % 400 == 0)
  }

  function DaysInMonth(year: nat, month: nat): nat {
    if month == 2 then (if IsLeap(year) then 29 else 28)
    else if month == 4 || month == 6 || month == 9 || month == 11 then 30
    else 31
  }

  /** `t.isoformat(sep)`: the time is followed by `.ffffff` only when the
      microsecond is not zero (timespec "auto"). */
  function Format(t: Timestamp, sep: char): string {
    Padded(t.year, 4) + "-" + Padded(t.month, 2) + "-" + Padded(t.day, 2) + [sep]
    + Padded(t.hour, 2) + ":" + Padded(t.minute, 2) + ":" + Padded(t.second, 2)
    + (if t.microsecond != 0 then "." + Padded(t.microsecond, 6) else "")
  }

  /** `t.isoformat()`, as written by `to_dict`: 26 characters with the
      fraction, 19 without it, a 'T' between date and time. */
  function IsoFormat(t: Timestamp): (r: string)
    ensures |r| == if t.microsecond != 0 then 26 else 19
    ensures r[10] == 'T' && r[4] == '-' && r[7] == '-' && r[13] == ':' && r[16] == ':'
    ensures t.microsecond != 0 ==> r[19] == '.'
  {
    Format(t, 'T')
  }

  /** `str(t)`: the same text with a space between date and time. */
  function Str(t: Timestamp): string {
    Format(t, ' ')
  }

  /** The shape `%Y-%m-%dT%H:%M:%S.%f` accepts, with two-digit fields: four
      digits, '-', two, '-', two, 'T' (matched case-insensitively), two, ':',
      two, ':', two, '.', then one to six digits and nothing after them. */
  predicate MatchesFormat(s: string) {
    && 21 <= |s| <= 26
    && AllDigits(s[0..4]) && s[4] == '-'
    && AllDigits(s[5..7]) && s[7] == '-'
    && AllDigits(s[8..10]) && (s[10] == 'T' || s[10] == 't')
    && AllDigits(s[11..13]) && s[13] == ':'
    && AllDigits(s[14..16]) && s[16] == ':'
    && AllDigits(s[17..19]) && s[19] == '.'
    && AllDigits(s[20..])
  }

  /** The fields of a matching text; `%f` pads a short fraction with zeros on
      the right before reading it. */
  function Fields(s: string): DateTime
    requires MatchesFormat(s)
  {
    DateTime(Value(s[0..4]), Value(s[5..7]), Value(s[8..10]),
             Value(s[11..13]), Value(s[14..16]), Value(s[17..19]),
             Value(s[20..] + Zeros(26 - |s|)))
  }

  /** `datetime.strptime(s, "%Y-%m-%dT%H:%M:%S.%f")`: ValueError when the text
      does not match or names a date-time that does not exist. */
  function Parse(s: string): (r: Result<Timestamp>)
    ensures r.Ok? <==> MatchesFormat(s) && Fields(s).Valid()
    ensures r.Ok? ==> r.value == Fields(s)
    ensures r.Err? ==> r.error == ValueError
  {
    if !MatchesFormat(s) then Err(ValueError)
    else
      var t := Fields(s);
      if t.Valid() then Ok(t) else Err(ValueError)
  }

  /** `repr(t)`: `datetime.datetime(Y, M, D, h, m, s, us)`, dropping a zero
      microsecond and then, if that was dropped, a zero second. */
  function Repr(t: Timestamp): (r: string)
    ensures |r| > 19 && r[..18] == "datetime.datetime(" && r[|r| - 1] == ')'
  {
    var head := [t.year, t.month, t.day, t.hour, t.minute];
    var fields :=
      if t.microsecond != 0 then head + [t.second, t.microsecond]
      else if t.second != 0 then head + [t.second]
      else head;
    "datetime.datetime(" + JoinNumbers(fields) + ")"
  }

  function JoinNumbers(ns: seq<nat>): string {
    if ns == [] then ""
    else if |ns| == 1 then Digits(ns[0])
    else Digits(ns[0]) + ", " + JoinNumbers(ns[1..])
  }

  /** The timestamp text round trip: the text `isoformat()` writes for a
      timestamp with a non-zero microsecond is 26 characters long, and parsing
      it gives the timestamp back. */
  lemma ParseIsoFormat(t: Timestamp)
    requires t.microsecond != 0
    ensures |IsoFormat(t)| == 26
    ensures Parse(IsoFormat(t)) == Ok(t)
  {
    var s := IsoFormat(t);
    IsoFormatFields(t);
    assert s[20..] + Zeros(0) == s[20..];
    assert Fields(s) == t;
  }

  /** The text `isoformat()` writes for a timestamp with a fraction has the
      layout `%Y-%m-%dT%H:%M:%S.%f` accepts, and each field reads back as the
      timestamp's own. */
  lemma IsoFormatFields(t: Timestamp)
    requires t.microsecond != 0
    ensures var s := IsoFormat(t);
      && |s| == 26 && MatchesFormat(s)
      && Value(s[0..4]) == t.year && Value(s[5..7]) == t.month && Value(s[8..10]) == t.day
      && Value(s[11..13]) == t.hour && Value(s[14..16]) == t.minute && Value(s[17..19]) == t.second
      && Value(s[20..]) == t.microsecond
  {
    IsoFormatSlices(t);
    ValueOfPadded(t.year, 4);
    ValueOfPadded(t.month, 2);
    ValueOfPadded(t.day, 2);
    ValueOfPadded(t.hour, 2);
    ValueOfPadded(t.minute, 2);
    ValueOfPadded(t.second, 2);
    ValueOfPadded(t.microsecond, 6);
  }

  /** Where each field stands in the text `isoformat()` writes for a
      timestamp with a fraction. */
  lemma IsoFormatSlices(t: Timestamp)
    requires t.microsecond != 0
    ensures var s := IsoFormat(t);
      && |s| == 26 && s[4] == '-' && s[7] == '-' && s[10] == 'T' && s[13] == ':' && s[16] == ':' && s[19] == '.'
      && s[0..4] == Padded(t.year, 4) && s[5..7] == Padded(t.month, 2) && s[8..10] == Padded(t.day, 2)
      && s[11..13] == Padded(t.hour, 2) && s[14..16] == Padded(t.minute, 2) && s[17..19] == Padded(t.second, 2)
      && s[20..] == Padded(t.microsecond, 6)
  {
    var s := IsoFormat(t);
    assert s[0..4] == Padded(t.year, 4);
    assert s[5..7] == Padded(t.month, 2);
    assert s[8..10] == Padded(t.day, 2);
    assert s[11..13] == Padded(t.hour, 2);
    assert s[14..16] == Padded(t.minute, 2);
    assert s[17..19] == Padded(t.second, 2);
  }

  /** When the microsecond is zero `isoformat()` leaves out the fraction, and
      the `.%f` format then rejects the 19-character text. */
  lemma ParseIsoFormatWholeSecond(t: Timestamp)
    requires t.microsecond == 0
    ensures |IsoFormat(t)| == 19
    ensures Parse(IsoFormat(t)) == Err(ValueError)
  {
  }

  /** Each field of a full-length matching text, written back at its width,
      is the text it was read from. */
  lemma FieldsWrittenBack(s: string)
    requires MatchesFormat(s) && |s| == 26
    ensures
      var t := Fields(s);
      && t.year < 10000 && t.month < 100 && t.day < 100 && t.hour < 100
      && t.minute < 100 && t.second < 100 && t.microsecond < 1000000
      && Padded(t.year, 4) == s[0..4] && Padded(t.month, 2) == s[5..7]
      && Padded(t.day, 2) == s[8..10] && Padded(t.hour, 2) == s[11..13]
      && Padded(t.minute, 2) == s[14..16] && Padded(t.second, 2) == s[17..19]
      && Padded(t.microsecond, 6) == s[20..]
  {
    PaddedOfValue(s[0..4]);
    PaddedOfValue(s[5..7]);
    PaddedOfValue(s[8..10]);
    PaddedOfValue(s[11..13]);
    PaddedOfValue(s[14..16]);
    PaddedOfValue(s[17..19]);
    assert s[20..] + Zeros(0) == s[20..];
    PaddedOfValue(s[20..]);
  }

  /** A 26-character text cut at the places of the ISO layout. */
  lemma IsoPieces(s: string)
    requires |s| == 26
    ensures s == s[0..4] + [s[4]] + s[5..7] + [s[7]] + s[8..10] + [s[10]] + s[11..13] + [s[13]]
                 + s[14..16] + [s[16]] + s[17..19] + [s[19]] + s[20..]
  {
  }

  /** Conversely, a 26-character text with an upper-case 'T' that parses to a
      timestamp with a non-zero microsecond is exactly what `isoformat()`
      writes for it: the parser accepts one spelling per such timestamp. */
  lemma IsoFormatOfParse(s: string)
    requires Parse(s).Ok? && |s| == 26 && s[10] == 'T'
    requires Parse(s).value.microsecond != 0
    ensures IsoFormat(Parse(s).value) == s
  {
    FieldsWrittenBack(s);
    IsoPieces(s);
  }
}
