/**
 * The part of Python's `datetime` that the task model uses: naive datetimes,
 * their chronological order, `isoformat()` and `fromisoformat()`.
 */
module DateTimes {
  import opened Results

  const MinYear := 1
  const MaxYear := 9999

  /** The fields of a naive `datetime`, before its range checks. */
  datatype DateTimeFields = DateTimeFields(
    year: int, month: int, day: int,
    hour: int, minute: int, second: int, microsecond: int)
  {
    /** The range checks of the `datetime` constructor. */
    predicate Valid() {
      && MinYear <= year <= MaxYear
      && 1 <= month <= 12
      && 1 <= day <= DaysInMonth(year, month)
      && 0 <= hour < 24
      && 0 <= minute < 60
      && 0 <= second < 60
      && 0 <= microsecond < 1000000
    }

    /** Each field below the year is a digit in the base of its place. */
    predicate InPlaceRanges() {
      && 0 <= month < 13 && 0 <= day < 32 && 0 <= hour < 24
      && 0 <= minute < 60 && 0 <= second < 60 && 0 <= microsecond < 1000000
    }
  }

  /** A naive `datetime` value: every one Python can build passes the range checks. */
  type DateTime = d: DateTimeFields | d.Valid() witness DateTimeFields(1, 1, 1, 0, 0, 0, 0)

  predicate IsLeapYear(y: int) {
    y % 4 == 0 && (y % 100 != 0 || y % 400 == 0)
  }

  function DaysInMonth(y: int, m: int): int
    requires 1 <= m <= 12
  {
    if m == 2 then (if IsLeapYear(y) then 29 else 28)
    else if m == 4 || m == 6 || m == 9 || m == 11 then 30
    else 31
  }

  /** Python's `<` on two naive datetimes: field by field, most significant first. */
  function Before(a: DateTimeFields, b: DateTimeFields): (r: bool)
    ensures r ==> a != b
  {
    if a.year != b.year then a.year < b.year
    else if a.month != b.month then a.month < b.month
    else if a.day != b.day then a.day < b.day
    else if a.hour != b.hour then a.hour < b.hour
    else if a.minute != b.minute then a.minute < b.minute
    else if a.second != b.second then a.second < b.second
    else a.microsecond < b.microsecond
  }

  /** A number for each datetime, used as an integer sort key. */
  function Ordinal(d: DateTimeFields): int {
    Place(SecondKey(d), d.microsecond, 1000000)
  }

  /** The date part as one number. */
  function DayKey(d: DateTimeFields): int {
    Place(Place(d.year, d.month, 13), d.day, 32)
  }

  /** The datetime truncated to whole seconds, as one number. */
  function SecondKey(d: DateTimeFields): int {
    Place(Place(Place(DayKey(d), d.hour, 24), d.minute, 60), d.second, 60)
  }

  /** The number with high part `h` and low digit `l` in base `base`. */
  function Place(h: int, l: int, base: int): int {
    h * base + l
  }

  /** Comparing `h * base + l` with a low digit `l` in `0..base` is comparing `(h, l)` lexicographically. */
  lemma PlaceValue(h1: int, l1: int, h2: int, l2: int, base: int)
    requires 0 <= l1 < base && 0 <= l2 < base
    ensures Place(h1, l1, base) < Place(h2, l2, base) <==> h1 < h2 || (h1 == h2 && l1 < l2)
    ensures Place(h1, l1, base) == Place(h2, l2, base) <==> h1 == h2 && l1 == l2
  {
    if h1 < h2 {
      HigherPlaceDominates(h1, h2, base);
    } else if h2 < h1 {
      HigherPlaceDominates(h2, h1, base);
    }
  }

  lemma HigherPlaceDominates(lo: int, hi: int, base: int)
    requires lo < hi && 0 < base
    ensures lo * base + base <= hi * base
  {
    var gap := hi - lo - 1;
    assert gap * base >= 0;
    assert hi * base == (lo + 1 + gap) * base == lo * base + base + gap * base;
  }

  /** The integer key orders datetimes exactly as Python's `<` does, and tells them apart. */
  lemma {:induction false} OrdinalOrder(a: DateTime, b: DateTime)
    ensures Before(a, b) <==> Ordinal(a) < Ordinal(b)
    ensures a == b <==> Ordinal(a) == Ordinal(b)
  {
    assert a.InPlaceRanges() && b.InPlaceRanges();
    PlacesOrder(a, b);
    PlacesDistinct(a, b);
  }

  /** Python's `<` on datetimes is a strict total order. */
  lemma {:induction false} BeforeStrictOrder(a: DateTime, b: DateTime, c: DateTime)
    ensures !Before(a, a)
    ensures Before(a, b) ==> !Before(b, a)
    ensures a != b ==> Before(a, b) || Before(b, a)
    ensures Before(a, b) && Before(b, c) ==> Before(a, c)
  {
    OrdinalOrder(a, b);
    OrdinalOrder(b, c);
    OrdinalOrder(a, c);
    OrdinalOrder(b, a);
  }

  lemma PlacesOrder(a: DateTimeFields, b: DateTimeFields)
    requires a.InPlaceRanges() && b.InPlaceRanges()
    ensures Before(a, b) <==> Ordinal(a) < Ordinal(b)
  {
    var sa, sb := SecondKey(a), SecondKey(b);
    assert Before(a, b) <==> sa < sb || (sa == sb && a.microsecond < b.microsecond) by {
      SecondKeyOrder(a, b);
    }
    PlaceValue(sa, a.microsecond, sb, b.microsecond, 1000000);
  }

  lemma PlacesDistinct(a: DateTimeFields, b: DateTimeFields)
    requires a.InPlaceRanges() && b.InPlaceRanges()
    ensures a == b <==> Ordinal(a) == Ordinal(b)
  {
    var sa, sb := SecondKey(a), SecondKey(b);
    assert a == b <==> sa == sb && a.microsecond == b.microsecond by {
      SecondKeyOrder(a, b);
    }
    PlaceValue(sa, a.microsecond, sb, b.microsecond, 1000000);
  }

  /** The date key orders dates as (year, month, day) compared lexicographically. */
  lemma DayKeyOrder(a: DateTimeFields, b: DateTimeFields)
    requires a.InPlaceRanges() && b.InPlaceRanges()
    ensures DayKey(a) < DayKey(b) <==>
      a.year < b.year || (a.year == b.year && (a.month < b.month || (a.month == b.month && a.day < b.day)))
    ensures DayKey(a) == DayKey(b) <==> a.year == b.year && a.month == b.month && a.day == b.day
  {
    PlaceValue(a.year, a.month, b.year, b.month, 13);
    PlaceValue(Place(a.year, a.month, 13), a.day, Place(b.year, b.month, 13), b.day, 32);
  }

  /** The seconds key orders datetimes as the date key, then (hour, minute, second), lexicographically. */
  lemma SecondKeyOrder(a: DateTimeFields, b: DateTimeFields)
    requires a.InPlaceRanges() && b.InPlaceRanges()
    ensures SecondKey(a) < SecondKey(b) <==>
      (if DayKey(a) != DayKey(b) then DayKey(a) < DayKey(b)
       else if a.hour != b.hour then a.hour < b.hour
       else if a.minute != b.minute then a.minute < b.minute
       else a.second < b.second)
    ensures SecondKey(a) == SecondKey(b) <==>
      DayKey(a) == DayKey(b) && a.hour == b.hour && a.minute == b.minute && a.second == b.second
    ensures DayKey(a) < DayKey(b) <==>
      a.year < b.year || (a.year == b.year && (a.month < b.month || (a.month == b.month && a.day < b.day)))
    ensures DayKey(a) == DayKey(b) <==> a.year == b.year && a.month == b.month && a.day == b.day
  {
    DayKeyOrder(a, b);
    var a1, b1 := Place(DayKey(a), a.hour, 24), Place(DayKey(b), b.hour, 24);
    PlaceValue(DayKey(a), a.hour, DayKey(b), b.hour, 24);
    var a2, b2 := Place(a1, a.minute, 60), Place(b1, b.minute, 60);
    PlaceValue(a1, a.minute, b1, b.minute, 60);
    PlaceValue(a2, a.second, b2, b.second, 60);
  }

  // ---------------------------------------------------------------------------
  // Decimal fields of the ISO-8601 text

  function Pow10(w: nat): nat {
    if w == 0 then 1 else 10 * Pow10(w - 1)
  }

  predicate IsDigit(c: char) {
    '0' <= c <= '9'
  }

  function DigitChar(n: nat): char
    requires n < 10
  {
    ('0' as int + n) as char
  }

  /** `"%0*d" % (w, n)`: `n` in exactly `w` decimal digits, zero-padded on the left. */
  function Pad(n: nat, w: nat): (r: string)
    requires n < Pow10(w)
    ensures |r| == w
    ensures forall i :: 0 <= i < |r| ==> IsDigit(r[i])
  {
    if w == 0 then [] else Pad(n / 10, w - 1) + [DigitChar(n % 10)]
  }

  /** The value of a run of ASCII digits, or None when some character is not a digit. */
  function ParseDigits(s: string): (r: Option<nat>)
    ensures r.Some? <==> forall i :: 0 <= i < |s| ==> IsDigit(s[i])
    ensures r.Some? ==> r.value < Pow10(|s|)
  {
    if s == [] then Some(0)
    else if !IsDigit(s[|s| - 1]) then None
    else match ParseDigits(s[..|s| - 1])
      case None => None
      case Some(v) => Some(v * 10 + (s[|s| - 1] as int - '0' as int))
  }

  /** Reading back a zero-padded field gives the number that was written. */
  lemma {:induction false} ParsePad(n: nat, w: nat)
    requires n < Pow10(w)
    ensures ParseDigits(Pad(n, w)) == Some(n)
  {
    if w > 0 {
      var s := Pad(n, w);
      assert s[..|s| - 1] == Pad(n / 10, w - 1);
      ParsePad(n / 10, w - 1);
    }
  }

  // ---------------------------------------------------------------------------
  // isoformat and fromisoformat

  /**
   * `d.isoformat()` for a naive datetime: `YYYY-MM-DDTHH:MM:SS`, followed by
   * `.ffffff` only when the microsecond is not zero.
   */
  function IsoFormat(d: DateTime): (s: string)
    ensures |s| == if d.microsecond == 0 then 19 else 26
  {
    Joined(Pad(d.year, 4), '-', Pad(d.month, 2), '-', Pad(d.day, 2)) + "T"
      + Joined(Pad(d.hour, 2), ':', Pad(d.minute, 2), ':', Pad(d.second, 2))
      + (if d.microsecond == 0 then "" else "." + Pad(d.microsecond, 6))
  }

  /** Three fields with a separator character between each two. */
  function Joined(a: string, sep1: char, b: string, sep2: char, c: string): (s: string)
    ensures |s| == |a| + |b| + |c| + 2
    ensures s[..|a|] == a && s[|a|] == sep1 && s[|a| + 1..|a| + 1 + |b|] == b
    ensures s[|a| + 1 + |b|] == sep2 && s[|a| + |b| + 2..] == c
  {
    var s := a + [sep1] + b + [sep2] + c;
    assert s[|a| + 1..|a| + 1 + |b|] == b;
    assert s[|a| + |b| + 2..] == c;
    s
  }

  /**
   * `datetime.fromisoformat(s)` for the forms `YYYY-MM-DD`, `YYYY-MM-DD?HH:MM:SS`
   * and `YYYY-MM-DD?HH:MM:SS.ffffff`, where `?` is any single character.
   * None stands for the ValueError Python raises on a field out of range or
   * on text it does not accept, and also for forms Python accepts that this
   * model does not parse: an hour alone (`YYYY-MM-DD?HH`), hour and minute
   * (`?HH:MM`), milliseconds (`?HH:MM:SS.fff`), UTC offsets (`+HH:MM`), and
   * the further forms accepted since Python 3.11.
   */
  function FromIsoFormat(s: string): (r: Option<DateTime>)
    ensures r.Some? ==> |s| == 10 || |s| == 19 || |s| == 26
    ensures r.Some? && |s| == 10 ==> r.value.hour == r.value.minute == r.value.second == r.value.microsecond == 0
  {
    if |s| != 10 && |s| != 19 && |s| != 26 then None
    else if s[4] != '-' || s[7] != '-' then None
    else if |s| >= 19 && (s[13] != ':' || s[16] != ':') then None
    else if |s| == 26 && s[19] != '.' then None
    else
      var year, month, day := ParseDigits(s[0..4]), ParseDigits(s[5..7]), ParseDigits(s[8..10]);
      var hour := if |s| >= 19 then ParseDigits(s[11..13]) else Some(0);
      var minute := if |s| >= 19 then ParseDigits(s[14..16]) else Some(0);
      var second := if |s| >= 19 then ParseDigits(s[17..19]) else Some(0);
      var micro := if |s| == 26 then ParseDigits(s[20..26]) else Some(0);
      if year.None? || month.None? || day.None? || hour.None? || minute.None?
         || second.None? || micro.None?
      then None
      else
        var d := DateTimeFields(year.value, month.value, day.value,
                                hour.value, minute.value, second.value, micro.value);
        if d.Valid() then Some(d) else None
  }

  /** Where each field sits in the text that `isoformat` writes. */
  lemma IsoFields(d: DateTime)
    ensures var s := IsoFormat(d);
      && s[4] == '-' && s[7] == '-' && s[10] == 'T' && s[13] == ':' && s[16] == ':'
      && s[0..4] == Pad(d.year, 4) && s[5..7] == Pad(d.month, 2) && s[8..10] == Pad(d.day, 2)
      && s[11..13] == Pad(d.hour, 2) && s[14..16] == Pad(d.minute, 2) && s[17..19] == Pad(d.second, 2)
      && (d.microsecond != 0 ==> s[19] == '.' && s[20..26] == Pad(d.microsecond, 6))
  {
    var date := Joined(Pad(d.year, 4), '-', Pad(d.month, 2), '-', Pad(d.day, 2));
    var time := Joined(Pad(d.hour, 2), ':', Pad(d.minute, 2), ':', Pad(d.second, 2));
    var frac := if d.microsecond == 0 then "" else "." + Pad(d.microsecond, 6);
    var s := IsoFormat(d);
    assert s == date + "T" + time + frac;
    assert s[..10] == date;
    assert s[11..19] == time;
    assert s[19..] == frac;
    assert s[0..4] == date[..4];
    assert s[5..7] == date[5..7];
    assert s[8..10] == date[8..];
    assert s[11..13] == time[..2];
    assert s[14..16] == time[3..5];
    assert s[17..19] == time[6..];
  }

  /** `datetime.fromisoformat(d.isoformat()) == d`. */
  lemma IsoRoundTrip(d: DateTime)
    ensures FromIsoFormat(IsoFormat(d)) == Some(d)
  {
    var s := IsoFormat(d);
    assert FieldsAt(s, d) by {
      IsoFields(d);
      ParsePad(d.year, 4);
      ParsePad(d.month, 2);
      ParsePad(d.day, 2);
      ParsePad(d.hour, 2);
      ParsePad(d.minute, 2);
      ParsePad(d.second, 2);
      if d.microsecond != 0 {
        ParsePad(d.microsecond, 6);
      }
    }
    ParseFieldsAt(s, d);
  }

  /** The text `s` has the layout of `isoformat` and holds the fields of `d`. */
  predicate FieldsAt(s: string, d: DateTime) {
    && |s| == (if d.microsecond == 0 then 19 else 26)
    && s[4] == '-' && s[7] == '-' && s[13] == ':' && s[16] == ':'
    && ParseDigits(s[0..4]) == Some(d.year) && ParseDigits(s[5..7]) == Some(d.month)
    && ParseDigits(s[8..10]) == Some(d.day) && ParseDigits(s[11..13]) == Some(d.hour)
    && ParseDigits(s[14..16]) == Some(d.minute) && ParseDigits(s[17..19]) == Some(d.second)
    && (d.microsecond != 0 ==> s[19] == '.' && ParseDigits(s[20..26]) == Some(d.microsecond))
  }

  /** `fromisoformat` reads back the fields of a text laid out as `isoformat` writes it. */
  lemma ParseFieldsAt(s: string, d: DateTime)
    requires FieldsAt(s, d)
    ensures FromIsoFormat(s) == Some(d)
  {
  }
}
