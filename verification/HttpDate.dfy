/** Parsing an HTTP Date header (src/clock.rs), from its whitespace-separated words. */
module HttpDate {
  import opened Bytes
  import opened Text
  import opened CivilDate

  /** Jan .. Dec. */
  const MONTHS: seq<Str> := [
    [74, 97, 110], [70, 101, 98], [77, 97, 114], [65, 112, 114], [77, 97, 121], [74, 117, 110],
    [74, 117, 108], [65, 117, 103], [83, 101, 112], [79, 99, 116], [78, 111, 118], [68, 101, 99]]

  /** The first entry of the table that matches, counted from 1. */
  function MonthFrom(w: Str, i: nat): (r: Option<nat>)
    requires i <= 12
    ensures r.Some? ==> i < r.value <= 12 && MONTHS[r.value - 1] == w
    decreases 12 - i
  {
    if i == 12 then None else if MONTHS[i] == w then Some(i + 1) else MonthFrom(w, i + 1)
  }

  predicate InRange(t: DateTime) {
    && 1 <= t.date.year <= 9999 && 1 <= t.date.month <= 12 && 1 <= t.date.day <= 31
    && 0 <= t.hour <= 23 && 0 <= t.minute <= 59 && 0 <= t.second <= 60
  }

  function ParseDate(t: seq<Str>): Option<int> {
    if |t| < 6 || t[0] == [] || t[0][|t[0]| - 1] != COMMA then None
    else
      var day, month, year := ParseI64(t[1]), MonthFrom(t[2], 0), ParseI64(t[3]);
      var hms := SplitOn(t[4], COLON);
      if day.None? || month.None? || year.None? || |hms| != 3 then None
      else
        var h, mi, sec := ParseI64(hms[0]), ParseI64(hms[1]), ParseI64(hms[2]);
        if h.None? || mi.None? || sec.None? then None
        else
          var dt := DateTime(Date(year.value, month.value, day.value), h.value, mi.value, sec.value);
          if InRange(dt) then Some(Timestamp(dt)) else None
  }

  // ------------------------------------------------------------------------
  // What the words mean
  // ------------------------------------------------------------------------

  /** The words spell this date and time. */
  predicate Spells(t: seq<Str>, dt: DateTime) {
    && |t| >= 6 && t[0] != [] && t[0][|t[0]| - 1] == COMMA && InRange(dt)
    && ParseI64(t[1]) == Some(dt.date.day) && t[2] == MONTHS[dt.date.month - 1] && ParseI64(t[3]) == Some(dt.date.year)
    && var hms := SplitOn(t[4], COLON);
       && |hms| == 3 && ParseI64(hms[0]) == Some(dt.hour)
       && ParseI64(hms[1]) == Some(dt.minute) && ParseI64(hms[2]) == Some(dt.second)
  }

  /** Seconds since 1970, counting days one calendar day at a time; a day past the month's end runs into the next month. */
  function NaiveSeconds(t: DateTime): int
    requires InRange(t)
  {
    (NaiveDays(t.date) - NaiveDays(Date(1970, 1, 1))) * 86_400 + t.hour * 3600 + t.minute * 60 + t.second
  }

  lemma {:induction false} MonthFound(m: nat, i: nat)
    requires i < m <= 12
    ensures MonthFrom(MONTHS[m - 1], i) == Some(m)
    decreases 12 - i
  {
    if i + 1 < m {
      MonthsDiffer(i, m - 1);
      MonthFound(m, i + 1);
    }
  }

  lemma MonthsDiffer(i: nat, j: nat)
    requires i < j < 12
    ensures MONTHS[i] != MONTHS[j]
  {
    assert Code(MONTHS[i]) != Code(MONTHS[j]);
  }

  function Code(s: Str): int {
    if |s| != 3 then 0
    else
      var a: int, b: int, c: int := s[0], s[1], s[2];
      a + 256 * b + 65536 * c
  }

  /** The parser accepts exactly the words that spell a date in range, and returns its Unix time. */
  lemma ParseExact(t: seq<Str>, v: int)
    ensures ParseDate(t) == Some(v) <==> exists dt :: Spells(t, dt) && v == NaiveSeconds(dt)
  {
    hide NaiveDays, EraDays, SplitOn, ParseI64;
    if ParseDate(t) == Some(v) {
      var hms := SplitOn(t[4], COLON);
      var dt := DateTime(
        Date(ParseI64(t[3]).value, MonthFrom(t[2], 0).value, ParseI64(t[1]).value),
        ParseI64(hms[0]).value, ParseI64(hms[1]).value, ParseI64(hms[2]).value);
      GregorianCorrect(dt.date);
      assert Spells(t, dt);
    }
    forall dt | Spells(t, dt) && v == NaiveSeconds(dt) ensures ParseDate(t) == Some(v) {
      MonthFound(dt.date.month, 0);
      GregorianCorrect(dt.date);
    }
  }

  // ------------------------------------------------------------------------
  // Round trip
  // ------------------------------------------------------------------------

  function Two(n: nat): Str
    requires n < 100
  {
    [48 + n / 10, 48 + n % 10]
  }

  function Four(n: nat): Str
    requires n < 10_000
  {
    Two(n / 100) + Two(n % 100)
  }

  /** The words of `Sat, 12 Sep 2026 03:51:12 GMT`, for any day name. */
  function Words(name: Str, t: DateTime): seq<Str>
    requires InRange(t)
  {
    [name + [COMMA], Two(t.date.day), MONTHS[t.date.month - 1], Four(t.date.year),
     Two(t.hour) + [COLON] + (Two(t.minute) + [COLON] + Two(t.second)), [71, 77, 84]]
  }

  lemma TwoParses(n: nat)
    requires n < 100
    ensures ParseI64(Two(n)) == Some(n) && COLON !in Two(n)
  {
    assert Two(n)[..1] == [48 + n / 10] && Two(n)[..1][..0] == [];
    assert AllDigits(Two(n));
    assert Value(Two(n)[..1]) == 10 * Value([]) + n / 10;
    assert Value(Two(n)) == 10 * Value(Two(n)[..1]) + n % 10;
  }

  lemma FourParses(n: nat)
    requires n < 10_000
    ensures ParseI64(Four(n)) == Some(n)
  {
    var s, a, b := Four(n), n / 100, n % 100;
    TwoParses(a);
    assert AllDigits(Two(a)) && AllDigits(s);
    assert s[..3][..2] == Two(a) && s[..3] == Two(a) + [48 + b / 10];
    assert Value(s[..3]) == 10 * Value(s[..3][..2]) + b / 10;
    assert Value(s) == 10 * Value(s[..3]) + b % 10;
  }

  /** Every date-time in range, written out, parses to its own Unix time. */
  lemma DateRoundTrip(name: Str, t: DateTime)
    requires InRange(t)
    ensures ParseDate(Words(name, t)) == Some(NaiveSeconds(t))
  {
    hide NaiveDays, EraDays, ParseI64, Two, Four, Timestamp;
    var w := Words(name, t);
    TwoParses(t.date.day);
    TwoParses(t.hour);
    TwoParses(t.minute);
    TwoParses(t.second);
    FourParses(t.date.year);
    SplitFirst(Two(t.hour), COLON, Two(t.minute) + [COLON] + Two(t.second));
    SplitFirst(Two(t.minute), COLON, Two(t.second));
    SplitNone(Two(t.second), COLON);
    assert Spells(w, t);
    ParseExact(w, NaiveSeconds(t));
  }
}
