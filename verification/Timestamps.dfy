/**
 The timestamp texts the outbox stores and compares. `isoformat` leaves the
 fraction out when it is zero, so texts differ in length; SQL compares them
 character by character all the same.
 */
module Timestamps {
  import opened Contract
  import Keys

  // ---- the proleptic Gregorian calendar ----

  predicate IsLeap(y: int) {
    y % 4 == 0 && (y % 100 != 0 || y % 400 == 0)
  }

  /** Days before the first of January of year y, counted from year 1. */
  function DaysBeforeYear(y: int): int {
    365 * (y - 1) + (y - 1) / 4 - (y - 1) / 100 + (y - 1) / 400
  }

  function DaysBeforeMonth(y: int, m: int): int
    requires 1 <= m <= 13
  {
    [0, 31, 59, 90, 120, 151, 181, 212, 243, 273, 304, 334, 365][m - 1] + if m > 2 && IsLeap(y) then 1 else 0
  }

  datatype Stamp = Stamp(year: int, month: int, day: int, hour: int, minute: int, second: int, micro: int) {
    predicate Valid() {
      && 1 <= year <= 9999
      && 1 <= month <= 12
      && 1 <= day <= DaysBeforeMonth(year, month + 1) - DaysBeforeMonth(year, month)
      && 0 <= hour < 24 && 0 <= minute < 60 && 0 <= second < 60
      && 0 <= micro < 1_000_000
    }
  }

  const MICROS_PER_DAY := 86_400_000_000
  const END_OF_TIME := MICROS_PER_DAY * DaysBeforeYear(10_000)

  /** Microseconds since the start of year 1. */
  function Instant(s: Stamp): int
    requires s.Valid()
  {
    MICROS_PER_DAY * (DaysBeforeYear(s.year) + DaysBeforeMonth(s.year, s.month) + s.day - 1)
    + 1_000_000 * (3600 * s.hour + 60 * s.minute + s.second) + s.micro
  }

  datatype Date = Date(year: int, month: int, day: int)

  function DateOf(days: int): (d: Date)
    requires 0 <= days < DaysBeforeYear(10_000)
    ensures 1 <= d.year <= 9999 && 1 <= d.month <= 12
    ensures 1 <= d.day <= DaysBeforeMonth(d.year, d.month + 1) - DaysBeforeMonth(d.year, d.month)
    ensures DaysBeforeYear(d.year) + DaysBeforeMonth(d.year, d.month) + d.day - 1 == days
  {
    var y := YearOf(days, 1);
    YearLength(y);
    var m := MonthOf(y, days - DaysBeforeYear(y), 1);
    Date(y, m, days - DaysBeforeYear(y) - DaysBeforeMonth(y, m) + 1)
  }

  /** The calendar reading of an instant. */
  function Reading(n: int): (s: Stamp)
    requires 0 <= n < END_OF_TIME
    ensures s.Valid() && Instant(s) == n
  {
    hide DaysBeforeYear, DaysBeforeMonth;
    var d := DateOf(n / MICROS_PER_DAY);
    var rest := n % MICROS_PER_DAY;
    var seconds := rest / 1_000_000;
    var minutes := seconds / 60;
    Stamp(d.year, d.month, d.day, minutes / 60, minutes % 60, seconds % 60, rest % 1_000_000)
  }

  function YearOf(days: int, y: int): (r: int)
    requires 1 <= y <= 9999 && DaysBeforeYear(y) <= days < DaysBeforeYear(10_000)
    ensures 1 <= r <= 9999 && DaysBeforeYear(r) <= days < DaysBeforeYear(r + 1)
    decreases 9999 - y
  {
    if days < DaysBeforeYear(y + 1) then y else YearOf(days, y + 1)
  }

  function MonthOf(y: int, days: int, m: int): (r: int)
    requires 1 <= m <= 12 && DaysBeforeMonth(y, m) <= days < DaysBeforeMonth(y, 13)
    ensures 1 <= r <= 12 && DaysBeforeMonth(y, r) <= days < DaysBeforeMonth(y, r + 1)
    decreases 12 - m
  {
    if days < DaysBeforeMonth(y, m + 1) then m else MonthOf(y, days, m + 1)
  }

  lemma FourthYears(y: int)
    ensures y / 4 == (y - 1) / 4 + if y % 4 == 0 then 1 else 0
  {}

  lemma Centuries(y: int)
    ensures y / 100 == (y - 1) / 100 + if y % 100 == 0 then 1 else 0
    ensures y % 100 == 0 ==> y % 4 == 0
  {}

  lemma FourthCenturies(y: int)
    ensures y / 400 == (y - 1) / 400 + if y % 400 == 0 then 1 else 0
    ensures y % 400 == 0 ==> y % 100 == 0
  {}

  lemma YearLength(y: int)
    ensures DaysBeforeYear(y + 1) == DaysBeforeYear(y) + DaysBeforeMonth(y, 13)
  {
    FourthYears(y);
    Centuries(y);
    FourthCenturies(y);
    Elapsed(y, y / 4, y / 100, y / 400, (y - 1) / 4, (y - 1) / 100, (y - 1) / 400);
  }

  /** The day count of a year and the next, from the quotients alone. */
  lemma Elapsed(y: int, q4: int, q100: int, q400: int, p4: int, p100: int, p400: int)
    requires q4 == y / 4 && q100 == y / 100 && q400 == y / 400
    requires p4 == (y - 1) / 4 && p100 == (y - 1) / 100 && p400 == (y - 1) / 400
    ensures DaysBeforeYear(y + 1) == 365 * y + q4 - q100 + q400
    ensures DaysBeforeYear(y) == 365 * (y - 1) + p4 - p100 + p400
  {
    assert y + 1 - 1 == y;
  }

  lemma {:induction false} YearsMonotone(y: int, z: int)
    requires y < z
    ensures DaysBeforeYear(y) + DaysBeforeMonth(y, 13) <= DaysBeforeYear(z)
    decreases z - y
  {
    YearLength(y);
    if y + 1 < z {
      YearsMonotone(y + 1, z);
    }
  }

  // ---- text ----

  predicate Less(a: string, b: string) {
    b != "" && (a == "" || a[0] < b[0] || (a[0] == b[0] && Less(a[1..], b[1..])))
  }

  predicate AtMost(a: string, b: string) {
    a == b || Less(a, b)
  }

  function Power10(w: nat): (r: nat)
    ensures r > 0
  {
    if w == 0 then 1 else 10 * Power10(w - 1)
  }

  /** n in decimal, zero-padded to w digits. */
  function Padded(w: nat, n: int): (s: string)
    requires 0 <= n < Power10(w)
    ensures |s| == w
  {
    if w == 0 then "" else Padded(w - 1, n / 10) + ["0123456789"[n % 10]]
  }

  /** A printed number and the mark that follows it, then the rest of the text. */
  datatype Fields = End | Field(width: nat, value: int, mark: char, rest: Fields) {
    predicate Valid() {
      End? || (0 <= value < Power10(width) && rest.Valid())
    }
  }

  function Printed(fs: Fields): string
    requires fs.Valid()
  {
    match fs
    case End => ""
    case Field(width, value, mark, rest) => Padded(width, value) + [mark] + Printed(rest)
  }

  /** The seconds, with a fraction only when it is not zero; the last mark opens the offset. */
  function SecondFields(second: int, micro: int): (fs: Fields)
    requires 0 <= second < 60 && 0 <= micro < 1_000_000
    ensures fs.Valid()
  {
    assert Power10(1) == 10;
    assert Power10(3) == 1_000;
    assert Power10(5) == 100_000;
    if micro == 0 then Field(2, second, '+', End)
    else
      var fraction := Field(6, micro, '+', End);
      assert fraction.Valid();
      Field(2, second, '.', fraction)
  }

  function TimeFields(s: Stamp): (fs: Fields)
    requires s.Valid()
    ensures fs.Valid()
  {
    assert Power10(1) == 10;
    var minutes := Field(2, s.minute, ':', SecondFields(s.second, s.micro));
    assert minutes.Valid();
    Field(2, s.hour, ':', minutes)
  }

  function DateFields(s: Stamp): (fs: Fields)
    requires s.Valid()
    ensures fs.Valid()
  {
    assert Power10(1) == 10;
    assert Power10(3) == 1_000;
    var days := Field(2, s.day, 'T', TimeFields(s));
    assert days.Valid();
    var months := Field(2, s.month, '-', days);
    assert months.Valid();
    Field(4, s.year, '-', months)
  }

  /** datetime.isoformat on an aware UTC datetime. */
  function IsoFormat(s: Stamp): string
    requires s.Valid()
  {
    Printed(DateFields(s)) + "00:00"
  }

  const UNIX_EPOCH := MICROS_PER_DAY * DaysBeforeYear(1970)

  /** Within the years 1 to 9999; outside them fromtimestamp raises. */
  predicate Representable(ts: int) {
    0 <= ts + UNIX_EPOCH < END_OF_TIME
  }

  /** _iso, on microseconds since the Unix epoch. */
  function Iso(ts: int): string
    requires Representable(ts)
  {
    IsoFormat(Reading(ts + UNIX_EPOCH))
  }

  /** The due test of the outbox query: next_attempt_at IS NULL OR next_attempt_at <= ?. */
  predicate Due(nextAttemptAt: Option<string>, now: string) {
    nextAttemptAt.None? || AtMost(nextAttemptAt.value, now)
  }

  // ---- text order ----

  lemma {:induction false} LessConcat(p: string, q: string, s: string, t: string)
    requires |p| == |q|
    ensures Less(p + s, q + t) <==> Less(p, q) || (p == q && Less(s, t))
  {
    if p == "" {
      assert p + s == s && q + t == t;
    } else {
      assert (p + s)[1..] == p[1..] + s && (q + t)[1..] == q[1..] + t;
      LessConcat(p[1..], q[1..], s, t);
      assert p == q <==> p[0] == q[0] && p[1..] == q[1..];
    }
  }

  lemma LessChars(c: char, d: char)
    ensures Less([c], [d]) <==> c < d
  {}

  lemma {:induction false} LessPadded(w: nat, m: int, n: int)
    requires 0 <= m < Power10(w) && 0 <= n < Power10(w)
    ensures Less(Padded(w, m), Padded(w, n)) <==> m < n
    ensures Padded(w, m) == Padded(w, n) <==> m == n
  {
    if w > 0 {
      LessPadded(w - 1, m / 10, n / 10);
      var c, d := "0123456789"[m % 10], "0123456789"[n % 10];
      LessConcat(Padded(w - 1, m / 10), Padded(w - 1, n / 10), [c], [d]);
      LessChars(c, d);
      var s, t := Padded(w, m), Padded(w, n);
      assert s[..w - 1] == Padded(w - 1, m / 10) && t[..w - 1] == Padded(w - 1, n / 10);
      assert s[w - 1] == c && t[w - 1] == d;
    }
  }

  /** Field by field, in order of significance; marks decide where equal values meet different marks. */
  predicate FieldsLess(fs: Fields, gs: Fields) {
    && fs.Field? && gs.Field?
    && (fs.value < gs.value
        || (fs.value == gs.value
            && (fs.mark < gs.mark || (fs.mark == gs.mark && FieldsLess(fs.rest, gs.rest)))))
  }

  /** The two agree on widths for as long as they agree on values and marks. */
  predicate Alike(fs: Fields, gs: Fields) {
    if fs.End? || gs.End? then fs == gs
    else fs.width == gs.width && (fs.value == gs.value && fs.mark == gs.mark ==> Alike(fs.rest, gs.rest))
  }

  lemma {:induction false} LessPrinted(fs: Fields, gs: Fields, tail: string)
    requires fs.Valid() && gs.Valid() && Alike(fs, gs)
    ensures Less(Printed(fs) + tail, Printed(gs) + tail) <==> FieldsLess(fs, gs)
  {
    if fs.End? {
      assert "" + tail == tail;
      NotLess(tail);
    } else {
      var p, q := Padded(fs.width, fs.value), Padded(gs.width, gs.value);
      LessPadded(fs.width, fs.value, gs.value);
      var restF, restG := Printed(fs.rest) + tail, Printed(gs.rest) + tail;
      assert Printed(fs) + tail == (p + [fs.mark]) + restF;
      assert Printed(gs) + tail == (q + [gs.mark]) + restG;
      if fs.value == gs.value && fs.mark == gs.mark {
        LessPrinted(fs.rest, gs.rest, tail);
      }
      hide Less, Padded, Printed, Power10;
      LessConcat(p + [fs.mark], q + [gs.mark], restF, restG);
      LessConcat(p, q, [fs.mark], [gs.mark]);
      LessChars(fs.mark, gs.mark);
      SameHead(p, fs.mark, q, gs.mark);
    }
  }

  lemma SameHead(p: string, c: char, q: string, d: char)
    requires |p| == |q|
    ensures p + [c] == q + [d] <==> p == q && c == d
  {
    assert (p + [c])[..|p|] == p && (q + [d])[..|q|] == q;
    assert (p + [c])[|p|] == c && (q + [d])[|q|] == d;
  }

  lemma {:induction false} NotLess(s: string)
    ensures !Less(s, s)
  {
    if s != "" {
      NotLess(s[1..]);
    }
  }

  // ---- the theorem ----

  predicate EarlierInDay(a: Stamp, b: Stamp) {
    a.hour < b.hour || (a.hour == b.hour && (
    a.minute < b.minute || (a.minute == b.minute && (
    a.second < b.second || (a.second == b.second && a.micro < b.micro)))))
  }

  predicate Earlier(a: Stamp, b: Stamp) {
    a.year < b.year || (a.year == b.year && (
    a.month < b.month || (a.month == b.month && (
    a.day < b.day || (a.day == b.day && EarlierInDay(a, b))))))
  }

  lemma EarlierIsBefore(a: Stamp, b: Stamp)
    requires a.Valid() && b.Valid() && Earlier(a, b)
    ensures Instant(a) < Instant(b)
  {
    if a.year < b.year {
      YearsMonotone(a.year, b.year);
      assert DaysBeforeMonth(a.year, a.month + 1) <= DaysBeforeMonth(a.year, 13);
    } else if a.month < b.month {
      assert DaysBeforeMonth(a.year, a.month + 1) <= DaysBeforeMonth(a.year, b.month);
    }
  }

  lemma CalendarOrder(a: Stamp, b: Stamp)
    requires a.Valid() && b.Valid()
    ensures Earlier(a, b) <==> Instant(a) < Instant(b)
    ensures a == b <==> Instant(a) == Instant(b)
  {
    hide Instant;
    if Earlier(a, b) {
      EarlierIsBefore(a, b);
    } else if a != b {
      EarlierIsBefore(b, a);
    }
  }

  /** '+' sorts before '.', so a missing fraction sorts as a zero one. */
  lemma SecondOrder(s: int, m: int, s': int, m': int)
    requires 0 <= s < 60 && 0 <= m < 1_000_000 && 0 <= s' < 60 && 0 <= m' < 1_000_000
    ensures Alike(SecondFields(s, m), SecondFields(s', m'))
    ensures FieldsLess(SecondFields(s, m), SecondFields(s', m')) <==> s < s' || (s == s' && m < m')
  {
    var f, g := Field(6, m, '+', End), Field(6, m', '+', End);
    assert Alike(f, g);
    assert FieldsLess(f, g) <==> m < m';
  }

  lemma TimeOrder(a: Stamp, b: Stamp)
    requires a.Valid() && b.Valid()
    ensures Alike(TimeFields(a), TimeFields(b))
    ensures FieldsLess(TimeFields(a), TimeFields(b)) <==> EarlierInDay(a, b)
  {
    hide SecondFields;
    SecondOrder(a.second, a.micro, b.second, b.micro);
    var f, g := TimeFields(a), TimeFields(b);
    assert Alike(f.rest, g.rest);
  }

  lemma DateOrder(a: Stamp, b: Stamp)
    requires a.Valid() && b.Valid()
    ensures Alike(DateFields(a), DateFields(b))
    ensures FieldsLess(DateFields(a), DateFields(b)) <==> Earlier(a, b)
  {
    hide TimeFields, EarlierInDay;
    TimeOrder(a, b);
    var f, g := DateFields(a).rest, DateFields(b).rest;
    assert Alike(f.rest, g.rest);
    assert Alike(f, g);
    assert FieldsLess(f.rest, g.rest) <==> a.day < b.day || (a.day == b.day && EarlierInDay(a, b));
  }

  /** The text of an instant precedes the text of another exactly when the instant does. */
  lemma TextOrderIsTimeOrder(a: int, b: int)
    requires Representable(a) && Representable(b)
    ensures Less(Iso(a), Iso(b)) <==> a < b
    ensures AtMost(Iso(a), Iso(b)) <==> a <= b
    ensures Due(Some(Iso(a)), Iso(b)) <==> a <= b
  {
    var x, y := Reading(a + UNIX_EPOCH), Reading(b + UNIX_EPOCH);
    TextOrder(x, y);
    TextOrder(y, x);
    CalendarOrder(x, y);
    CalendarOrder(y, x);
    NotLess(Iso(a));
  }

  lemma TextOrder(a: Stamp, b: Stamp)
    requires a.Valid() && b.Valid()
    ensures Less(IsoFormat(a), IsoFormat(b)) <==> Earlier(a, b)
  {
    DateOrder(a, b);
    LessPrinted(DateFields(a), DateFields(b), "00:00");
  }

  // ---- what the texts say ----

  /** The months' lengths, and the Gregorian leap rule. */
  lemma MonthLengths(y: int, m: int, d: int)
    requires 1 <= y <= 9999
    ensures var leap := y % 400 == 0 || (y % 4 == 0 && y % 100 != 0);
            Stamp(y, m, d, 0, 0, 0, 0).Valid() <==>
              1 <= m <= 12
              && 1 <= d <= if m in {4, 6, 9, 11} then 30 else if m != 2 then 31 else if leap then 29 else 28
  {}

  /** Padding is to the width, in digits, and reading them gives the number back. */
  lemma {:induction false} PaddedReads(w: nat, n: int)
    requires 0 <= n < Power10(w)
    ensures |Padded(w, n)| == w && Keys.Read(Padded(w, n)) == n
    ensures forall c | c in Padded(w, n) :: '0' <= c <= '9'
  {
    if w > 0 {
      PaddedReads(w - 1, n / 10);
      Keys.DigitReads(n % 10);
      var s := Padded(w, n);
      assert s[..|s| - 1] == Padded(w - 1, n / 10);
    }
  }

  lemma PrintedMark(width: nat, value: int, mark: char, rest: Fields)
    requires 0 <= value < Power10(width) && rest.Valid()
    ensures Printed(Field(width, value, mark, rest)) == Padded(width, value) + [mark] + Printed(rest)
  {}

  lemma SecondText(second: int, micro: int)
    requires 0 <= second < 60 && 0 <= micro < 1_000_000
    ensures Power10(2) == 100 && Power10(6) == 1_000_000
    ensures Printed(SecondFields(second, micro))
         == Padded(2, second) + (if micro == 0 then "" else "." + Padded(6, micro)) + "+"
  {
    assert Power10(1) == 10 && Power10(3) == 1_000 && Power10(5) == 100_000;
    hide Padded;
    if micro == 0 {
      PrintedMark(2, second, '+', End);
    } else {
      PrintedMark(6, micro, '+', End);
      PrintedMark(2, second, '.', Field(6, micro, '+', End));
    }
  }

  lemma TimeText(s: Stamp)
    requires s.Valid()
    ensures Power10(2) == 100
    ensures Printed(TimeFields(s))
         == Padded(2, s.hour) + ":" + (Padded(2, s.minute) + ":" + Printed(SecondFields(s.second, s.micro)))
  {
    assert Power10(1) == 10;
    hide Padded, SecondFields;
    PrintedMark(2, s.minute, ':', SecondFields(s.second, s.micro));
    PrintedMark(2, s.hour, ':', Field(2, s.minute, ':', SecondFields(s.second, s.micro)));
  }

  lemma DateText(s: Stamp)
    requires s.Valid()
    ensures Power10(2) == 100 && Power10(4) == 10_000
    ensures Printed(DateFields(s))
         == Padded(4, s.year) + "-" + (Padded(2, s.month) + "-" + (Padded(2, s.day) + "T" + Printed(TimeFields(s))))
  {
    assert Power10(1) == 10 && Power10(3) == 1_000;
    hide Padded, TimeFields;
    var days := Field(2, s.day, 'T', TimeFields(s));
    PrintedMark(2, s.day, 'T', TimeFields(s));
    PrintedMark(2, s.month, '-', days);
    PrintedMark(4, s.year, '-', Field(2, s.month, '-', days));
  }

  predicate InRange(s: Stamp) {
    && 0 <= s.year < 10_000 && 0 <= s.month < 100 && 0 <= s.day < 100 && 0 <= s.hour < 100 && 0 <= s.minute < 100
    && 0 <= s.second < 60 && 0 <= s.micro < 1_000_000
  }

  /** The parts of the text, between their marks; the fraction is left out when it is zero. */
  lemma IsoFormatParts(s: Stamp)
    requires s.Valid()
    ensures Power10(2) == 100 && Power10(4) == 10_000 && Power10(6) == 1_000_000
    ensures var date := Padded(4, s.year) + "-" + Padded(2, s.month) + "-" + Padded(2, s.day);
            var time := Padded(2, s.hour) + ":" + Padded(2, s.minute) + ":" + Padded(2, s.second);
            IsoFormat(s) == date + "T" + time + (if s.micro == 0 then "" else "." + Padded(6, s.micro)) + "+00:00"
  {
    assert IsoFormat(s) == Printed(DateFields(s)) + "00:00" && InRange(s);
    hide *;
    DateText(s);
    TimeText(s);
    SecondText(s.second, s.micro);
    var y, mo, d, h, mi, se := Padded(4, s.year), Padded(2, s.month), Padded(2, s.day), Padded(2, s.hour),
                               Padded(2, s.minute), Padded(2, s.second);
    Regrouped(y, mo, d, h, mi, se, if s.micro == 0 then "" else "." + Padded(6, s.micro));
  }

  lemma Regrouped(y: string, mo: string, d: string, h: string, mi: string, se: string, f: string)
    ensures y + "-" + (mo + "-" + (d + "T" + (h + ":" + (mi + ":" + (se + f + "+"))))) + "00:00"
         == y + "-" + mo + "-" + d + "T" + (h + ":" + mi + ":" + se) + f + "+00:00"
  {
    var time := h + ":" + mi + ":" + se;
    assert h + ":" + (mi + ":" + (se + f + "+")) == time + f + "+";
    var date := y + "-" + mo + "-" + d;
    assert y + "-" + (mo + "-" + (d + "T" + (time + f + "+"))) == date + "T" + time + f + "+";
    assert ("+" + "00:00") == "+00:00";
  }

  lemma EpochInstant()
    ensures var epoch := Stamp(1970, 1, 1, 0, 0, 0, 0); epoch.Valid() && Instant(epoch) == UNIX_EPOCH
    ensures Representable(0)
  {}

  /** A text is the calendar reading of its instant, counted from the start of 1970. */
  lemma IsoIsTheReading(ts: int, s: Stamp)
    requires Representable(ts) && s.Valid() && Stamp(1970, 1, 1, 0, 0, 0, 0).Valid()
    ensures Iso(ts) == IsoFormat(s) <==> Instant(s) - Instant(Stamp(1970, 1, 1, 0, 0, 0, 0)) == ts
  {
    hide IsoFormat, DaysBeforeYear;
    EpochInstant();
    var r := Reading(ts + UNIX_EPOCH);
    hide Instant;
    CalendarOrder(r, s);
    CalendarOrder(s, r);
    TextOrder(r, s);
    TextOrder(s, r);
    NotLess(IsoFormat(r));
  }

  lemma EpochParts()
    ensures Power10(2) == 100 && Power10(4) == 10_000
    ensures Padded(4, 1970) == "1970" && Padded(2, 1) == "01" && Padded(2, 0) == "00"
  {
    assert Power10(1) == 10 && Power10(2) == 100 && Power10(3) == 1_000;
    assert Padded(1, 1) == "1" && Padded(1, 0) == "0";
    assert Padded(1, 1) == "1" && Padded(2, 19) == "19" && Padded(3, 197) == "197";
  }

  /** The epoch's own text. */
  lemma EpochText()
    ensures Representable(0) && Iso(0) == "1970-01-01T00:00:00+00:00"
  {
    hide *;
    var epoch := Stamp(1970, 1, 1, 0, 0, 0, 0);
    EpochInstant();
    IsoIsTheReading(0, epoch);
    IsoFormatParts(epoch);
    EpochParts();
  }
}
