/** The text every instant is stored as, and what comparing such texts means.

    The layout is `2006-01-02T15:04:05Z07:00`, that is YYYY-MM-DDTHH:MM:SS and then `Z` or `+HH:MM`;
    fractions of a second are dropped. The expiry queries compare stored texts with `<`, byte by byte. */
module Timestamps {
  import opened Wrappers
  import opened Calendar

  /** A clock reading: nanoseconds since 0000-01-01T00:00:00Z, in a zone `offset` minutes east of UTC. */
  datatype Time = Time(nanos: int, offset: int)

  datatype Fields = Fields(date: Date, hour: nat, minute: nat, second: nat, offset: int)

  predicate IsOffset(offset: int) { -1440 < offset < 1440 }

  predicate IsFields(f: Fields) {
    && IsDate(f.date) && f.date.year <= 9999
    && f.hour < 24 && f.minute < 60 && f.second < 60
    && IsOffset(f.offset)
  }

  /** Whole seconds; the clock readings before year 0 do not matter here. */
  function Seconds(t: Time): int { t.nanos / SECOND }

  /** What the clock on the wall of t's zone shows, in seconds. */
  function Local(t: Time): int { Seconds(t) + 60 * t.offset }

  /** The readings whose local year has four digits; Calendar.KnownDays counts their days. */
  predicate FourDigitYear(t: Time) {
    IsOffset(t.offset) && 0 <= Local(t) < 86_400 * 3_652_425
  }

  function LocalSeconds(f: Fields): int {
    86400 * DayNumber(f.date) + 3600 * f.hour + 60 * f.minute + f.second
  }

  /** The instant a set of fields denotes, in seconds. */
  function Instant(f: Fields): int { LocalSeconds(f) - 60 * f.offset }

  function FieldsOf(t: Time): Fields
    requires FourDigitYear(t)
  {
    var s := Local(t);
    Fields(DateOf(s / 86400), s % 86400 / 3600, s % 3600 / 60, s % 60, t.offset)
  }

  lemma FieldsOfTime(t: Time)
    requires FourDigitYear(t)
    ensures IsFields(FieldsOf(t)) && LocalSeconds(FieldsOf(t)) == Local(t) && Instant(FieldsOf(t)) == Seconds(t)
  {
    var s := Local(t);
    DateOfDay(s / 86400);
    var y: nat :| y == 10_000;
    KnownDays(y);
    DateBefore(s / 86400, y);
    ClockParts(s % 86400);
    SecondsOfDay(s);
  }

  lemma ByHour(s: int, q: int, r: int)
    requires s == 3600 * q + r && 0 <= r < 3600
    ensures s / 3600 == q && s % 3600 == r
  {
  }

  lemma ByMinute(s: int, q: int, r: int)
    requires s == 60 * q + r && 0 <= r < 60
    ensures s / 60 == q && s % 60 == r
  {
  }

  lemma ClockParts(k: nat)
    requires k < 86400
    ensures k / 3600 < 24 && k == 3600 * (k / 3600) + 60 * (k % 3600 / 60) + k % 3600 % 60
  {
  }

  lemma SecondsOfDay(s: nat)
    ensures s == 86400 * (s / 86400) + s % 86400
    ensures s % 3600 == s % 86400 % 3600 && s % 60 == s % 3600 % 60
  {
    var k := s % 86400;
    ByHour(s, 24 * (s / 86400) + k / 3600, k % 3600);
    ByMinute(s, 60 * (s / 3600) + s % 3600 / 60, s % 3600 % 60);
  }

  // ---- text

  function Digit(n: nat): char
    requires n < 10
  {
    '0' + n as char
  }

  /** n in `width` digits. */
  function Pad(n: nat, width: nat): (s: string)
    ensures |s| == width
  {
    if width == 0 then "" else Pad(n / 10, width - 1) + [Digit(n % 10)]
  }

  function Power(width: nat): nat {
    if width == 0 then 1 else 10 * Power(width - 1)
  }

  function Zone(offset: int): string {
    if offset == 0 then "Z"
    else if offset < 0 then "-" + Pad(-offset / 60, 2) + ":" + Pad(-offset % 60, 2)
    else "+" + Pad(offset / 60, 2) + ":" + Pad(offset % 60, 2)
  }

  function DateText(d: Date): (s: string)
    ensures |s| == 10
  {
    Pad(d.year, 4) + "-" + Pad(d.month, 2) + "-" + Pad(d.day, 2)
  }

  function ClockText(f: Fields): (s: string)
    ensures |s| == 8
  {
    Pad(f.hour, 2) + ":" + Pad(f.minute, 2) + ":" + Pad(f.second, 2)
  }

  function Text(f: Fields): string {
    DateText(f.date) + "T" + ClockText(f) + Zone(f.offset)
  }

  /** t.Format(layout). */
  function Format(t: Time): string
    requires FourDigitYear(t)
  {
    Text(FieldsOf(t))
  }

  /** The layout's own reference time, in UTC, seven hours east of it, and seven hours west. */
  lemma ReferenceTime(t: Time)
    requires Seconds(t) == 86_400 * 719_528 + 1_136_189_045
    ensures t.offset == 0 ==> FourDigitYear(t) && Format(t) == "2006-01-02T08:04:05Z"
    ensures t.offset == 420 ==> FourDigitYear(t) && Format(t) == "2006-01-02T15:04:05+07:00"
    ensures t.offset == -420 ==> FourDigitYear(t) && Format(t) == "2006-01-02T01:04:05-07:00"
  {
    if t.offset in {0, 420, -420} {
      var y: nat :| y == 2006;
      ReferenceFields(t, y);
      var f := FieldsOf(t);
      ReferenceDate(f.date);
      ReferenceClock(f);
      SignedHour(f.offset);
      if t.offset == 0 {
        InUtc(f);
      } else if t.offset == 420 {
        East(f);
      } else {
        West(f);
      }
    }
  }

  lemma ReferenceFields(t: Time, y: nat)
    requires Seconds(t) == 86_400 * 719_528 + 1_136_189_045 && t.offset in {0, 420, -420} && y == 2006
    ensures FourDigitYear(t) && FieldsOf(t).date == Date(y, 1, 2) && FieldsOf(t).offset == t.offset
    ensures FieldsOf(t).minute == 4 && FieldsOf(t).second == 5
    ensures FieldsOf(t).hour == if t.offset == 0 then 8 else if t.offset == 420 then 15 else 1
  {
    KnownDays(y);
    FieldsAt(t, Date(y, 1, 2), if t.offset == 0 then 8 else if t.offset == 420 then 15 else 1, 4, 5);
  }

  /** The fields that count up to a reading's local time are its fields. */
  lemma FieldsAt(t: Time, d: Date, hour: nat, minute: nat, second: nat)
    requires FourDigitYear(t) && IsDate(d) && hour < 24 && minute < 60 && second < 60
    requires Local(t) == 86400 * DayNumber(d) + 3600 * hour + 60 * minute + second
    ensures FieldsOf(t) == Fields(d, hour, minute, second, t.offset)
  {
    FieldsOfTime(t);
    var f := FieldsOf(t);
    DateOrder(f.date, d);
  }

  lemma InUtc(f: Fields)
    requires DateText(f.date) == "2006-01-02" && ClockText(f) == "08:04:05" && Zone(f.offset) == "Z"
    ensures Text(f) == "2006-01-02T08:04:05Z"
  {
  }

  lemma East(f: Fields)
    requires DateText(f.date) == "2006-01-02" && ClockText(f) == "15:04:05" && Zone(f.offset) == "+07:00"
    ensures Text(f) == "2006-01-02T15:04:05+07:00"
  {
  }

  lemma West(f: Fields)
    requires DateText(f.date) == "2006-01-02" && ClockText(f) == "01:04:05" && Zone(f.offset) == "-07:00"
    ensures Text(f) == "2006-01-02T01:04:05-07:00"
  {
  }

  lemma ReferenceDate(d: Date)
    requires d.year == 2006 && d.month == 1 && d.day == 2
    ensures DateText(d) == "2006-01-02"
  {
    KnownDigits();
  }

  lemma ReferenceClock(f: Fields)
    requires f.hour in {1, 8, 15} && f.minute == 4 && f.second == 5
    ensures ClockText(f) == if f.hour == 1 then "01:04:05" else if f.hour == 8 then "08:04:05" else "15:04:05"
  {
    KnownDigits();
  }

  lemma SignedHour(offset: int)
    ensures offset == 420 ==> Zone(offset) == "+07:00"
    ensures offset == -420 ==> Zone(offset) == "-07:00"
  {
    SevenHours(420);
    assert "+" + "07" + ":" + "00" == "+07:00" && "-" + "07" + ":" + "00" == "-07:00";
  }

  lemma SevenHours(n: nat)
    requires n == 420
    ensures Pad(n / 60, 2) == "07" && Pad(n % 60, 2) == "00"
  {
    KnownDigits();
  }

  lemma KnownDigits()
    ensures Pad(2006, 4) == "2006" && Pad(1, 2) == "01" && Pad(2, 2) == "02" && Pad(0, 2) == "00"
    ensures Pad(8, 2) == "08" && Pad(4, 2) == "04" && Pad(5, 2) == "05" && Pad(15, 2) == "15" && Pad(7, 2) == "07"
  {
    assert Pad(20, 2) == "20";
    assert Pad(200, 3) == "200";
  }

  /** The database's order on text: byte by byte, and a proper prefix comes first. */
  predicate TextLess(a: string, b: string) {
    if a == "" then b != ""
    else b != "" && (a[0] < b[0] || (a[0] == b[0] && TextLess(a[1..], b[1..])))
  }

  lemma {:induction false} NotLessThanItself(a: string)
    ensures !TextLess(a, a)
  {
    if a != "" {
      NotLessThanItself(a[1..]);
    }
  }

  /** Texts that start with parts of one length are ordered by those parts first. */
  lemma {:induction false} ByParts(a: string, b: string, x: string, y: string)
    requires |a| == |b|
    ensures TextLess(a + x, b + y) <==> TextLess(a, b) || (a == b && TextLess(x, y))
    ensures a + x == b + y <==> a == b && x == y
  {
    if a == "" {
      assert a + x == x && b + y == y;
    } else {
      assert (a + x)[1..] == a[1..] + x && (b + y)[1..] == b[1..] + y;
      assert a == [a[0]] + a[1..] && b == [b[0]] + b[1..];
      ByParts(a[1..], b[1..], x, y);
      assert (a + x)[0] == a[0] && (b + y)[0] == b[0];
    }
  }

  lemma {:induction false} PadOrder(m: nat, n: nat, width: nat)
    requires m < Power(width) && n < Power(width)
    ensures TextLess(Pad(m, width), Pad(n, width)) <==> m < n
    ensures Pad(m, width) == Pad(n, width) <==> m == n
  {
    if width > 0 {
      PadOrder(m / 10, n / 10, width - 1);
      ByParts(Pad(m / 10, width - 1), Pad(n / 10, width - 1), [Digit(m % 10)], [Digit(n % 10)]);
    }
  }

  /** Two numbers and a separator. */
  lemma PairOrder(a: string, b: string, sep: string, m: nat, n: nat, width: nat)
    requires |a| == |b| && m < Power(width) && n < Power(width)
    ensures TextLess(a + sep + Pad(m, width), b + sep + Pad(n, width)) <==> TextLess(a, b) || (a == b && m < n)
    ensures a + sep + Pad(m, width) == b + sep + Pad(n, width) <==> a == b && m == n
  {
    PadOrder(m, n, width);
    ByParts(a + sep, b + sep, Pad(m, width), Pad(n, width));
    NotLessThanItself(sep);
    ByParts(a, b, sep, sep);
  }

  lemma DateTextOrder(a: Date, b: Date)
    requires IsDate(a) && IsDate(b) && a.year <= 9999 && b.year <= 9999
    ensures TextLess(DateText(a), DateText(b)) <==> DayNumber(a) < DayNumber(b)
    ensures DateText(a) == DateText(b) <==> DayNumber(a) == DayNumber(b)
  {
    assert Power(2) == 100 && Power(4) == 100 * Power(2);
    PadOrder(a.year, b.year, 4);
    PairOrder(Pad(a.year, 4), Pad(b.year, 4), "-", a.month, b.month, 2);
    PairOrder(Pad(a.year, 4) + "-" + Pad(a.month, 2), Pad(b.year, 4) + "-" + Pad(b.month, 2), "-", a.day, b.day, 2);
    DateOrder(a, b);
  }

  function OfDay(f: Fields): nat { 3600 * f.hour + 60 * f.minute + f.second }

  lemma ClockTextOrder(f: Fields, g: Fields)
    requires IsFields(f) && IsFields(g)
    ensures TextLess(ClockText(f), ClockText(g)) <==> OfDay(f) < OfDay(g)
    ensures ClockText(f) == ClockText(g) <==> OfDay(f) == OfDay(g)
  {
    assert Power(2) == 100;
    PadOrder(f.hour, g.hour, 2);
    PairOrder(Pad(f.hour, 2), Pad(g.hour, 2), ":", f.minute, g.minute, 2);
    var a, b := Pad(f.hour, 2) + ":" + Pad(f.minute, 2), Pad(g.hour, 2) + ":" + Pad(g.minute, 2);
    PairOrder(a, b, ":", f.second, g.second, 2);
  }

  /** Texts are ordered by local time, and by the zone's text between equal local times. */
  lemma TextOrder(f: Fields, g: Fields)
    requires IsFields(f) && IsFields(g)
    ensures TextLess(Text(f), Text(g)) <==>
      LocalSeconds(f) < LocalSeconds(g)
      || (LocalSeconds(f) == LocalSeconds(g) && TextLess(Zone(f.offset), Zone(g.offset)))
  {
    var a, b := DateText(f.date) + "T", DateText(g.date) + "T";
    DateTextOrder(f.date, g.date);
    NotLessThanItself("T");
    ByParts(DateText(f.date), DateText(g.date), "T", "T");
    ClockTextOrder(f, g);
    ByParts(a, b, ClockText(f), ClockText(g));
    ByParts(a + ClockText(f), b + ClockText(g), Zone(f.offset), Zone(g.offset));
  }

  /** Main result 1. For readings of one zone with four-digit years, text order is the order of the
      instants in whole seconds. */
  lemma TextOrderIsTimeOrder(s: Time, t: Time)
    requires FourDigitYear(s) && FourDigitYear(t) && s.offset == t.offset
    ensures TextLess(Format(s), Format(t)) <==> Seconds(s) < Seconds(t)
    ensures Format(s) == Format(t) <==> Seconds(s) == Seconds(t)
  {
    FieldsOfTime(s);
    FieldsOfTime(t);
    TextOrder(FieldsOf(s), FieldsOf(t));
    TextOrder(FieldsOf(t), FieldsOf(s));
    NotLessThanItself(Zone(s.offset));
    NotLessThanItself(Format(s));
  }

  /** Main result 2, the exact condition. Texts written in zones p and q compare as the instants do, for
      all readings, if and only if p and q are the same offset. */
  ghost predicate Comparable(p: int, q: int) {
    forall s: Time, t: Time :: s.offset == p && t.offset == q && FourDigitYear(s) && FourDigitYear(t) ==>
      (TextLess(Format(s), Format(t)) <==> Seconds(s) < Seconds(t))
  }

  lemma ComparableExactly(p: int, q: int)
    requires IsOffset(p) && IsOffset(q)
    ensures Comparable(p, q) <==> p == q
  {
    if p == q {
      forall s: Time, t: Time | s.offset == p && t.offset == q && FourDigitYear(s) && FourDigitYear(t)
        ensures TextLess(Format(s), Format(t)) <==> Seconds(s) < Seconds(t)
      {
        TextOrderIsTimeOrder(s, t);
      }
    } else {
      var s, t := Misread(p, q);
      assert !Comparable(p, q);
    }
  }

  /** For two different offsets there are readings a second apart on the wall whose texts compare the
      wrong way: a claim or window is then seen as expired too early, or missed. */
  lemma Misread(p: int, q: int) returns (s: Time, t: Time)
    requires IsOffset(p) && IsOffset(q) && p != q
    ensures s.offset == p && t.offset == q && FourDigitYear(s) && FourDigitYear(t)
    ensures TextLess(Format(s), Format(t)) <==> !(Seconds(s) < Seconds(t))
  {
    var wall := 86400 * 700000;
    var later := if p > q then -1 else 1;
    s := Time((wall - 60 * p) * SECOND, p);
    t := Time((wall + later - 60 * q) * SECOND, q);
    FieldsOfTime(s);
    FieldsOfTime(t);
    TextOrder(FieldsOf(s), FieldsOf(t));
  }

  // ---- the expiry queries

  /** `WHERE column IS NOT NULL AND column < now`. */
  predicate Selected(column: Option<Time>, now: Time)
    requires FourDigitYear(now) && (column.Some? ==> FourDigitYear(column.value))
  {
    column.Some? && TextLess(Format(column.value), Format(now))
  }

  /** Main result 3. With one common offset, the queries select exactly the rows whose deadline, cut to
      the second, is before now, cut to the second; so a deadline that has passed by a full second is
      always selected and one that has not passed never is. */
  lemma ExpiryQuery(column: Option<Time>, now: Time)
    requires FourDigitYear(now)
    requires column.Some? ==> FourDigitYear(column.value) && column.value.offset == now.offset
    ensures Selected(column, now) <==> column.Some? && Seconds(column.value) < Seconds(now)
    ensures column.Some? && column.value.nanos + SECOND <= now.nanos ==> Selected(column, now)
    ensures column.Some? && now.nanos <= column.value.nanos ==> !Selected(column, now)
  {
    if column.Some? {
      TextOrderIsTimeOrder(column.value, now);
    }
  }

  // ---- reading a stored text back

  function DigitValue(c: char): Option<nat> {
    if '0' <= c <= '9' then Some(c as int - '0' as int) else None
  }

  function Number(s: string): Option<nat> {
    if s == "" then Some(0)
    else
      match (Number(s[..|s| - 1]), DigitValue(s[|s| - 1]))
      case (Some(n), Some(d)) => Some(10 * n + d)
      case _ => None
  }

  function Signed(sign: char, n: int): int { if sign == '-' then -n else n }

  /** `Z`, or a sign and HH:MM. */
  function ReadZone(z: string): Option<int> {
    if z == "Z" then Some(0)
    else if |z| != 6 || z[0] !in {'+', '-'} || z[3] != ':' then None
    else
      match (Number(z[1..3]), Number(z[4..]))
      case (Some(h), Some(m)) =>
        if h > 23 || m > 59 then None else Some(Signed(z[0], 60 * h + m))
      case _ => None
  }

  /** The strict form of the layout: every field has its full width. */
  function ReadFields(s: string): Option<Fields> {
    if |s| < 20 || s[4] != '-' || s[7] != '-' || s[10] != 'T' || s[13] != ':' || s[16] != ':' then None
    else
      match (Number(s[..4]), Number(s[5..7]), Number(s[8..10]),
             Number(s[11..13]), Number(s[14..16]), Number(s[17..19]), ReadZone(s[19..]))
      case (Some(y), Some(mo), Some(d), Some(h), Some(mi), Some(sec), Some(z)) =>
        var f := Fields(Date(y, mo, d), h, mi, sec, z);
        if IsFields(f) then Some(f) else None
      case _ => None
  }

  /** parseTime: the zero time, year 1, stands for every text that cannot be read. */
  function ParseTime(s: string): Time {
    match ReadFields(s)
    case Some(f) => Time(Instant(f) * SECOND, f.offset)
    case None => Time(366 * 86400 * SECOND, 0)
  }

  lemma {:induction false} ReadPad(n: nat, width: nat)
    requires n < Power(width)
    ensures Number(Pad(n, width)) == Some(n)
  {
    if width > 0 {
      ReadPad(n / 10, width - 1);
      assert Pad(n, width)[..width - 1] == Pad(n / 10, width - 1);
    }
  }

  lemma ReadZoneText(offset: int)
    requires IsOffset(offset)
    ensures ReadZone(Zone(offset)) == Some(offset)
  {
    if offset < 0 {
      ReadOffset("-", -offset);
    } else if offset > 0 {
      ReadOffset("+", offset);
    }
  }

  lemma ReadOffset(sign: string, n: nat)
    requires n < 1440 && |sign| == 1 && sign[0] in {'+', '-'}
    ensures ReadZone(sign + Pad(n / 60, 2) + ":" + Pad(n % 60, 2)) == Some(Signed(sign[0], n))
  {
    var z := sign + Pad(n / 60, 2) + ":" + Pad(n % 60, 2);
    assert Power(2) == 100;
    ReadPad(n / 60, 2);
    ReadPad(n % 60, 2);
    assert z[0] == sign[0] && z[1..3] == Pad(n / 60, 2) && z[3] == ':' && z[4..] == Pad(n % 60, 2);
  }

  lemma TextParts(f: Fields)
    ensures var s := Text(f);
      && |s| >= 20 && s[4] == s[7] == '-' && s[10] == 'T' && s[13] == s[16] == ':' && s[19..] == Zone(f.offset)
      && s[..4] == Pad(f.date.year, 4) && s[5..7] == Pad(f.date.month, 2) && s[8..10] == Pad(f.date.day, 2)
      && s[11..13] == Pad(f.hour, 2) && s[14..16] == Pad(f.minute, 2) && s[17..19] == Pad(f.second, 2)
  {
    var s, d, c := Text(f), DateText(f.date), ClockText(f);
    assert s[..10] == d && s[11..19] == c;
    assert s[..4] == d[..4] && s[5..7] == d[5..7] && s[8..10] == d[8..10];
    assert s[11..13] == c[..2] && s[14..16] == c[3..5] && s[17..19] == c[6..8];
    assert |Zone(f.offset)| >= 1;
  }

  lemma ReadText(f: Fields)
    requires IsFields(f)
    ensures ReadFields(Text(f)) == Some(f)
  {
    TextParts(f);
    assert Power(2) == 100 && Power(4) == 100 * Power(2);
    ReadPad(f.date.year, 4);
    ReadPad(f.date.month, 2);
    ReadPad(f.date.day, 2);
    ReadPad(f.hour, 2);
    ReadPad(f.minute, 2);
    ReadPad(f.second, 2);
    ReadZoneText(f.offset);
  }

  /** A reading cut to the second. */
  function Cut(t: Time): Time { Time(Seconds(t) * SECOND, t.offset) }

  lemma CutReadsTheSame(t: Time)
    ensures Seconds(Cut(t)) == Seconds(t) && Local(Cut(t)) == Local(t)
  {
  }

  /** Main result 4, the round trip. Reading a stored text back gives the reading cut to the second, and
      storing that again gives the same text. */
  lemma StoredTimeRoundTrip(t: Time)
    requires FourDigitYear(t)
    ensures ParseTime(Format(t)) == Cut(t)
    ensures FourDigitYear(Cut(t)) && Format(Cut(t)) == Format(t)
  {
    FieldsOfTime(t);
    ReadText(FieldsOf(t));
    CutReadsTheSame(t);
  }
}
