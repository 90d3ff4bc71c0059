/** The relative-time text shown next to commits: "3 days ago".

    The elapsed time in milliseconds is floored to whole seconds, minutes,
    hours and days, and days further to weeks (7), months (30) and years
    (365). The largest unit with a positive count is used; below a minute
    the count of seconds is shown whatever it is, including zero and
    negative counts for timestamps in the future. The unit takes a plural
    `s` exactly when the count exceeds one.
 */
module DateUtils {
  import opened Wrappers
  import opened Strings

  datatype TimeUnit = Year | Month | Week | Day | Hour | Minute | Second

  datatype Distance = Distance(count: int, unit: TimeUnit)

  const SecondMs: int := 1000
  const MinuteMs: int := 60 * SecondMs
  const HourMs: int := 60 * MinuteMs
  const DayMs: int := 24 * HourMs

  /** The length of a unit in milliseconds. */
  function UnitMs(u: TimeUnit): (r: int)
    ensures 0 < r
  {
    match u
    case Year => 365 * DayMs
    case Month => 30 * DayMs
    case Week => 7 * DayMs
    case Day => DayMs
    case Hour => HourMs
    case Minute => MinuteMs
    case Second => SecondMs
  }

  function UnitName(u: TimeUnit): string {
    match u
    case Year => "year"
    case Month => "month"
    case Week => "week"
    case Day => "day"
    case Hour => "hour"
    case Minute => "minute"
    case Second => "second"
  }

  lemma {:induction false} MulAtLeast(m: int, k: nat)
    requires 0 <= m
    ensures m * k >= (if k == 0 then 0 else m)
    decreases k
  {
    if 1 < k {
      MulAtLeast(m, k - 1);
      assert m * k == m * (k - 1) + m;
    }
  }

  /** Sign facts about `m * d` for a positive `m`. */
  lemma MulBound(m: int, d: int)
    requires 0 < m
    ensures d >= 1 ==> m * d >= m
    ensures d <= -1 ==> m * d <= -m
    ensures d == 0 ==> m * d == 0
    ensures d >= 0 ==> m * d >= 0
  {
    if d >= 0 {
      MulAtLeast(m, d);
    } else {
      MulAtLeast(m, -d);
      assert m * d == -(m * (-d));
    }
  }

  /** Euclidean division by a positive divisor is the unique quotient. */
  lemma DivUnique(x: int, m: int, q: int, r: int)
    requires 0 < m && 0 <= r < m && x == m * q + r
    ensures x / m == q
  {
    var q' := x / m;
    var r' := x % m;
    assert x == m * q' + r';
    assert m * q - m * q' == m * (q - q');
    MulBound(m, q - q');
  }

  /** Flooring twice is flooring once by the product. */
  lemma DivDiv(x: int, a: int, b: int)
    requires 0 < a && 0 < b
    ensures (x / a) / b == x / (a * b)
  {
    var q1, r1 := x / a, x % a;
    var q2, r2 := q1 / b, q1 % b;
    assert x == a * q1 + r1;
    assert q1 == b * q2 + r2;
    assert a * (b * q2 + r2) == (a * b) * q2 + a * r2;
    assert a * (b - 1) - a * r2 == a * (b - 1 - r2);
    MulBound(a, b - 1 - r2);
    MulBound(a, r2);
    assert a * (b - 1) == a * b - a;
    DivUnique(x, a * b, q2, a * r2 + r1);
  }

  lemma DivPositive(x: int, m: int)
    requires 0 < m
    ensures x / m > 0 <==> x >= m
  {
    assert x == m * (x / m) + x % m;
    MulBound(m, x / m);
  }

  /** The counts the source floors in sequence. */
  function Seconds(diff: int): int { diff / 1000 }
  function Minutes(diff: int): int { Seconds(diff) / 60 }
  function Hours(diff: int): int { Minutes(diff) / 60 }
  function Days(diff: int): int { Hours(diff) / 24 }

  /** The unit and count the elapsed time `diff` is shown in. */
  function Bucket(diff: int): (d: Distance)
    ensures d.unit == Year <==> diff >= UnitMs(Year)
    ensures d.unit == Month <==> UnitMs(Month) <= diff < UnitMs(Year)
    ensures d.unit == Week <==> UnitMs(Week) <= diff < UnitMs(Month)
    ensures d.unit == Day <==> UnitMs(Day) <= diff < UnitMs(Week)
    ensures d.unit == Hour <==> UnitMs(Hour) <= diff < UnitMs(Day)
    ensures d.unit == Minute <==> UnitMs(Minute) <= diff < UnitMs(Hour)
    ensures d.unit == Second <==> diff < UnitMs(Minute)
    ensures d.count == diff / UnitMs(d.unit)
    ensures d.unit != Second ==> 1 <= d.count
  {
    BucketCounts(diff);
    var days := Days(diff);
    if days / 365 > 0 then Distance(days / 365, Year)
    else if days / 30 > 0 then Distance(days / 30, Month)
    else if days / 7 > 0 then Distance(days / 7, Week)
    else if days > 0 then Distance(days, Day)
    else if Hours(diff) > 0 then Distance(Hours(diff), Hour)
    else if Minutes(diff) > 0 then Distance(Minutes(diff), Minute)
    else Distance(Seconds(diff), Second)
  }

  lemma BucketCounts(diff: int)
    ensures Minutes(diff) == diff / MinuteMs
    ensures Hours(diff) == diff / HourMs
    ensures Days(diff) == diff / DayMs
    ensures Days(diff) / 365 == diff / UnitMs(Year)
    ensures Days(diff) / 30 == diff / UnitMs(Month)
    ensures Days(diff) / 7 == diff / UnitMs(Week)
    ensures Days(diff) / 365 > 0 <==> diff >= UnitMs(Year)
    ensures Days(diff) / 30 > 0 <==> diff >= UnitMs(Month)
    ensures Days(diff) / 7 > 0 <==> diff >= UnitMs(Week)
    ensures Days(diff) > 0 <==> diff >= DayMs
    ensures Hours(diff) > 0 <==> diff >= HourMs
    ensures Minutes(diff) > 0 <==> diff >= MinuteMs
  {
    DivDiv(diff, 1000, 60);
    DivDiv(diff, MinuteMs, 60);
    DivDiv(diff, HourMs, 24);
    DivDiv(diff, DayMs, 365);
    DivDiv(diff, DayMs, 30);
    DivDiv(diff, DayMs, 7);
    DivPositive(diff, UnitMs(Year));
    DivPositive(diff, UnitMs(Month));
    DivPositive(diff, UnitMs(Week));
    DivPositive(diff, DayMs);
    DivPositive(diff, HourMs);
    DivPositive(diff, MinuteMs);
  }

  /** `${count} unit` with `s` appended when the count exceeds one. */
  function Render(d: Distance): string {
    IntToString(d.count) + " " + UnitName(d.unit) + (if d.count > 1 then "s" else "")
  }

  /** `formatDistanceToNow`, with the clock reading `now` passed in: the
      text ends in " ago" exactly when the suffix was asked for; the text
      before it is the count `Bucket` chooses in decimal, a space and the
      unit's name, plural exactly when the count exceeds one, and it reads
      back as that count and unit. */
  function FormatDistanceToNow(timestamp: int, now: int, addSuffix: bool): (r: string)
    ensures EndsWith(r, " ago") <==> addSuffix
    ensures var d, bare := Bucket(now - timestamp), if addSuffix then r[..|r| - 4] else r;
      bare == IntToString(d.count) + " " + UnitName(d.unit) + (if d.count > 1 then "s" else "")
    ensures ParseDistance(if addSuffix then r[..|r| - 4] else r) == Some(Bucket(now - timestamp))
    ensures EndsWith(if addSuffix then r[..|r| - 4] else r, "s") <==> Bucket(now - timestamp).count > 1
  {
    var d := Bucket(now - timestamp);
    var result := Render(d);
    ParseRender(d);
    RenderPlural(d);
    RenderNoSuffix(d);
    if addSuffix then
      var r := result + " ago";
      assert r[..|r| - 4] == result;
      assert r[|r| - 4..] == " ago";
      r
    else result
  }

  /** The suffixed text is the bare text followed by " ago". */
  lemma SuffixAppendsAgo(timestamp: int, now: int)
    ensures FormatDistanceToNow(timestamp, now, true) == FormatDistanceToNow(timestamp, now, false) + " ago"
  {
  }

  predicate EndsWith(s: string, suffix: string) {
    |suffix| <= |s| && s[|s| - |suffix|..] == suffix
  }

  /** The plural `s` appears exactly when the count exceeds one. */
  lemma RenderPlural(d: Distance)
    ensures EndsWith(Render(d), "s") <==> d.count > 1
  {
    var r := Render(d);
    assert r[|r| - 1] == if d.count > 1 then 's' else UnitName(d.unit)[|UnitName(d.unit)| - 1];
  }

  /** A rendered distance never ends in " ago" by itself: every unit name
      and the plural `s` end in a letter other than `o`. */
  lemma RenderNoSuffix(d: Distance)
    ensures !EndsWith(Render(d), " ago")
  {
    var x := Render(d);
    assert x[|x| - 1] != 'o' by {
      var u := UnitName(d.unit);
      assert x[|x| - 1] == if d.count > 1 then 's' else u[|u| - 1];
    }
    assert |x| < 4 || x[|x| - 4..][3] == x[|x| - 1];
  }

  /** Reads a unit name, with or without the plural `s`. */
  function UnitFromName(s: string): Option<TimeUnit> {
    if s == "year" || s == "years" then Some(Year)
    else if s == "month" || s == "months" then Some(Month)
    else if s == "week" || s == "weeks" then Some(Week)
    else if s == "day" || s == "days" then Some(Day)
    else if s == "hour" || s == "hours" then Some(Hour)
    else if s == "minute" || s == "minutes" then Some(Minute)
    else if s == "second" || s == "seconds" then Some(Second)
    else None
  }

  lemma UnitNameRoundTrip(u: TimeUnit, plural: bool)
    ensures UnitFromName(UnitName(u) + (if plural then "s" else "")) == Some(u)
  {
    var n := UnitName(u) + (if plural then "s" else "");
    match u
    case Year => assert n == if plural then "years" else "year";
    case Month => assert n == if plural then "months" else "month";
    case Week => assert n == if plural then "weeks" else "week";
    case Day => assert n == if plural then "days" else "day";
    case Hour => assert n == if plural then "hours" else "hour";
    case Minute => assert n == if plural then "minutes" else "minute";
    case Second => assert n == if plural then "seconds" else "second";
  }

  /** The position of the first space. */
  function FirstSpace(s: string): (r: Option<nat>)
    ensures r.Some? ==> r.value < |s| && s[r.value] == ' '
    ensures r.Some? ==> forall j :: 0 <= j < r.value ==> s[j] != ' '
    ensures r.None? ==> forall j :: 0 <= j < |s| ==> s[j] != ' '
  {
    if |s| == 0 then None
    else if s[0] == ' ' then Some(0)
    else match FirstSpace(s[1..])
      case Some(i) => Some(i + 1)
      case None => None
  }

  /** Reads back a rendered distance without the suffix. */
  function ParseDistance(s: string): Option<Distance> {
    match FirstSpace(s)
    case Some(k) =>
      if IsIntLiteral(s[..k]) then
        match UnitFromName(s[k + 1..])
        case Some(u) => Some(Distance(ParseInt(s[..k]), u))
        case None => None
      else None
    case None => None
  }

  /** The rendered text determines the distance it was rendered from. */
  lemma ParseRender(d: Distance)
    ensures ParseDistance(Render(d)) == Some(d)
  {
    var digits := IntToString(d.count);
    var rest := UnitName(d.unit) + (if d.count > 1 then "s" else "");
    var s := Render(d);
    assert s == digits + " " + rest;
    assert forall j :: 0 <= j < |digits| ==> digits[j] != ' ' by {
      if d.count < 0 {
        assert forall j :: 1 <= j < |digits| ==> digits[1..][j - 1] == digits[j];
      }
    }
    assert s[|digits|] == ' ';
    assert FirstSpace(s) == Some(|digits|);
    assert s[..|digits|] == digits;
    assert s[|digits| + 1..] == rest;
    UnitNameRoundTrip(d.unit, d.count > 1);
    IntToStringRoundTrip(d.count);
    assert IsIntLiteral(s[..|digits|]);
  }
}
