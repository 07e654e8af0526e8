/** The relative timestamps the post cards and the notifications page show (`formatDate`,
 *  identical in both): whole seconds since the moment, bucketed into "Just now", minutes,
 *  hours and days, and beyond a week a calendar date whose locale formatting is opaque.
 *  Times are integer milliseconds, as JavaScript Date arithmetic yields them. */
module RelativeTime {
  import opened Common

  const SecondsPerMinute := 60
  const SecondsPerHour := 3600
  const SecondsPerDay := 86400
  const SecondsPerWeek := 604800

  /** What `formatDate` shows: the bucket and the number in it. */
  datatype Stamp = JustNow | MinutesAgo(minutes: nat) | HoursAgo(hours: nat) | DaysAgo(days: nat) | CalendarDate(atMs: int)

  /** `Math.floor((now - date) / 1000)`; Dafny's division by a positive divisor rounds
   *  down, as Math.floor does, also for a negative difference. */
  function ElapsedSeconds(nowMs: int, thenMs: int): (d: int)
    ensures d * 1000 <= nowMs - thenMs < d * 1000 + 1000
  {
    (nowMs - thenMs) / 1000
  }

  /** The bucket for a moment `thenMs` seen at `nowMs`. */
  function FormatDate(nowMs: int, thenMs: int): (r: Stamp)
    ensures var d := ElapsedSeconds(nowMs, thenMs);
            && (r.JustNow? <==> d < SecondsPerMinute)
            && (r.MinutesAgo? <==> SecondsPerMinute <= d < SecondsPerHour)
            && (r.HoursAgo? <==> SecondsPerHour <= d < SecondsPerDay)
            && (r.DaysAgo? <==> SecondsPerDay <= d < SecondsPerWeek)
            && (r.CalendarDate? <==> SecondsPerWeek <= d)
    ensures r.MinutesAgo? ==>
              && 1 <= r.minutes < 60
              && r.minutes * SecondsPerMinute <= ElapsedSeconds(nowMs, thenMs) < (r.minutes + 1) * SecondsPerMinute
    ensures r.HoursAgo? ==>
              && 1 <= r.hours < 24
              && r.hours * SecondsPerHour <= ElapsedSeconds(nowMs, thenMs) < (r.hours + 1) * SecondsPerHour
    ensures r.DaysAgo? ==>
              && 1 <= r.days < 7
              && r.days * SecondsPerDay <= ElapsedSeconds(nowMs, thenMs) < (r.days + 1) * SecondsPerDay
    ensures r.CalendarDate? ==> r.atMs == thenMs
  {
    var d := ElapsedSeconds(nowMs, thenMs);
    if d < SecondsPerMinute then JustNow
    else if d < SecondsPerHour then MinutesAgo(d / SecondsPerMinute)
    else if d < SecondsPerDay then HoursAgo(d / SecondsPerHour)
    else if d < SecondsPerWeek then DaysAgo(d / SecondsPerDay)
    else CalendarDate(thenMs)
  }

  /** A moment in the future (a clock running behind the server's) shows "Just now". */
  lemma {:induction false} FutureIsJustNow(nowMs: int, thenMs: int)
    requires thenMs > nowMs
    ensures FormatDate(nowMs, thenMs) == JustNow
  {
    assert ElapsedSeconds(nowMs, thenMs) < 0;
  }

  /** The order of the buckets, oldest last; within a bucket the number decides. */
  function Rank(s: Stamp): nat {
    match s
    case JustNow => 0
    case MinutesAgo(_) => 1
    case HoursAgo(_) => 2
    case DaysAgo(_) => 3
    case CalendarDate(_) => 4
  }

  function Amount(s: Stamp): int {
    match s
    case JustNow => 0
    case MinutesAgo(n) => n
    case HoursAgo(n) => n
    case DaysAgo(n) => n
    case CalendarDate(at) => -at
  }

  /** `a` reads as no older than `b`. */
  predicate NoOlder(a: Stamp, b: Stamp) {
    Rank(a) < Rank(b) || (Rank(a) == Rank(b) && Amount(a) <= Amount(b))
  }

  lemma DivMonotone(a: int, b: int, n: int)
    requires a <= b && n > 0
    ensures a / n <= b / n
  {
    var qa, qb := a / n, b / n;
    if qb < qa {
      MulMonotone(qb + 1, qa, n);
    }
  }

  /** Of two moments seen at the same time, the later one never reads as older. */
  lemma {:induction false} FormatDateMonotone(nowMs: int, earlier: int, later: int)
    requires earlier <= later
    ensures NoOlder(FormatDate(nowMs, later), FormatDate(nowMs, earlier))
  {
    var dl := ElapsedSeconds(nowMs, later);
    var de := ElapsedSeconds(nowMs, earlier);
    DivMonotone(nowMs - later, nowMs - earlier, 1000);
    assert dl <= de;
    DivMonotone(dl, de, SecondsPerMinute);
    DivMonotone(dl, de, SecondsPerHour);
    DivMonotone(dl, de, SecondsPerDay);
  }

  // ---------------------------------------------------------------- rendering

  function DigitChar(d: nat): char
    requires d < 10
  {
    "0123456789"[d]
  }

  function DigitValue(c: char): nat {
    if '0' <= c <= '9' then (c - '0') as nat else 0
  }

  /** The decimal digits a template literal prints for a natural number. */
  function Decimal(n: nat): (r: string)
    ensures |r| >= 1
    ensures forall i :: 0 <= i < |r| ==> '0' <= r[i] <= '9'
    decreases n
  {
    if n < 10 then [DigitChar(n)] else Decimal(n / 10) + [DigitChar(n % 10)]
  }

  /** Reading decimal digits back. */
  function ParseDecimal(s: string): nat
    decreases |s|
  {
    if s == [] then 0 else ParseDecimal(s[..|s| - 1]) * 10 + DigitValue(s[|s| - 1])
  }

  /** The printed number is the number: reading it back gives n. */
  lemma {:induction false} DecimalRoundTrip(n: nat)
    ensures ParseDecimal(Decimal(n)) == n
    decreases n
  {
    if n < 10 {
      ParseDigitAfter([], n);
    } else {
      DecimalRoundTrip(n / 10);
      ParseDigitAfter(Decimal(n / 10), n % 10);
    }
  }

  /** Reading a digit appended to a string: the value so far shifted by one place. */
  lemma ParseDigitAfter(s: string, d: nat)
    requires d < 10
    ensures ParseDecimal(s + [DigitChar(d)]) == ParseDecimal(s) * 10 + d
  {
    assert (s + [DigitChar(d)])[..|s|] == s;
    assert DigitValue(DigitChar(d)) == d;
  }

  /** The text shown; the calendar date comes from `toLocaleDateString`, passed in. */
  function Render(s: Stamp, localeDate: int -> string): (r: string)
    ensures s.JustNow? ==> r == "Just now"
    ensures s.MinutesAgo? ==> r == Decimal(s.minutes) + "m ago"
    ensures s.HoursAgo? ==> r == Decimal(s.hours) + "h ago"
    ensures s.DaysAgo? ==> r == Decimal(s.days) + "d ago"
    ensures s.CalendarDate? ==> r == localeDate(s.atMs)
  {
    match s
    case JustNow => "Just now"
    case MinutesAgo(n) => Decimal(n) + "m ago"
    case HoursAgo(n) => Decimal(n) + "h ago"
    case DaysAgo(n) => Decimal(n) + "d ago"
    case CalendarDate(at) => localeDate(at)
  }

  /** `formatDate(dateString)` as displayed, at the moment `nowMs`. */
  function Label(nowMs: int, thenMs: int, localeDate: int -> string): (r: string)
    ensures ElapsedSeconds(nowMs, thenMs) < SecondsPerMinute ==> r == "Just now"
    ensures SecondsPerWeek <= ElapsedSeconds(nowMs, thenMs) ==> r == localeDate(thenMs)
  {
    Render(FormatDate(nowMs, thenMs), localeDate)
  }
}
