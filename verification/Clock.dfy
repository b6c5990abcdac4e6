/** The logger's clock text: `Chrono::calTime` and the per-thread cached date of
    `Chrono::format`.  Time points are nanoseconds since the epoch. */
module Clock {
  import opened Calendar
  import opened Decimal

  const MILLISECOND := 1_000_000
  const SECOND := 1_000_000_000
  const MINUTE := 60_000_000_000
  const HOUR := 3600_000_000_000
  const DAY := 86400_000_000_000

  /** Days from the epoch to 2050-01-01: the year table of the formatter ends there. */
  const TABLE_DAYS := 29220

  datatype Time = Time(hour: int, minute: int, second: int, millisecond: int) {
    function Milliseconds(): int {
      ((hour * 60 + minute) * 60 + second) * 1000 + millisecond
    }

    predicate IsTimeOfDay() {
      0 <= hour < 24 && 0 <= minute < 60 && 0 <= second < 60 && 0 <= millisecond < 1000
    }
  }

  /** `Chrono::calTime`: `duration_cast` truncates toward zero. */
  function CalTime(point: int): Time {
    var inDay := point - TruncDiv(point, DAY) * DAY;
    var h := TruncDiv(inDay, HOUR);
    var inHour := inDay - h * HOUR;
    var m := TruncDiv(inHour, MINUTE);
    var inMinute := inHour - m * MINUTE;
    var s := TruncDiv(inMinute, SECOND);
    Time(h, m, s, TruncDiv(inMinute - s * SECOND, MILLISECOND))
  }

  /** The four fields recombine to the millisecond of the day, whatever the sign of the point. */
  lemma CalTimeRecombines(point: int)
    ensures CalTime(point).Milliseconds() == TruncDiv(point - TruncDiv(point, DAY) * DAY, MILLISECOND)
    ensures point >= 0 ==> CalTime(point).IsTimeOfDay()
  {
  }

  /** yyyy-MM-dd */
  function DateText(d: Date): string
    requires 0 <= d.year && IsDate(d)
  {
    Pad(d.year, 4) + "-" + Pad(d.month, 2) + "-" + Pad(d.day, 2)
  }

  /** hh:mm:ss.SSS */
  function TimeText(t: Time): string
    requires t.IsTimeOfDay()
  {
    Pad(t.hour, 2) + ":" + Pad(t.minute, 2) + ":" + Pad(t.second, 2) + "." + Pad(t.millisecond, 3)
  }

  /** What a reader takes from the date text: year, month and day at 0, 5 and 8. */
  function ReadDate(s: string): Date
    requires |s| == 10
  {
    Date(Value(s[..4]), Value(s[5..7]), Value(s[8..]))
  }

  /** What a reader takes from the time text: the fields at 0, 3, 6 and 9. */
  function ReadTime(s: string): Time
    requires |s| == 12
  {
    Time(Value(s[..2]), Value(s[3..5]), Value(s[6..8]), Value(s[9..]))
  }

  /** The text shows the date of this day. */
  predicate ShowsDay(s: string, day: int) {
    && |s| == 10 && s[4] == '-' && s[7] == '-'
    && IsDate(ReadDate(s)) && DaysFromCivil(ReadDate(s)) == day
  }

  /** The text shows the time of day of this point. */
  predicate ShowsTime(s: string, point: int) {
    && |s| == 12 && s[2] == ':' && s[5] == ':' && s[8] == '.'
    && ReadTime(s).IsTimeOfDay() && ReadTime(s).Milliseconds() == point % DAY / MILLISECOND
  }

  lemma DateReadsBack(d: Date)
    requires 0 <= d.year < 10000 && IsDate(d)
    ensures var s := DateText(d); |s| == 10 && s[4] == '-' && s[7] == '-' && ReadDate(s) == d
  {
    var s := DateText(d);
    assert Pow10(2) == 100 && Pow10(4) == 10000;
    assert s[..4] == Pad(d.year, 4) && s[5..7] == Pad(d.month, 2) && s[8..] == Pad(d.day, 2);
    PadReadsBack(d.year, 4);
    PadReadsBack(d.month, 2);
    PadReadsBack(d.day, 2);
  }

  lemma TimeReadsBack(t: Time)
    requires t.IsTimeOfDay()
    ensures var s := TimeText(t); |s| == 12 && s[2] == ':' && s[5] == ':' && s[8] == '.' && ReadTime(s) == t
  {
    var s := TimeText(t);
    assert Pow10(2) == 100 && Pow10(3) == 1000;
    assert s[..2] == Pad(t.hour, 2) && s[3..5] == Pad(t.minute, 2);
    assert s[6..8] == Pad(t.second, 2) && s[9..] == Pad(t.millisecond, 3);
    PadReadsBack(t.hour, 2);
    PadReadsBack(t.minute, 2);
    PadReadsBack(t.second, 2);
    PadReadsBack(t.millisecond, 3);
  }

  lemma FreshDateShowsDay(point: int)
    requires 0 <= point < TABLE_DAYS * DAY
    ensures ShowsDay(FreshDate(point), point / DAY)
  {
    TableYears(point / DAY);
    CalDateInvertsDays(point / DAY, EPOCH);
    DateReadsBack(CalDate(point / DAY));
  }

  lemma FreshTimeShowsTime(point: int)
    requires 0 <= point
    ensures ShowsTime(FreshTime(point), point)
  {
    CalTimeRecombines(point);
    TimeReadsBack(CalTime(point));
  }

  lemma DateTextInjective(d: Date, e: Date)
    requires 0 <= d.year < 10000 && IsDate(d)
    requires 0 <= e.year < 10000 && IsDate(e)
    requires DateText(d) == DateText(e)
    ensures d == e
  {
    DateReadsBack(d);
    DateReadsBack(e);
  }

  /** Days of the year table have four-digit years. */
  lemma TableYears(day: int)
    requires 0 <= day < TABLE_DAYS
    ensures IsDate(CalDate(day)) && 1970 <= CalDate(day).year < 2050
  {
    CalDateInvertsDays(day, EPOCH);
    var d := CalDate(day);
    var jan := Date(2050, 1, 1);
    assert DaysBeforeMonth(2050, 1) == 0 && DaysBeforeMonth(1970, 1) == 0;
    DayOfYearBounded(d);
    YearsGrow(d.year);
  }

  lemma YearsGrow(y: int)
    ensures y >= 2050 ==> DaysBeforeYear(2050) <= DaysBeforeYear(y)
    ensures y < 1970 ==> DaysBeforeYear(y + 1) <= DaysBeforeYear(1970)
  {
  }

  /** The date text of the day a time point lies in. */
  function FreshDate(point: int): string
    requires 0 <= point < TABLE_DAYS * DAY
  {
    TableYears(point / DAY);
    DateText(CalDate(point / DAY))
  }

  function FreshTime(point: int): string
    requires 0 <= point
  {
    CalTimeRecombines(point);
    TimeText(CalTime(point))
  }

  /** Two points have the same date text exactly when they lie in the same day. */
  lemma FreshDateIsDay(p: int, q: int)
    requires 0 <= p < TABLE_DAYS * DAY && 0 <= q < TABLE_DAYS * DAY
    ensures FreshDate(p) == FreshDate(q) <==> p / DAY == q / DAY
  {
    if FreshDate(p) == FreshDate(q) {
      TableYears(p / DAY);
      TableYears(q / DAY);
      DateTextInjective(CalDate(p / DAY), CalDate(q / DAY));
      CalDateInvertsDays(p / DAY, EPOCH);
      CalDateInvertsDays(q / DAY, EPOCH);
    }
  }

  /** The thread-local record of `Chrono::format`. */
  class Formatter {
    var dateRecord: array<char>
    var timeRecord: array<char>
    var last: int

    /** The cached date is the date of the cached day start. */
    ghost predicate Valid()
      reads this, dateRecord, timeRecord
    {
      && dateRecord != timeRecord
      && dateRecord.Length == 10 && timeRecord.Length == 12
      && 0 <= last < TABLE_DAYS * DAY && last % DAY == 0
      && dateRecord[..] == FreshDate(last)
      && dateRecord[4] == '-' && dateRecord[7] == '-'
      && timeRecord[2] == ':' && timeRecord[5] == ':' && timeRecord[8] == '.'
    }

    constructor ()
      ensures Valid() && last == 0
      ensures fresh(dateRecord) && fresh(timeRecord)
    {
      dateRecord := new char[10]['1', '9', '7', '0', '-', '0', '1', '-', '0', '1'];
      timeRecord := new char[12]['0', '0', ':', '0', '0', ':', '0', '0', '.', '0', '0', '0'];
      last := 0;
      new;
      EpochText();
    }

    /** `Chrono::format`.  The time text is always right; the date text is right exactly when the
        clock has not gone back behind the start of the cached day. */
    method Format(point: int) returns (date: string, time: string)
      requires Valid()
      requires 0 <= point < TABLE_DAYS * DAY
      modifies this, dateRecord, timeRecord
      ensures Valid()
      ensures dateRecord == old(dateRecord) && timeRecord == old(timeRecord)
      ensures last == NextLast(old(last), point)
      ensures date == FreshDate(last)
      ensures date == FreshDate(point) <==> old(last) <= point
      ensures time == FreshTime(point)
      ensures old(last) <= point ==> ShowsDay(date, point / DAY)
      ensures ShowsTime(time, point)
    {
      var duration := point - last;
      FreshDateIsDay(last, point);
      if duration >= DAY {
        last := TruncDiv(point, DAY) * DAY;
        TableYears(point / DAY);
        SetDate(dateRecord, CalDate(TruncDiv(point, DAY)));
        FreshDateIsDay(last, point);
      }
      CalTimeRecombines(point);
      SetTime(timeRecord, CalTime(point));
      date, time := dateRecord[..], timeRecord[..];
      FreshDateShowsDay(last);
      FreshTimeShowsTime(point);
    }
  }

  /** A clock that goes back one day: the date shown is still that of the later day. */
  method StaleDateIsShown() returns (date: string)
    ensures date == FreshDate(DAY) != FreshDate(0)
  {
    var f := new Formatter();
    var time;
    date, time := f.Format(DAY);
    FreshDateIsDay(0, DAY);
    date, time := f.Format(0);
  }

  method SetDate(record: array<char>, d: Date)
    requires record.Length == 10 && record[4] == '-' && record[7] == '-'
    requires 0 <= d.year && IsDate(d)
    modifies record
    ensures record[..] == DateText(d)
    ensures record[4] == '-' && record[7] == '-'
  {
    Copy(record, 0, Pad(d.year, 4));
    Copy(record, 5, Pad(d.month, 2));
    Copy(record, 8, Pad(d.day, 2));
  }

  method SetTime(record: array<char>, t: Time)
    requires record.Length == 12
    requires record[2] == ':' && record[5] == ':' && record[8] == '.'
    requires t.IsTimeOfDay()
    modifies record
    ensures record[..] == TimeText(t)
    ensures record[2] == ':' && record[5] == ':' && record[8] == '.'
  {
    Copy(record, 0, Pad(t.hour, 2));
    Copy(record, 3, Pad(t.minute, 2));
    Copy(record, 6, Pad(t.second, 2));
    Copy(record, 9, Pad(t.millisecond, 3));
  }

  lemma EpochText()
    ensures FreshDate(0) == "1970-01-01"
  {
    CalDateFollowsCalendar();
    EpochDigits();
  }

  lemma EpochDigits()
    ensures Pad(1970, 4) == "1970" && Pad(1, 2) == "01"
  {
    assert Pad(19, 2) == "19";
  }

  /** `memcpy` into a record. */
  method Copy(a: array<char>, at: nat, s: string)
    requires at + |s| <= a.Length
    modifies a
    ensures forall i :: 0 <= i < a.Length ==>
              a[i] == if at <= i < at + |s| then s[i - at] else old(a[i])
  {
    forall i | 0 <= i < |s| {
      a[at + i] := s[i];
    }
  }

  /** What `Format` leaves in `last`. */
  function NextLast(last: int, point: int): int {
    if point - last >= DAY then TruncDiv(point, DAY) * DAY else last
  }

  /** `last` after formatting a sequence of points. */
  function LastAfter(points: seq<int>): int {
    if |points| == 0 then 0
    else NextLast(LastAfter(points[..|points| - 1]), points[|points| - 1])
  }

  /** Over every nondecreasing sequence of points from the epoch on, each shown date is the date of
      its own point. */
  lemma {:induction false} NondecreasingPointsShowTheirDates(points: seq<int>)
    requires forall i :: 0 <= i < |points| ==> 0 <= points[i] < TABLE_DAYS * DAY
    requires forall i, j :: 0 <= i < j < |points| ==> points[i] <= points[j]
    ensures 0 <= LastAfter(points) < TABLE_DAYS * DAY
    ensures |points| > 0 ==>
              && LastAfter(points) <= points[|points| - 1]
              && FreshDate(LastAfter(points)) == FreshDate(points[|points| - 1])
  {
    if |points| > 0 {
      var before := points[..|points| - 1];
      NondecreasingPointsShowTheirDates(before);
      DayStart(before);
      var point := points[|points| - 1];
      FreshDateIsDay(NextLast(LastAfter(before), point), point);
    }
  }

  lemma {:induction false} DayStart(points: seq<int>)
    ensures LastAfter(points) % DAY == 0
  {
    if |points| > 0 {
      DayStart(points[..|points| - 1]);
    }
  }
}
