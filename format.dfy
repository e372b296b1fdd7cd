/**
 * The formatting helpers: phone masking, date-token substitution and the
 * relative-time wording.  Calendar conversion is left to the caller: a date
 * arrives as its integer components, and the current time as a parameter.
 */
module Format {
  import opened Wrappers
  import opened Text

  // ---------------------------------------------------------------- phone

  /** Eleven ASCII digits start at `i` (what `/(\d{3})\d{4}(\d{4})/` needs). */
  predicate DigitRunAt(s: string, i: nat) {
    i + 11 <= |s| && forall k :: i <= k < i + 11 ==> IsDigit(s[k])
  }

  /** The leftmost start of an eleven-digit run at or after `from`. */
  function FirstDigitRun(s: string, from: nat): (r: Option<nat>)
    decreases |s| - from
    ensures r.Some? ==> from <= r.value && DigitRunAt(s, r.value)
    ensures r.Some? ==> forall j :: from <= j < r.value ==> !DigitRunAt(s, j)
    ensures r.None? ==> forall j :: from <= j ==> !DigitRunAt(s, j)
  {
    if |s| < from + 11 then None
    else if forall k :: from <= k < from + 11 ==> IsDigit(s[k]) then Some(from)
    else FirstDigitRun(s, from + 1)
  }

  /** `formatPhone`: the first match keeps its first three and last four digits and has `****` in between. */
  function FormatPhone(phone: string): (r: string)
    ensures |r| == |phone|
    ensures phone == "" ==> r == ""
    ensures (forall i :: !DigitRunAt(phone, i)) ==> r == phone
    ensures forall i: nat :: DigitRunAt(phone, i) && (forall j :: 0 <= j < i ==> !DigitRunAt(phone, j)) ==>
              r == phone[..i + 3] + "****" + phone[i + 7..]
  {
    if phone == "" then ""
    else match FirstDigitRun(phone, 0)
      case None => phone
      case Some(i) => phone[..i + 3] + "****" + phone[i + 7..]
  }

  /** The mask touches exactly four characters, the 4th to 7th digits of the first run. */
  lemma PhoneMaskPositions(phone: string, i: nat, k: nat)
    requires DigitRunAt(phone, i) && forall j :: 0 <= j < i ==> !DigitRunAt(phone, j)
    requires k < |phone|
    ensures FormatPhone(phone)[k] == if i + 3 <= k < i + 7 then '*' else phone[k]
  {
    var r := FormatPhone(phone);
    assert r == phone[..i + 3] + "****" + phone[i + 7..];
    if k < i + 3 {
      assert r[k] == phone[..i + 3][k];
    } else if k < i + 7 {
      assert r[k] == "****"[k - i - 3];
    } else {
      assert r[k] == phone[i + 7..][k - i - 7];
    }
  }

  // ----------------------------------------------------------------- date

  /** The local components of a date: `month` is 0-based, as `getMonth()` returns it. */
  datatype DateParts = DateParts(year: int, month: nat, day: nat, hours: nat, minutes: nat, seconds: nat)

  const DefaultDateFormat := "YYYY-MM-DD HH:mm:ss"

  /** `String(n).padStart(2, '0')`. */
  function TwoDigits(n: nat): (r: string)
    ensures |r| >= 2
    ensures forall k :: 0 <= k < |r| ==> IsDigit(r[k])
    ensures n < 10 ==> r == ['0', DigitChar(n)]
  {
    PadStart2(NatToString(n))
  }

  /** Padding loses nothing: the two-digit rendering reads back as the number. */
  lemma TwoDigitsValue(n: nat)
    ensures DecimalValue(TwoDigits(n)) == n
  {
    DecimalValueOfNatToString(n);
    if n < 10 {
      LeadingZero(NatToString(n));
    }
  }

  /** `formatDate`: the first occurrence of each token, in the order YYYY, MM, DD, HH, mm, ss, is replaced. */
  function FormatDate(date: DateParts, format: string): (r: string)
    ensures (!Contains(format, "YYYY") && !Contains(format, "MM") && !Contains(format, "DD") &&
             !Contains(format, "HH") && !Contains(format, "mm") && !Contains(format, "ss")) ==> r == format
  {
    var s1 := ReplaceFirst(format, "YYYY", IntToString(date.year));
    var s2 := ReplaceFirst(s1, "MM", TwoDigits(date.month + 1));
    var s3 := ReplaceFirst(s2, "DD", TwoDigits(date.day));
    var s4 := ReplaceFirst(s3, "HH", TwoDigits(date.hours));
    var s5 := ReplaceFirst(s4, "mm", TwoDigits(date.minutes));
    ReplaceFirst(s5, "ss", TwoDigits(date.seconds))
  }

  /** Rendered numbers and separators: digits, `'-'`, `' '` and `':'`, none of them a token letter. */
  predicate Rendered(s: string) {
    forall k :: 0 <= k < |s| ==> IsDigit(s[k]) || s[k] in "- :/"
  }

  /** Substituting a token that follows already rendered text replaces that very occurrence. */
  lemma SubstituteAfterRendered(done: string, token: string, rest: string, value: string)
    requires Rendered(done) && token in ["YYYY", "MM", "DD", "HH", "mm", "ss"]
    ensures ReplaceFirst(done + token + rest, token, value) == done + value + rest
  {
    assert token[0] !in done;
    ReplaceFirstAfter(done, token, rest, value);
  }

  /** A token absent from the text leaves it unchanged. */
  lemma SubstituteAbsent(s: string, token: string, value: string)
    requires |token| > 0 && token[0] !in s
    ensures ReplaceFirst(s, token, value) == s
  {
    AbsentFirstChar(s, token);
  }

  lemma YearMonthDaySteps(y: string, m: string, d: string)
    requires Rendered(y) && Rendered(m)
    ensures ReplaceFirst("YYYY-MM-DD", "YYYY", y) == y + "-MM-DD"
    ensures ReplaceFirst(y + "-MM-DD", "MM", m) == y + "-" + m + "-DD"
    ensures ReplaceFirst(y + "-" + m + "-DD", "DD", d) == y + "-" + m + "-" + d
  {
    assert "YYYY-MM-DD" == "" + "YYYY" + "-MM-DD";
    SubstituteAfterRendered("", "YYYY", "-MM-DD", y);
    MonthStep(y, m);
    DayStep(y, m, d);
  }

  lemma MonthStep(y: string, m: string)
    requires Rendered(y)
    ensures ReplaceFirst(y + "-MM-DD", "MM", m) == y + "-" + m + "-DD"
  {
    assert Rendered(y + "-");
    assert y + "-MM-DD" == (y + "-") + "MM" + "-DD";
    SubstituteAfterRendered(y + "-", "MM", "-DD", m);
  }

  lemma DayStep(y: string, m: string, d: string)
    requires Rendered(y) && Rendered(m)
    ensures ReplaceFirst(y + "-" + m + "-DD", "DD", d) == y + "-" + m + "-" + d
  {
    var done := y + "-" + m + "-";
    assert Rendered(done);
    assert y + "-" + m + "-DD" == done + "DD" + "";
    SubstituteAfterRendered(done, "DD", "", d);
  }

  /** Once only rendered text is left, the time tokens find nothing to replace. */
  lemma NoTimeTokensLeft(s: string, h: string, mi: string, se: string)
    requires 'H' !in s && 'm' !in s && 's' !in s
    ensures ReplaceFirst(ReplaceFirst(ReplaceFirst(s, "HH", h), "mm", mi), "ss", se) == s
  {
    SubstituteAbsent(s, "HH", h);
    SubstituteAbsent(s, "mm", mi);
    SubstituteAbsent(s, "ss", se);
  }

  lemma RenderedHasNoTimeLetters(s: string)
    requires Rendered(s)
    ensures 'H' !in s && 'm' !in s && 's' !in s
  {
  }

  lemma RenderedJoin(y: string, m: string, d: string)
    requires Rendered(y) && Rendered(m) && Rendered(d)
    ensures Rendered(y + "-" + m + "-" + d)
  {
  }

  /** `'YYYY-MM-DD'` renders the year, the 1-based month and the day, zero-padded. */
  lemma FormatYearMonthDay(date: DateParts)
    ensures FormatDate(date, "YYYY-MM-DD") ==
              IntToString(date.year) + "-" + TwoDigits(date.month + 1) + "-" + TwoDigits(date.day)
  {
    var y, m, d := IntToString(date.year), TwoDigits(date.month + 1), TwoDigits(date.day);
    YearMonthDaySteps(y, m, d);
    RenderedJoin(y, m, d);
    RenderedHasNoTimeLetters(y + "-" + m + "-" + d);
    NoTimeTokensLeft(y + "-" + m + "-" + d, TwoDigits(date.hours), TwoDigits(date.minutes), TwoDigits(date.seconds));
  }

  lemma DefaultYearStep(y: string)
    requires Rendered(y)
    ensures ReplaceFirst(DefaultDateFormat, "YYYY", y) == y + "-MM-DD HH:mm:ss"
  {
    SubstituteAfterRendered("", "YYYY", "-MM-DD HH:mm:ss", y);
  }

  lemma DefaultMonthStep(y: string, mo: string)
    requires Rendered(y)
    ensures ReplaceFirst(y + "-MM-DD HH:mm:ss", "MM", mo) == y + "-" + mo + "-DD HH:mm:ss"
  {
    assert "-MM-DD HH:mm:ss" == "-" + "MM" + "-DD HH:mm:ss";
    assert y + "-MM-DD HH:mm:ss" == (y + "-") + "MM" + "-DD HH:mm:ss";
    SubstituteAfterRendered(y + "-", "MM", "-DD HH:mm:ss", mo);
  }

  lemma DefaultDayStep(ym: string, d: string)
    requires Rendered(ym)
    ensures ReplaceFirst(ym + "-DD HH:mm:ss", "DD", d) == ym + "-" + d + " HH:mm:ss"
  {
    assert "-DD HH:mm:ss" == "-" + "DD" + " HH:mm:ss";
    assert ym + "-DD HH:mm:ss" == (ym + "-") + "DD" + " HH:mm:ss";
    SubstituteAfterRendered(ym + "-", "DD", " HH:mm:ss", d);
  }

  lemma DefaultHourStep(ymd: string, h: string)
    requires Rendered(ymd)
    ensures ReplaceFirst(ymd + " HH:mm:ss", "HH", h) == ymd + " " + h + ":mm:ss"
  {
    assert " HH:mm:ss" == " " + "HH" + ":mm:ss";
    assert ymd + " HH:mm:ss" == (ymd + " ") + "HH" + ":mm:ss";
    SubstituteAfterRendered(ymd + " ", "HH", ":mm:ss", h);
  }

  lemma DefaultMinuteStep(ymdh: string, mi: string)
    requires Rendered(ymdh)
    ensures ReplaceFirst(ymdh + ":mm:ss", "mm", mi) == ymdh + ":" + mi + ":ss"
  {
    assert ":mm:ss" == ":" + "mm" + ":ss";
    assert ymdh + ":mm:ss" == (ymdh + ":") + "mm" + ":ss";
    SubstituteAfterRendered(ymdh + ":", "mm", ":ss", mi);
  }

  lemma DefaultSecondStep(ymdhm: string, se: string)
    requires Rendered(ymdhm)
    ensures ReplaceFirst(ymdhm + ":ss", "ss", se) == ymdhm + ":" + se
  {
    assert ":ss" == ":" + "ss" + "";
    assert ymdhm + ":ss" == (ymdhm + ":") + "ss" + "";
    SubstituteAfterRendered(ymdhm + ":", "ss", "", se);
  }

  /** Rendered text stays rendered when a separator and more rendered text follow. */
  lemma RenderedAppend(a: string, sep: string, b: string)
    requires Rendered(a) && Rendered(b) && sep in ["-", " ", ":"]
    ensures Rendered(a + sep + b)
  {
  }

  lemma DefaultSteps(y: string, mo: string, d: string, h: string, mi: string, se: string)
    requires Rendered(y) && Rendered(mo) && Rendered(d) && Rendered(h) && Rendered(mi)
    ensures var s1 := ReplaceFirst(DefaultDateFormat, "YYYY", y);
            var s2 := ReplaceFirst(s1, "MM", mo);
            var s3 := ReplaceFirst(s2, "DD", d);
            var s4 := ReplaceFirst(s3, "HH", h);
            var s5 := ReplaceFirst(s4, "mm", mi);
            ReplaceFirst(s5, "ss", se) == y + "-" + mo + "-" + d + " " + h + ":" + mi + ":" + se
  {
    DefaultYearStep(y);
    DefaultMonthStep(y, mo);
    RenderedAppend(y, "-", mo);
    DefaultDayStep(y + "-" + mo, d);
    RenderedAppend(y + "-" + mo, "-", d);
    DefaultHourStep(y + "-" + mo + "-" + d, h);
    RenderedAppend(y + "-" + mo + "-" + d, " ", h);
    DefaultMinuteStep(y + "-" + mo + "-" + d + " " + h, mi);
    RenderedAppend(y + "-" + mo + "-" + d + " " + h, ":", mi);
    DefaultSecondStep(y + "-" + mo + "-" + d + " " + h + ":" + mi, se);
  }

  /** The default format renders every component once, in place. */
  lemma FormatDefault(date: DateParts)
    ensures FormatDate(date, DefaultDateFormat) ==
              IntToString(date.year) + "-" + TwoDigits(date.month + 1) + "-" + TwoDigits(date.day) + " " +
              TwoDigits(date.hours) + ":" + TwoDigits(date.minutes) + ":" + TwoDigits(date.seconds)
  {
    DefaultSteps(IntToString(date.year), TwoDigits(date.month + 1), TwoDigits(date.day),
                 TwoDigits(date.hours), TwoDigits(date.minutes), TwoDigits(date.seconds));
  }

  lemma RepeatedYearFirstStep(y: string)
    requires Rendered(y)
    ensures ReplaceFirst("YYYY/YYYY", "YYYY", y) == y + "/YYYY"
  {
    assert "YYYY/YYYY" == "" + "YYYY" + "/YYYY";
    SubstituteAfterRendered("", "YYYY", "/YYYY", y);
  }

  lemma RepeatedYearSteps(y: string, mo: string, d: string, h: string, mi: string, se: string)
    requires Rendered(y)
    ensures var s1 := ReplaceFirst("YYYY/YYYY", "YYYY", y);
            var s3 := ReplaceFirst(ReplaceFirst(s1, "MM", mo), "DD", d);
            ReplaceFirst(ReplaceFirst(ReplaceFirst(s3, "HH", h), "mm", mi), "ss", se) == y + "/YYYY"
  {
    RepeatedYearFirstStep(y);
    RenderedThenYears(y);
    var s := y + "/YYYY";
    SubstituteAbsent(s, "MM", mo);
    SubstituteAbsent(s, "DD", d);
    NoTimeTokensLeft(s, h, mi, se);
  }

  lemma RenderedThenYears(y: string)
    requires Rendered(y)
    ensures 'M' !in y + "/YYYY" && 'D' !in y + "/YYYY" && 'H' !in y + "/YYYY" && 'm' !in y + "/YYYY" && 's' !in y + "/YYYY"
  {
  }

  /** Only the first occurrence of a token is replaced. */
  lemma OnlyFirstOccurrence(date: DateParts)
    ensures FormatDate(date, "YYYY/YYYY") == IntToString(date.year) + "/YYYY"
  {
    RepeatedYearSteps(IntToString(date.year), TwoDigits(date.month + 1), TwoDigits(date.day),
                      TwoDigits(date.hours), TwoDigits(date.minutes), TwoDigits(date.seconds));
  }

  // -------------------------------------------------------- relative time

  const Minute := 60 * 1000
  const Hour := 60 * Minute
  const Day := 24 * Hour

  /**
   * `formatRelativeTime(timestamp)` at time `now`; `date` is the local
   * calendar reading of `timestamp`, used only past seven days. The
   * buckets: under a minute (future timestamps included) is "just now";
   * then whole minutes 1..59, whole hours 1..23, whole days 1..6; from
   * seven days on, the calendar date.
   */
  function FormatRelativeTime(timestamp: int, now: int, date: DateParts): (r: string)
    ensures var diff := now - timestamp;
      && (diff < Minute ==> r == "刚刚")
      && (Minute <= diff < Hour ==>
            1 <= diff / Minute <= 59 && r == NatToString(diff / Minute) + "分钟前")
      && (Hour <= diff < Day ==>
            1 <= diff / Hour <= 23 && r == NatToString(diff / Hour) + "小时前")
      && (Day <= diff < 7 * Day ==>
            1 <= diff / Day <= 6 && r == NatToString(diff / Day) + "天前")
      && (7 * Day <= diff ==>
            r == IntToString(date.year) + "-" + TwoDigits(date.month + 1) + "-" + TwoDigits(date.day))
  {
    var diff := now - timestamp;
    if diff < Minute then "刚刚"
    else if diff < Hour then DivBounds(diff, Minute, 59); NatToString(diff / Minute) + "分钟前"
    else if diff < Day then DivBounds(diff, Hour, 23); NatToString(diff / Hour) + "小时前"
    else if diff < 7 * Day then DivBounds(diff, Day, 6); NatToString(diff / Day) + "天前"
    else FormatYearMonthDay(date); FormatDate(date, "YYYY-MM-DD")
  }

  lemma DivBounds(x: int, unit: int, most: int)
    requires unit > 0 && most >= 1 && unit <= x < (most + 1) * unit
    ensures 1 <= x / unit <= most
  {
    var q := x / unit;
    assert x == q * unit + x % unit;
  }
}
