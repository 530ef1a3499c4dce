/**
 * The interval and format rules shared by the scheduling handlers.
 *
 * Calendar dates are `YYYY-MM-DD` strings; the database compares them as
 * dates, which for zero-padded strings is the string order `Text.Less`.
 * Date-times are parsed instants (integer seconds). Clock times are the
 * `H:MM:SS` or `HH:MM:SS` strings the rotation slots carry.
 */
module TimeRanges {
  import opened Base
  import opened Text

  // ---------------------------------------------------------------- overlap

  /**
   * `overlapsDate`: a stored range [rowStart, rowEnd] meets the asked range
   * [from, to] unless it ends before `from` or starts after `to`. Both ends
   * are inclusive, so ranges sharing an end day overlap.
   */
  predicate DatesOverlap(rowStart: string, rowEnd: string, from: string, to: string) {
    !(Less(rowEnd, from) || Less(to, rowStart))
  }

  /** Closed overlap read positively: each range starts no later than the other ends. */
  lemma DatesOverlapMeaning(rowStart: string, rowEnd: string, from: string, to: string)
    ensures DatesOverlap(rowStart, rowEnd, from, to) <==> LessEq(from, rowEnd) && LessEq(rowStart, to)
  {
    NotLessIsLessEq(rowEnd, from);
    NotLessIsLessEq(to, rowStart);
  }

  /** A day inside a closed range. */
  predicate OnOrBetween(d: string, start: string, end: string) {
    LessEq(start, d) && LessEq(d, end)
  }

  /** Two well-ordered closed ranges overlap exactly when some day lies in both. */
  lemma DatesOverlapShareDay(s1: string, e1: string, s2: string, e2: string)
    requires LessEq(s1, e1) && LessEq(s2, e2)
    ensures DatesOverlap(s1, e1, s2, e2) <==> exists d :: OnOrBetween(d, s1, e1) && OnOrBetween(d, s2, e2)
  {
    DatesOverlapMeaning(s1, e1, s2, e2);
    if DatesOverlap(s1, e1, s2, e2) {
      // the later of the two starts lies in both
      if LessEq(s1, s2) {
        assert OnOrBetween(s2, s1, e1) && OnOrBetween(s2, s2, e2);
      } else {
        NotLessIsLessEq(s2, s1);
        NotLessIsLessEq(s1, s2);
        assert OnOrBetween(s1, s1, e1) && OnOrBetween(s1, s2, e2);
      }
    }
    if exists d :: OnOrBetween(d, s1, e1) && OnOrBetween(d, s2, e2) {
      var d :| OnOrBetween(d, s1, e1) && OnOrBetween(d, s2, e2);
      LessEqTransitive(s2, d, e1);
      LessEqTransitive(s1, d, e2);
    }
  }

  /**
   * `overlapsDateTime`: a stored span [rowStart, rowEnd) meets [start, end)
   * unless it ends at or before `start` or starts at or after `end`. The
   * spans are half-open, so back-to-back spans do not overlap.
   */
  predicate TimesOverlap(rowStart: int, rowEnd: int, start: int, end: int) {
    !(rowEnd <= start || rowStart >= end)
  }

  /** An instant inside a half-open span. */
  predicate Within(t: int, start: int, end: int) {
    start <= t < end
  }

  /** Two non-empty half-open spans overlap exactly when some instant lies in both. */
  lemma TimesOverlapShareInstant(s1: int, e1: int, s2: int, e2: int)
    requires s1 < e1 && s2 < e2
    ensures TimesOverlap(s1, e1, s2, e2) <==> exists t :: Within(t, s1, e1) && Within(t, s2, e2)
  {
    if TimesOverlap(s1, e1, s2, e2) {
      var t := Max(s1, s2);
      assert Within(t, s1, e1) && Within(t, s2, e2);
    }
  }

  // ---------------------------------------------------------------- enums

  /** The half of a day a day-off range starts or ends on. */
  datatype Half = AM | PM | Full

  function HalfText(h: Half): string {
    match h
    case AM => "AM"
    case PM => "PM"
    case Full => "FULL"
  }

  /** `validHalf`: exactly the three spellings. */
  predicate ValidHalf(x: Option<string>) {
    x.Some? && x.value in {"AM", "PM", "FULL"}
  }

  /** The half a day-off request asks for: its own value when valid, `FULL` otherwise. */
  function HalfOr(x: Option<string>): (h: Half)
    ensures ValidHalf(x) ==> x == Some(HalfText(h))
    ensures !ValidHalf(x) ==> h == Full
  {
    if x == Some("AM") then AM else if x == Some("PM") then PM else Full
  }

  /** `validDayOfWeek`: an integer from 0 (Sunday) to 6; `None` is any other value. */
  predicate ValidDayOfWeek(d: Option<int>) {
    d.Some? && 0 <= d.value <= 6
  }

  // ---------------------------------------------------------------- clock times

  predicate IsDigit(c: char) {
    '0' <= c <= '9'
  }

  function DigitValue(c: char): int {
    c as int - '0' as int
  }

  function Digit(d: int): (c: char)
    requires 0 <= d <= 9
    ensures IsDigit(c) && DigitValue(c) == d
  {
    ('0' as int + d) as char
  }

  /** The `:MM:SS` part that ends every valid time. */
  predicate ValidTail(t: string)
    requires |t| >= 6
  {
    var o := |t| - 6;
    && t[o] == ':' && '0' <= t[o + 1] <= '5' && IsDigit(t[o + 2])
    && t[o + 3] == ':' && '0' <= t[o + 4] <= '5' && IsDigit(t[o + 5])
  }

  /** The hour pattern `[01]?[0-9]|2[0-3]` followed by the tail, and nothing else. */
  predicate ValidTimeText(t: string) {
    || (|t| == 7 && IsDigit(t[0]) && ValidTail(t))
    || (|t| == 8 && ValidTail(t)
        && ((('0' <= t[0] <= '1') && IsDigit(t[1])) || (t[0] == '2' && '0' <= t[1] <= '3')))
  }

  /** `validTime`: a string matching the pattern; `None` is a missing or non-string value. */
  predicate ValidTime(x: Option<string>) {
    x.Some? && ValidTimeText(x.value)
  }

  /** The second of the day a valid time names. */
  function Seconds(t: string): (n: int)
    requires ValidTimeText(t)
    ensures 0 <= n < 24 * 3600
  {
    var o := |t| - 6;
    var hour := if |t| == 7 then DigitValue(t[0]) else 10 * DigitValue(t[0]) + DigitValue(t[1]);
    var minute := 10 * DigitValue(t[o + 1]) + DigitValue(t[o + 2]);
    var second := 10 * DigitValue(t[o + 4]) + DigitValue(t[o + 5]);
    hour * 3600 + minute * 60 + second
  }

  /** Two digits, zero-padded. */
  function TwoDigits(n: int): (s: string)
    requires 0 <= n <= 99
    ensures |s| == 2 && 10 * DigitValue(s[0]) + DigitValue(s[1]) == n
  {
    [Digit(n / 10), Digit(n % 10)]
  }

  /** How a clock time is written: the hour with or without a leading zero, minutes and seconds padded. */
  function TimeText(h: int, m: int, s: int, padded: bool): string
    requires 0 <= h < 24 && 0 <= m < 60 && 0 <= s < 60
  {
    (if padded || h >= 10 then TwoDigits(h) else [Digit(h)]) + ":" + TwoDigits(m) + ":" + TwoDigits(s)
  }

  /** Printing then reading a time gives back the second of the day it was printed from. */
  lemma TimeTextValid(h: int, m: int, s: int, padded: bool)
    requires 0 <= h < 24 && 0 <= m < 60 && 0 <= s < 60
    ensures ValidTimeText(TimeText(h, m, s, padded))
    ensures Seconds(TimeText(h, m, s, padded)) == h * 3600 + m * 60 + s
  {
    var t := TimeText(h, m, s, padded);
    var hs := if padded || h >= 10 then TwoDigits(h) else [Digit(h)];
    var ms := TwoDigits(m);
    var ss := TwoDigits(s);
    assert t == hs + [':'] + ms + [':'] + ss;
    var o := |hs|;
    assert t[o] == ':' && t[o + 1] == ms[0] && t[o + 2] == ms[1];
    assert t[o + 3] == ':' && t[o + 4] == ss[0] && t[o + 5] == ss[1];
    assert t[0] == hs[0];
    if |hs| == 2 {
      assert t[1] == hs[1];
    }
    assert m / 10 <= 5 && s / 10 <= 5;
  }

  lemma DigitBack(c: char)
    requires IsDigit(c)
    ensures Digit(DigitValue(c)) == c
  {
  }

  lemma TwoDigitsBack(c: char, d: char)
    requires IsDigit(c) && IsDigit(d)
    ensures TwoDigits(10 * DigitValue(c) + DigitValue(d)) == [c, d]
  {
    var n := 10 * DigitValue(c) + DigitValue(d);
    assert n / 10 == DigitValue(c) && n % 10 == DigitValue(d);
    DigitBack(c);
    DigitBack(d);
  }

  /** Every valid time is printed from the hour, minute and second it names. */
  lemma ValidTimeIsPrinted(t: string)
    requires ValidTimeText(t)
    ensures exists h, m, s, padded :: 0 <= h < 24 && 0 <= m < 60 && 0 <= s < 60 && t == TimeText(h, m, s, padded)
  {
    var o := |t| - 6;
    var m := 10 * DigitValue(t[o + 1]) + DigitValue(t[o + 2]);
    var s := 10 * DigitValue(t[o + 4]) + DigitValue(t[o + 5]);
    TwoDigitsBack(t[o + 1], t[o + 2]);
    TwoDigitsBack(t[o + 4], t[o + 5]);
    var tail := [':'] + [t[o + 1], t[o + 2]] + [':'] + [t[o + 4], t[o + 5]];
    assert t[o..] == tail;
    if |t| == 7 {
      var h := DigitValue(t[0]);
      DigitBack(t[0]);
      assert t == [t[0]] + t[o..];
      assert t == TimeText(h, m, s, false);
    } else {
      var h := 10 * DigitValue(t[0]) + DigitValue(t[1]);
      TwoDigitsBack(t[0], t[1]);
      assert t == [t[0], t[1]] + t[o..];
      assert t == TimeText(h, m, s, true);
    }
  }

  /** The pattern accepts exactly the printed times. */
  lemma ValidTimeExactly(t: string)
    ensures ValidTimeText(t) <==>
      exists h, m, s, padded :: 0 <= h < 24 && 0 <= m < 60 && 0 <= s < 60 && t == TimeText(h, m, s, padded)
  {
    if ValidTimeText(t) {
      ValidTimeIsPrinted(t);
    }
    if exists h, m, s, padded :: 0 <= h < 24 && 0 <= m < 60 && 0 <= s < 60 && t == TimeText(h, m, s, padded) {
      var h, m, s, padded :| 0 <= h < 24 && 0 <= m < 60 && 0 <= s < 60 && t == TimeText(h, m, s, padded);
      TimeTextValid(h, m, s, padded);
    }
  }

  /** `isTimeOrderValid` as written: both valid, then JavaScript string order. */
  predicate TimeOrderAsWritten(start: Option<string>, end: Option<string>) {
    ValidTime(start) && ValidTime(end) && Less(start.value, end.value)
  }

  /** The check as written is a strict order on valid times: irreflexive, asymmetric and transitive. */
  lemma TimeOrderAsWrittenStrict(a: Option<string>, b: Option<string>, c: Option<string>)
    ensures !TimeOrderAsWritten(a, a)
    ensures TimeOrderAsWritten(a, b) ==> !TimeOrderAsWritten(b, a)
    ensures TimeOrderAsWritten(a, b) && TimeOrderAsWritten(b, c) ==> TimeOrderAsWritten(a, c)
  {
    if a.Some? {
      LessIrreflexive(a.value);
    }
    if TimeOrderAsWritten(a, b) {
      LessAsymmetric(a.value, b.value);
      if TimeOrderAsWritten(b, c) {
        LessTransitive(a.value, b.value, c.value);
      }
    }
  }

  /** The start-before-end check the slot filter evidently means: compare the times of day. */
  predicate TimeOrderIntended(start: Option<string>, end: Option<string>) {
    ValidTime(start) && ValidTime(end) && Seconds(start.value) < Seconds(end.value)
  }

  /** Strings of one length: order decided at the first position where they differ. */
  lemma LessStep(a: string, b: string)
    requires |a| > 0 && |b| > 0
    ensures Less(a, b) <==> a[0] < b[0] || (a[0] == b[0] && Less(a[1..], b[1..]))
  {
  }

  /** The two-digit number at position k. */
  function PairAt(a: string, k: nat): int
    requires k + 2 <= |a|
  {
    10 * DigitValue(a[k]) + DigitValue(a[k + 1])
  }

  /** Across a pair of digits the string order is the order of the two-digit numbers. */
  lemma PairStep(a: string, b: string, k: nat)
    requires k + 2 <= |a| && k + 2 <= |b|
    requires IsDigit(a[k]) && IsDigit(a[k + 1]) && IsDigit(b[k]) && IsDigit(b[k + 1])
    ensures Less(a[k..], b[k..]) <==>
      PairAt(a, k) < PairAt(b, k) || (PairAt(a, k) == PairAt(b, k) && Less(a[k + 2..], b[k + 2..]))
  {
    LessStep(a[k..], b[k..]);
    assert a[k..][1..] == a[k + 1..] && b[k..][1..] == b[k + 1..];
    LessStep(a[k + 1..], b[k + 1..]);
    assert a[k + 1..][1..] == a[k + 2..] && b[k + 1..][1..] == b[k + 2..];
  }

  /** A shared separator does not decide the order. */
  lemma SameStep(a: string, b: string, k: nat)
    requires k < |a| && k < |b| && a[k] == b[k]
    ensures Less(a[k..], b[k..]) <==> Less(a[k + 1..], b[k + 1..])
  {
    LessStep(a[k..], b[k..]);
    assert a[k..][1..] == a[k + 1..] && b[k..][1..] == b[k + 1..];
  }

  /** On zero-padded times the string order is the clock order, so the two checks agree. */
  lemma PaddedOrderAgrees(a: string, b: string)
    requires ValidTimeText(a) && ValidTimeText(b) && |a| == 8 && |b| == 8
    ensures Less(a, b) <==> Seconds(a) < Seconds(b)
  {
    assert a[0..] == a && b[0..] == b;
    assert a[8..] == [] && b[8..] == [];
    PairStep(a, b, 0);
    SameStep(a, b, 2);
    PairStep(a, b, 3);
    SameStep(a, b, 5);
    PairStep(a, b, 6);
    assert Seconds(a) == PairAt(a, 0) * 3600 + PairAt(a, 3) * 60 + PairAt(a, 6);
    assert Seconds(b) == PairAt(b, 0) * 3600 + PairAt(b, 3) * 60 + PairAt(b, 6);
  }

  /**
   * The intended check orders any two printed times as their clock values,
   * whatever the padding: start (h1, m1, s1) passes against end (h2, m2, s2)
   * exactly when it is earlier in the day.
   */
  lemma TimeOrderIntendedMeaning(h1: int, m1: int, s1: int, p1: bool, h2: int, m2: int, s2: int, p2: bool)
    requires 0 <= h1 < 24 && 0 <= m1 < 60 && 0 <= s1 < 60
    requires 0 <= h2 < 24 && 0 <= m2 < 60 && 0 <= s2 < 60
    ensures TimeOrderIntended(Some(TimeText(h1, m1, s1, p1)), Some(TimeText(h2, m2, s2, p2)))
        <==> h1 < h2 || (h1 == h2 && (m1 < m2 || (m1 == m2 && s1 < s2)))
  {
    TimeTextValid(h1, m1, s1, p1);
    TimeTextValid(h2, m2, s2, p2);
  }

  /**
   * The check as written compares the hour's digits, not its value, when
   * only one side has a leading zero: 9:00:00 to 10:00:00 is refused and
   * 10:00:00 to 9:00:00 is accepted.
   */
  lemma UnpaddedHourMisordered()
    ensures ValidTime(Some("9:00:00")) && ValidTime(Some("10:00:00"))
    ensures !TimeOrderAsWritten(Some("9:00:00"), Some("10:00:00"))
    ensures TimeOrderIntended(Some("9:00:00"), Some("10:00:00"))
    ensures TimeOrderAsWritten(Some("10:00:00"), Some("9:00:00"))
    ensures !TimeOrderIntended(Some("10:00:00"), Some("9:00:00"))
  {
    TimeTextValid(9, 0, 0, false);
    TimeTextValid(10, 0, 0, false);
    assert TimeText(9, 0, 0, false) == "9:00:00";
    assert TimeText(10, 0, 0, false) == "10:00:00";
    LessStep("9:00:00", "10:00:00");
    LessStep("10:00:00", "9:00:00");
  }

  // ---------------------------------------------------------------- date-times

  /** A date-time argument as `new Date` reads it; an unparseable one is an invalid date. */
  datatype Stamp = Parsed(at: int) | Unparseable

  /**
   * `isDateTimeOrderValid`: false when either argument is missing, and
   * otherwise the comparison of the parsed instants, which an invalid date
   * always fails.
   */
  predicate DateTimeOrderValid(start: Option<Stamp>, end: Option<Stamp>) {
    && start.Some? && end.Some?
    && start.value.Parsed? && end.value.Parsed?
    && start.value.at < end.value.at
  }

  /**
   * The check is a strict order on parsed instants, and it is false for a
   * missing or unparseable end of either side.
   */
  lemma DateTimeOrderStrict(a: Option<Stamp>, b: Option<Stamp>, c: Option<Stamp>)
    ensures DateTimeOrderValid(a, b) ==> a.Some? && b.Some? && a.value.Parsed? && b.value.Parsed?
    ensures DateTimeOrderValid(a, b) ==> !DateTimeOrderValid(b, a)
    ensures DateTimeOrderValid(a, b) && DateTimeOrderValid(b, c) ==> DateTimeOrderValid(a, c)
    ensures !DateTimeOrderValid(a, a)
  {
  }
}
