/**
 The provider form of a schedule (providers/base.py, providers/schedule.py) and its two Nuki
 encodings: the web payload with a seven-bit weekday mask (providers/nuki.py) and the Bluetooth
 keypad payload with sentinel dates (providers/nuki_bluetooth.py).
 Instants are microseconds; the Bluetooth time zone is a fixed offset.
 */
module ProviderSchedules {
  import opened Results
  import opened Schedules

  datatype AuthorizationError =
    | EmptyAuthorizationValidity | BadWeekday | BadMinute | HalfWindow | TimesWithoutWeekday
    | SeveralWindows | OvernightWindow

  /** AuthorizationSchedule: one optional daily window on selected weekdays. */
  datatype Authorization = Authorization(
    validFrom: Option<int>,
    validUntil: Option<int>,
    weekdays: set<int>,
    fromMinute: Option<int>,
    untilMinute: Option<int>)

  predicate BadMinuteOfDay(m: Option<int>) {
    m.Some? && !(0 <= m.value <= 1439)
  }

  function MakeAuthorization(validFrom: Option<int>, validUntil: Option<int>, weekdays: set<int>,
                             fromMinute: Option<int>, untilMinute: Option<int>)
    : Result<Authorization, AuthorizationError>
  {
    if validFrom.Some? && validUntil.Some? && validUntil.value <= validFrom.value then
      Err(EmptyAuthorizationValidity)
    else if exists day :: day in weekdays && (day < 1 || day > 7) then Err(BadWeekday)
    else if BadMinuteOfDay(fromMinute) || BadMinuteOfDay(untilMinute) then Err(BadMinute)
    else if fromMinute.None? != untilMinute.None? then Err(HalfWindow)
    else if fromMinute.Some? && weekdays == {} then Err(TimesWithoutWeekday)
    else Ok(Authorization(validFrom, validUntil, weekdays, fromMinute, untilMinute))
  }

  ghost predicate IsAuthorization(a: Authorization) {
    MakeAuthorization(a.validFrom, a.validUntil, a.weekdays, a.fromMinute, a.untilMinute) == Ok(a)
  }

  predicate MinuteOfDay(m: Option<int>) {
    m.Some? ==> 0 <= m.value < 1440
  }

  /** An authorization has a range that is not empty, ISO weekdays, and a whole window or none, on some day. */
  lemma {:induction false} AuthorizationMadeIff(from: Option<int>, until: Option<int>, weekdays: set<int>,
                                                fromMinute: Option<int>, untilMinute: Option<int>)
    ensures var r := MakeAuthorization(from, until, weekdays, fromMinute, untilMinute);
            && (r.Ok? <==>
                  && (from.Some? && until.Some? ==> from.value < until.value)
                  && (forall day :: day in weekdays ==> 1 <= day <= 7)
                  && MinuteOfDay(fromMinute) && MinuteOfDay(untilMinute)
                  && (fromMinute.Some? <==> untilMinute.Some?)
                  && (fromMinute.Some? ==> weekdays != {}))
            && (r.Ok? ==> r.value == Authorization(from, until, weekdays, fromMinute, untilMinute))
  {
  }

  const UNRESTRICTED := Authorization(None, None, {}, None, None)

  // ----- translation from HomePASS -----

  function Windows(rules: seq<Rule>): set<(int, int)> {
    set i | 0 <= i < |rules| :: (rules[i].start, rules[i].end)
  }

  function Days(rules: seq<Rule>): set<int> {
    set i | 0 <= i < |rules| :: rules[i].day as int
  }

  function Translate(s: Schedule): Result<Authorization, AuthorizationError> {
    var rules := s.weeklyRules;
    var days := Days(rules);
    if |Windows(rules)| > 1 then Err(SeveralWindows)
    else if rules == [] then MakeAuthorization(s.validFrom, s.validUntil, days, None, None)
    else if rules[0].end <= rules[0].start then Err(OvernightWindow)
    else MakeAuthorization(s.validFrom, s.validUntil, days, Some(rules[0].start), Some(rules[0].end))
  }

  /** What a keypad holding the authorization lets through at an instant and its local reading. */
  predicate Admits(a: Authorization, instant: int, local: Local) {
    && (a.validFrom.Some? ==> a.validFrom.value <= instant)
    && (a.validUntil.Some? ==> instant < a.validUntil.value)
    && (a.weekdays == {} || local.day in a.weekdays)
    && (a.fromMinute.Some? && a.untilMinute.Some? ==>
          a.fromMinute.value <= local.micros / MICROS_PER_MINUTE < a.untilMinute.value)
  }

  ghost predicate OneDaytimeWindow(rules: seq<Rule>) {
    forall i, j :: 0 <= i < |rules| && 0 <= j < |rules| ==>
      rules[i].start == rules[j].start < rules[i].end == rules[j].end
  }

  lemma {:induction false} WindowsCount(rules: seq<Rule>)
    requires rules != []
    ensures |Windows(rules)| <= 1
            <==> forall i :: 0 <= i < |rules| ==> rules[i].start == rules[0].start && rules[i].end == rules[0].end
  {
    var w := Windows(rules);
    var first := (rules[0].start as int, rules[0].end as int);
    assert first in w;
    if |w| <= 1 {
      assert |w - {first}| == 0;
      assert w == {first};
      forall i | 0 <= i < |rules| ensures rules[i].start == rules[0].start && rules[i].end == rules[0].end {
        assert (rules[i].start as int, rules[i].end as int) in w;
      }
    }
    if forall i :: 0 <= i < |rules| ==> rules[i].start == rules[0].start && rules[i].end == rules[0].end {
      assert w == {first};
    }
  }

  lemma {:induction false} OneDaytimeIff(rules: seq<Rule>)
    requires rules != []
    ensures OneDaytimeWindow(rules) <==> |Windows(rules)| <= 1 && rules[0].start < rules[0].end
  {
    WindowsCount(rules);
  }

  lemma {:induction false} DaysFit(rules: seq<Rule>)
    ensures forall day :: day in Days(rules) ==> 1 <= day <= 7
    ensures Days(rules) == {} <==> rules == []
  {
    if rules != [] { assert rules[0].day as int in Days(rules); }
  }

  /** Translation succeeds exactly for schedules whose rules share one same-day window. */
  lemma {:induction false} TranslateSucceedsIff(s: Schedule)
    requires IsSchedule(s)
    ensures Translate(s).Ok? <==> OneDaytimeWindow(s.weeklyRules)
  {
    ScheduleFacts(s);
    RecordTranslatesIff(s);
  }

  /** Otherwise its rules have several windows, or one that runs into the next day. */
  lemma {:induction false} TranslateRefusedBecause(s: Schedule)
    requires IsSchedule(s)
    ensures var rules, r := s.weeklyRules, Translate(s);
            && (r == Err(SeveralWindows) <==>
                  exists i :: 0 <= i < |rules| && (rules[i].start, rules[i].end) != (rules[0].start, rules[0].end))
            && (r.Err? ==> r.error in {SeveralWindows, OvernightWindow})
  {
    ScheduleFacts(s);
    RecordTranslatesIff(s);
    DaysFit(s.weeklyRules);
    if s.weeklyRules == [] { assert Windows(s.weeklyRules) == {}; } else { WindowsCount(s.weeklyRules); }
  }

  lemma {:induction false} RecordTranslatesIff(s: Schedule)
    requires s.validFrom.Some? && s.validUntil.Some? ==> s.validFrom.value < s.validUntil.value
    ensures Translate(s).Ok? <==> OneDaytimeWindow(s.weeklyRules)
  {
    var rules := s.weeklyRules;
    DaysFit(rules);
    if rules == [] {
      assert Windows(rules) == {};
    } else {
      OneDaytimeIff(rules);
    }
  }

  /**
   A successful translation admits exactly the instants at which the schedule, enabled, evaluates
   ACTIVE; the provider form does not carry the enabled flag.
   */
  lemma {:induction false} TranslationPreservesMeaning(s: Schedule, instant: int, t: Local)
    requires Translate(s).Ok? && ValidLocal(t)
    ensures Admits(Translate(s).value, instant, t) <==> EvaluateAt(s.(enabled := true), instant, t).Active?
  {
    var rules := s.weeklyRules;
    DaysFit(rules);
    if rules != [] {
      WindowsCount(rules);
      WindowAdmitsIff(rules, t);
    }
  }

  lemma {:induction false} TranslatedIsAuthorization(s: Schedule)
    requires Translate(s).Ok?
    ensures IsAuthorization(Translate(s).value)
  {
  }

  /** Rules sharing one same-day window match exactly on their days within that window. */
  lemma {:induction false} WindowAdmitsIff(rules: seq<Rule>, t: Local)
    requires rules != [] && rules[0].start < rules[0].end && ValidLocal(t)
    requires forall i :: 0 <= i < |rules| ==> rules[i].start == rules[0].start && rules[i].end == rules[0].end
    ensures (exists i :: 0 <= i < |rules| && RuleMatches(rules[i], t))
            <==> t.day as int in Days(rules) && rules[0].start <= t.micros / MICROS_PER_MINUTE < rules[0].end
  {
    MicrosAreMinutes(t.micros, rules[0].start);
    MicrosAreMinutes(t.micros, rules[0].end);
    if i :| 0 <= i < |rules| && RuleMatches(rules[i], t) {
      assert rules[i].day as int in Days(rules);
    }
    if t.day as int in Days(rules) && rules[0].start <= t.micros / MICROS_PER_MINUTE < rules[0].end {
      var i :| 0 <= i < |rules| && rules[i].day as int == t.day;
      assert RuleMatches(rules[i], t);
    }
  }

  // ----- the Nuki web payload -----

  datatype NukiPayload = NukiPayload(
    fromDate: Option<int>,
    untilDate: Option<int>,
    weekDays: Option<int>,
    fromTime: Option<int>,
    untilTime: Option<int>)

  const MICROS_PER_MILLI := 1000

  /** Dates are sent as ISO text with milliseconds; the rest is cut off. */
  function NukiDate(instant: int): int {
    instant - instant % MICROS_PER_MILLI
  }

  function MapDate(d: Option<int>, f: int -> int): Option<int> {
    if d.Some? then Some(f(d.value)) else None
  }

  function WeekdayBit(day: int): int
    requires 1 <= day <= 7
  {
    [64, 32, 16, 8, 4, 2, 1][day - 1]
  }

  function BitIf(day: int, days: set<int>): int
    requires 1 <= day <= 7
  {
    if day in days then WeekdayBit(day) else 0
  }

  function WeekdayMask(days: set<int>): int {
    BitIf(1, days) + BitIf(2, days) + BitIf(3, days) + BitIf(4, days)
    + BitIf(5, days) + BitIf(6, days) + BitIf(7, days)
  }

  function EncodeNuki(a: Authorization): NukiPayload {
    NukiPayload(
      MapDate(a.validFrom, NukiDate),
      MapDate(a.validUntil, NukiDate),
      if a.weekdays != {} then Some(WeekdayMask(a.weekdays)) else None,
      a.fromMinute,
      if a.fromMinute.Some? then a.untilMinute else None)
  }

  /** `mask & bit` for a one-bit `bit`. */
  predicate HasBit(mask: int, bit: int)
    requires bit > 0
  {
    mask / bit % 2 == 1
  }

  function DecodeNuki(raw: NukiPayload): Result<Authorization, AuthorizationError> {
    var mask := if raw.weekDays.Some? then raw.weekDays.value else 0;
    var timed := raw.fromTime.Some? && raw.untilTime.Some? && raw.fromTime != raw.untilTime;
    MakeAuthorization(
      raw.fromDate,
      raw.untilDate,
      if timed then set day | 1 <= day <= 7 && HasBit(mask, WeekdayBit(day)) else {},
      if timed then raw.fromTime else None,
      if timed then raw.untilTime else None)
  }

  /** A recurring part both encodings can carry: weekdays only with a window, and not an empty one. */
  predicate RecurringEncodable(a: Authorization) {
    if a.fromMinute.None? then a.weekdays == {} else a.fromMinute != a.untilMinute
  }

  predicate WholeMillis(d: Option<int>) {
    d.Some? ==> d.value % MICROS_PER_MILLI == 0
  }

  /** The binary digit of a weekday, spelled out. */
  predicate Digit(mask: int, day: int) {
    if day == 1 then mask / 64 % 2 == 1
    else if day == 2 then mask / 32 % 2 == 1
    else if day == 3 then mask / 16 % 2 == 1
    else if day == 4 then mask / 8 % 2 == 1
    else if day == 5 then mask / 4 % 2 == 1
    else if day == 6 then mask / 2 % 2 == 1
    else mask / 1 % 2 == 1
  }

  lemma {:induction false} BitIsDigit(mask: int, bit: int, day: int)
    requires 1 <= day <= 7 && bit == WeekdayBit(day)
    ensures HasBit(mask, bit) <==> Digit(mask, day)
  {
    if day == 1 { assert bit == 64; }
    else if day == 2 { assert bit == 32; }
    else if day == 3 { assert bit == 16; }
    else if day == 4 { assert bit == 8; }
    else if day == 5 { assert bit == 4; }
    else if day == 6 { assert bit == 2; }
    else { assert bit == 1; }
  }

  lemma {:induction false} MaskRecovers(days: set<int>, day: int)
    requires 1 <= day <= 7
    ensures HasBit(WeekdayMask(days), WeekdayBit(day)) <==> day in days
  {
    BitIsDigit(WeekdayMask(days), WeekdayBit(day), day);
    BinaryDigits(One(1, days), One(2, days), One(3, days), One(4, days), One(5, days), One(6, days), One(7, days));
    MaskIsSum(days);
  }

  lemma {:induction false} MaskIsSum(days: set<int>)
    ensures WeekdayMask(days) == 64 * One(1, days) + 32 * One(2, days) + 16 * One(3, days) + 8 * One(4, days)
                                 + 4 * One(5, days) + 2 * One(6, days) + One(7, days)
  {
  }

  function One(day: int, days: set<int>): int {
    if day in days then 1 else 0
  }

  /** Each binary digit of a seven-bit number is read back by dividing by its weight. */
  lemma {:induction false} BinaryDigits(b1: int, b2: int, b3: int, b4: int, b5: int, b6: int, b7: int)
    requires 0 <= b1 <= 1 && 0 <= b2 <= 1 && 0 <= b3 <= 1 && 0 <= b4 <= 1
    requires 0 <= b5 <= 1 && 0 <= b6 <= 1 && 0 <= b7 <= 1
    ensures var m := 64 * b1 + 32 * b2 + 16 * b3 + 8 * b4 + 4 * b5 + 2 * b6 + b7;
            m / 64 % 2 == b1 && m / 32 % 2 == b2 && m / 16 % 2 == b3 && m / 8 % 2 == b4
            && m / 4 % 2 == b5 && m / 2 % 2 == b6 && m / 1 % 2 == b7
  {
    var m := 64 * b1 + 32 * b2 + 16 * b3 + 8 * b4 + 4 * b5 + 2 * b6 + b7;
    assert m / 64 == b1;
    assert m / 32 == 2 * b1 + b2;
    assert m / 16 == 4 * b1 + 2 * b2 + b3;
    assert m / 8 == 8 * b1 + 4 * b2 + 2 * b3 + b4;
    assert m / 4 == 16 * b1 + 8 * b2 + 4 * b3 + 2 * b4 + b5;
    assert m / 2 == 32 * b1 + 16 * b2 + 8 * b3 + 4 * b4 + 2 * b5 + b6;
  }

  lemma {:induction false} MaskRecoversSet(days: set<int>)
    requires forall day :: day in days ==> 1 <= day <= 7
    ensures (set day | 1 <= day <= 7 && HasBit(WeekdayMask(days), WeekdayBit(day))) == days
  {
    forall day: int | 1 <= day <= 7
      ensures HasBit(WeekdayMask(days), WeekdayBit(day)) <==> day in days
    {
      MaskRecovers(days, day);
    }
  }

  /** What is sent: the dates to the millisecond below, a bit for each weekday from Monday's 64 down, the window. */
  lemma {:induction false} NukiPayloadMeans(a: Authorization)
    requires IsAuthorization(a)
    ensures var raw := EncodeNuki(a);
            && DateSent(a.validFrom, raw.fromDate) && DateSent(a.validUntil, raw.untilDate)
            && raw.fromTime == a.fromMinute && raw.untilTime == a.untilMinute
            && (raw.weekDays.None? <==> a.weekdays == {})
            && (raw.weekDays.Some? ==>
                  forall day :: 1 <= day <= 7 ==> (Digit(raw.weekDays.value, day) <==> day in a.weekdays))
  {
    forall day | 1 <= day <= 7 ensures Digit(WeekdayMask(a.weekdays), day) <==> day in a.weekdays {
      MaskRecovers(a.weekdays, day);
      BitIsDigit(WeekdayMask(a.weekdays), WeekdayBit(day), day);
    }
  }

  /** What any payload is read as: weekdays and window together, when both times are there and differ. */
  lemma {:induction false} NukiReadingMeans(raw: NukiPayload)
    requires DecodeNuki(raw).Ok?
    ensures var a := DecodeNuki(raw).value;
            var timed := raw.fromTime.Some? && raw.untilTime.Some? && raw.fromTime.value != raw.untilTime.value;
            && a.validFrom == raw.fromDate && a.validUntil == raw.untilDate
            && (a.fromMinute, a.untilMinute) == (if timed then (raw.fromTime, raw.untilTime) else (None, None))
            && forall day :: day in a.weekdays <==>
                 timed && 1 <= day <= 7 && raw.weekDays.Some? && Digit(raw.weekDays.value, day)
  {
    forall mask, day | 1 <= day <= 7 ensures HasBit(mask, WeekdayBit(day)) <==> Digit(mask, day) {
      BitIsDigit(mask, WeekdayBit(day), day);
    }
    forall day ensures !Digit(0, day) {
    }
  }

  predicate DateSent(d: Option<int>, sent: Option<int>) {
    if d.None? then sent.None? else sent.Some? && sent.value % 1000 == 0 && 0 <= d.value - sent.value < 1000
  }

  /** Reading back a web payload returns the authorization exactly under this condition. */
  lemma {:induction false} NukiRoundTripIff(a: Authorization)
    requires IsAuthorization(a)
    ensures DecodeNuki(EncodeNuki(a)) == Ok(a)
            <==> RecurringEncodable(a) && WholeMillis(a.validFrom) && WholeMillis(a.validUntil)
  {
    MaskRecoversSet(a.weekdays);
    var raw := EncodeNuki(a);
    var decoded := DecodeNuki(raw);
    if a.weekdays == {} {
      assert (set day | 1 <= day <= 7 && HasBit(0, WeekdayBit(day))) == {};
    }
    if decoded == Ok(a) {
      assert raw.fromDate == a.validFrom && raw.untilDate == a.validUntil;
    }
  }

  // ----- the Nuki Bluetooth keypad payload -----

  /** Naive local dates 2000-01-01T00:00:00 and 2099-12-31T23:59:59 stand for "no bound". */
  const MIN_DATE := 946_684_800_000_000
  const MAX_DATE := 4_102_444_799_000_000

  datatype Clock = Clock(hour: int, minute: int)

  datatype KeypadPayload = KeypadPayload(
    timeLimited: bool,
    fromDate: int,
    untilDate: int,
    weekdays: map<int, bool>,
    fromTime: Clock,
    untilTime: Clock)

  function LocalNaive(d: Option<int>, offset: int, sentinel: int): int {
    if d.Some? then d.value + offset else sentinel
  }

  function TimePayload(m: Option<int>): Clock {
    var minutes := if m.Some? then m.value else 0;
    Clock(minutes / 60, minutes % 60)
  }

  function EncodeKeypad(a: Authorization, offset: int): KeypadPayload {
    KeypadPayload(
      a.validFrom.Some? || a.validUntil.Some? || a.fromMinute.Some? || a.weekdays != {},
      LocalNaive(a.validFrom, offset, MIN_DATE),
      LocalNaive(a.validUntil, offset, MAX_DATE),
      map day: int | 1 <= day <= 7 :: day in a.weekdays,
      TimePayload(a.fromMinute),
      TimePayload(a.untilMinute))
  }

  function DecodeKeypad(raw: KeypadPayload, offset: int): Result<Authorization, AuthorizationError>
  {
    if !raw.timeLimited then Ok(UNRESTRICTED)
    else
      var from := raw.fromTime.hour * 60 + raw.fromTime.minute;
      var until := raw.untilTime.hour * 60 + raw.untilTime.minute;
      MakeAuthorization(
        if raw.fromDate <= MIN_DATE then None else Some(raw.fromDate - offset),
        if raw.untilDate >= MAX_DATE then None else Some(raw.untilDate - offset),
        if from != until then set day | day in raw.weekdays && raw.weekdays[day] else {},
        if from != until then Some(from) else None,
        if from != until then Some(until) else None)
  }

  predicate InsideSentinels(a: Authorization, offset: int) {
    && (a.validFrom.Some? ==> MIN_DATE < a.validFrom.value + offset)
    && (a.validUntil.Some? ==> a.validUntil.value + offset < MAX_DATE)
  }

  /** What is sent: local dates with sentinels for no bound, a flag for each weekday, and clock times. */
  lemma {:induction false} KeypadPayloadMeans(a: Authorization, offset: int)
    requires IsAuthorization(a)
    ensures var raw := EncodeKeypad(a, offset);
            && (raw.timeLimited <==> a != UNRESTRICTED)
            && (raw.fromDate == if a.validFrom.Some? then a.validFrom.value + offset else MIN_DATE)
            && (raw.untilDate == if a.validUntil.Some? then a.validUntil.value + offset else MAX_DATE)
            && raw.weekdays.Keys == {1, 2, 3, 4, 5, 6, 7}
            && (forall day :: day in raw.weekdays ==> (raw.weekdays[day] <==> day in a.weekdays))
            && ClockShows(raw.fromTime, a.fromMinute) && ClockShows(raw.untilTime, a.untilMinute)
  {
    if a.fromMinute.Some? { assert MinuteOfDay(a.fromMinute) && MinuteOfDay(a.untilMinute); }
  }

  predicate ClockShows(t: Clock, m: Option<int>) {
    0 <= t.hour < 24 && 0 <= t.minute < 60 && t.hour * 60 + t.minute == if m.Some? then m.value else 0
  }

  /** Reading back a keypad payload returns the authorization exactly under this condition. */
  lemma {:induction false} KeypadRoundTripIff(a: Authorization, offset: int)
    requires IsAuthorization(a)
    ensures DecodeKeypad(EncodeKeypad(a, offset), offset) == Ok(a)
            <==> RecurringEncodable(a) && InsideSentinels(a, offset)
  {
    var raw := EncodeKeypad(a, offset);
    var days := set day | day in raw.weekdays && raw.weekdays[day];
    assert days == a.weekdays;
    TimeRoundTrip(a.fromMinute);
    TimeRoundTrip(a.untilMinute);
  }

  lemma {:induction false} TimeRoundTrip(m: Option<int>)
    ensures TimePayload(m).hour * 60 + TimePayload(m).minute == if m.Some? then m.value else 0
  {
  }

  /**
   A schedule HomePASS can translate at all keeps its meaning through either encoding, as long as
   its validity dates are representable there.
   */
  lemma {:induction false} TranslatedSchedulesSurvive(s: Schedule, offset: int)
    requires Translate(s).Ok?
    ensures WholeMillis(s.validFrom) && WholeMillis(s.validUntil) ==>
              DecodeNuki(EncodeNuki(Translate(s).value)) == Translate(s)
    ensures InsideSentinels(Translate(s).value, offset) ==>
              DecodeKeypad(EncodeKeypad(Translate(s).value, offset), offset) == Translate(s)
  {
    var a := Translate(s).value;
    DaysFit(s.weeklyRules);
    TranslatedIsAuthorization(s);
    if s.weeklyRules != [] { assert a.fromMinute.Some?; }
    assert IsAuthorization(a) && RecurringEncodable(a);
    NukiRoundTripIff(a);
    KeypadRoundTripIff(a, offset);
  }
}
