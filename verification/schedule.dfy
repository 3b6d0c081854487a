/**
 Weekly schedules (models/schedule.py) and their evaluation (models/schedule_evaluation.py).

 A rule names an ISO weekday and a local start and end minute; an end at or before the start
 means the following day. The repository handles rules in two unrelated ways: validation cuts
 them into non-wrapping segments of the ISO week and looks at sorted neighbours, evaluation
 compares weekday and time of day. `Covers` is a third, independent reading on the cyclic week,
 and both are proved to agree with it.
 */
module Schedules {
  import opened Results

  const MINUTES_PER_DAY := 1440
  const WEEK := 10080
  const MICROS_PER_MINUTE := 60_000_000

  type Weekday = d: int | 1 <= d <= 7 witness 1
  type Minute = m: int | 0 <= m < 1440

  datatype RawRule = WeeklyRule(day: Weekday, start: Minute, end: Minute)

  /** A constructed WeeklyRule: start and end differ. */
  type Rule = r: RawRule | r.start != r.end witness WeeklyRule(1, 0, 1)

  datatype Segment = Segment(start: int, end: int)

  /** A time of week is a weekday and microseconds since local midnight. */
  datatype Local = Local(day: Weekday, micros: int)

  ghost predicate ValidLocal(t: Local) {
    0 <= t.micros < MINUTES_PER_DAY * MICROS_PER_MINUTE
  }

  // ----- the code: segments, sorting, validation -----

  function RuleStart(r: Rule): int {
    (r.day - 1) * MINUTES_PER_DAY + r.start
  }

  function RuleSegments(r: Rule): seq<Segment> {
    var start := RuleStart(r);
    var sameDayEnd := (r.day - 1) * MINUTES_PER_DAY + r.end;
    var end := if sameDayEnd <= start then sameDayEnd + MINUTES_PER_DAY else sameDayEnd;
    if end <= WEEK then [Segment(start, end)]
    else [Segment(start, WEEK), Segment(0, end - WEEK)]
  }

  function AllSegments(rules: seq<Rule>): seq<Segment> {
    if rules == [] then [] else RuleSegments(rules[0]) + AllSegments(rules[1..])
  }

  /** Tuple order on segments. */
  predicate SegmentLeq(a: Segment, b: Segment) {
    a.start < b.start || (a.start == b.start && a.end <= b.end)
  }

  function InsertSegment(x: Segment, s: seq<Segment>): seq<Segment> {
    if s == [] then [x]
    else if SegmentLeq(x, s[0]) then [x] + s
    else [s[0]] + InsertSegment(x, s[1..])
  }

  function SortSegments(s: seq<Segment>): seq<Segment> {
    if s == [] then [] else InsertSegment(s[0], SortSegments(s[1..]))
  }

  predicate HasDuplicates(rules: seq<Rule>) {
    exists i, j :: 0 <= i < j < |rules| && rules[i] == rules[j]
  }

  predicate NeighboursOverlap(s: seq<Segment>) {
    exists i :: 0 < i < |s| && s[i].start < s[i - 1].end
  }

  datatype ScheduleError = DuplicateRules | OverlappingRules | EmptyValidity | UpdatedBeforeCreated

  function ValidateRules(rules: seq<Rule>): Result<(), ScheduleError> {
    if HasDuplicates(rules) then Err(DuplicateRules)
    else if NeighboursOverlap(SortSegments(AllSegments(rules))) then Err(OverlappingRules)
    else Ok(())
  }

  // ----- the code: the Schedule constructor -----

  predicate RuleLeq(a: Rule, b: Rule) {
    a.day < b.day
    || (a.day == b.day && (a.start < b.start || (a.start == b.start && a.end <= b.end)))
  }

  function InsertRule(x: Rule, s: seq<Rule>): seq<Rule> {
    if s == [] then [x]
    else if RuleLeq(x, s[0]) then [x] + s
    else [s[0]] + InsertRule(x, s[1..])
  }

  function SortRules(s: seq<Rule>): seq<Rule> {
    if s == [] then [] else InsertRule(s[0], SortRules(s[1..]))
  }

  /** Instants are microseconds UTC. Name, revision and identifier play no part below. */
  datatype Schedule = Schedule(
    enabled: bool,
    validFrom: Option<int>,
    validUntil: Option<int>,
    weeklyRules: seq<Rule>,
    createdAt: int,
    updatedAt: int)

  function MakeSchedule(enabled: bool, validFrom: Option<int>, validUntil: Option<int>,
                        rules: seq<Rule>, createdAt: int, updatedAt: int)
    : Result<Schedule, ScheduleError>
  {
    var sorted := SortRules(rules);
    var checked := ValidateRules(sorted);
    if checked.Err? then Err(checked.error)
    else if validFrom.Some? && validUntil.Some? && validUntil.value <= validFrom.value then
      Err(EmptyValidity)
    else if updatedAt < createdAt then Err(UpdatedBeforeCreated)
    else Ok(Schedule(enabled, validFrom, validUntil, sorted, createdAt, updatedAt))
  }

  // ----- the code: evaluation -----

  datatype Evaluation = Active | Disabled | NotYetValid | Expired | OutsideWeeklyRule

  predicate RuleMatches(r: Rule, t: Local) {
    if r.start < r.end then
      t.day == r.day
      && r.start * MICROS_PER_MINUTE <= t.micros < r.end * MICROS_PER_MINUTE
    else
      (t.day == r.day && t.micros >= r.start * MICROS_PER_MINUTE)
      || (t.day == r.day % 7 + 1 && t.micros < r.end * MICROS_PER_MINUTE)
  }

  /** `local` is the reading of `instant` in the schedule's time zone. */
  function EvaluateAt(s: Schedule, instant: int, local: Local): Evaluation {
    if !s.enabled then Disabled
    else if s.validFrom.Some? && instant < s.validFrom.value then NotYetValid
    else if s.validUntil.Some? && instant >= s.validUntil.value then Expired
    else if s.weeklyRules == [] then Active
    else if exists i :: 0 <= i < |s.weeklyRules| && RuleMatches(s.weeklyRules[i], local) then Active
    else OutsideWeeklyRule
  }

  function Evaluate(s: Schedule, zone: int -> Local, instant: int): Evaluation {
    EvaluateAt(s, instant, zone(instant))
  }

  // ----- the reference: rules on the cyclic week -----

  /** Minutes from start to end, going forward at most one day. */
  function Length(r: Rule): int {
    (r.end - r.start) % MINUTES_PER_DAY
  }

  /** Minute `m` of the week lies within `Length` minutes after the rule's start, cyclically. */
  predicate Covers(r: Rule, m: int) {
    (m - RuleStart(r)) % WEEK < Length(r)
  }

  function MinuteOfWeek(t: Local): int {
    (t.day - 1) * MINUTES_PER_DAY + t.micros / MICROS_PER_MINUTE
  }

  predicate Inside(m: int, g: Segment) {
    g.start <= m < g.end
  }

  /** How many of the segments contain `m`. */
  function CountIn(s: seq<Segment>, m: int): nat {
    if s == [] then 0 else (if Inside(m, s[0]) then 1 else 0) + CountIn(s[1..], m)
  }

  /** How many of the rules cover `m`. */
  function CountCovering(rules: seq<Rule>, m: int): nat {
    if rules == [] then 0 else (if Covers(rules[0], m) then 1 else 0) + CountCovering(rules[1..], m)
  }

  ghost predicate Disjoint(rules: seq<Rule>) {
    forall i, j, m :: 0 <= i < j < |rules| && 0 <= m < WEEK ==> !(Covers(rules[i], m) && Covers(rules[j], m))
  }

  // ----- segments and evaluation agree with the reference -----

  /** A segment list of one rule contains each minute it covers exactly once and no other. */
  lemma {:induction false} SegmentsMeanCovers(r: Rule, m: int)
    requires 0 <= m < WEEK
    ensures CountIn(RuleSegments(r), m) == if Covers(r, m) then 1 else 0
  {
    var start := RuleStart(r);
    var segs := RuleSegments(r);
    var end := start + Length(r);
    assert Length(r) == if r.end > r.start then r.end - r.start else r.end - r.start + MINUTES_PER_DAY;
    if end <= WEEK {
      assert segs == [Segment(start, end)];
      assert CountIn(segs[1..], m) == 0;
    } else {
      assert segs == [Segment(start, WEEK), Segment(0, end - WEEK)];
      assert segs[1..] == [Segment(0, end - WEEK)];
      assert CountIn(segs[1..][1..], m) == 0;
    }
    if m >= start {
      assert (m - start) % WEEK == m - start;
    } else {
      assert (m - start) % WEEK == m - start + WEEK;
    }
  }

  /** `RuleMatches` on whole minutes. */
  predicate MinuteMatches(r: Rule, day: int, minute: int) {
    if r.start < r.end then day == r.day && r.start <= minute < r.end
    else (day == r.day && minute >= r.start) || (day == r.day % 7 + 1 && minute < r.end)
  }

  lemma {:induction false} MatchesOnMinutes(r: Rule, t: Local)
    requires ValidLocal(t)
    ensures 0 <= t.micros / MICROS_PER_MINUTE < MINUTES_PER_DAY
    ensures RuleMatches(r, t) <==> MinuteMatches(r, t.day, t.micros / MICROS_PER_MINUTE)
  {
    MicrosAreMinutes(t.micros, r.start);
    MicrosAreMinutes(t.micros, r.end);
    MicrosAreMinutes(t.micros, MINUTES_PER_DAY);
  }

  lemma {:induction false} CyclicOffset(x: int)
    requires -WEEK < x < WEEK
    ensures x % WEEK == if x >= 0 then x else x + WEEK
  {
  }

  lemma {:induction false} RuleLength(r: Rule)
    ensures Length(r) == if r.end > r.start then r.end - r.start else r.end - r.start + MINUTES_PER_DAY
  {
  }

  lemma {:induction false} MinuteMatchesIffCovers(r: Rule, day: int, minute: int)
    requires 1 <= day <= 7 && 0 <= minute < MINUTES_PER_DAY
    ensures MinuteMatches(r, day, minute) <==> Covers(r, (day - 1) * MINUTES_PER_DAY + minute)
  {
    RuleLength(r);
    CyclicOffset((day - 1) * MINUTES_PER_DAY + minute - RuleStart(r));
  }

  /** Evaluation's weekday-and-time comparison is exactly cyclic cover of the minute of the week. */
  lemma {:induction false} MatchesIffCovers(r: Rule, t: Local)
    requires ValidLocal(t)
    ensures 0 <= MinuteOfWeek(t) < WEEK
    ensures RuleMatches(r, t) <==> Covers(r, MinuteOfWeek(t))
  {
    MatchesOnMinutes(r, t);
    MinuteMatchesIffCovers(r, t.day, t.micros / MICROS_PER_MINUTE);
  }

  lemma {:induction false} MicrosAreMinutes(micros: int, bound: int)
    requires 0 <= micros
    ensures micros < bound * MICROS_PER_MINUTE <==> micros / MICROS_PER_MINUTE < bound
  {
  }

  lemma {:induction false} CountInConcat(a: seq<Segment>, b: seq<Segment>, m: int)
    ensures CountIn(a + b, m) == CountIn(a, m) + CountIn(b, m)
  {
    if a == [] {
      assert a + b == b;
    } else {
      assert (a + b)[1..] == a[1..] + b;
      CountInConcat(a[1..], b, m);
    }
  }

  lemma {:induction false} AllSegmentsCountCovering(rules: seq<Rule>, m: int)
    requires 0 <= m < WEEK
    ensures CountIn(AllSegments(rules), m) == CountCovering(rules, m)
  {
    if rules != [] {
      SegmentsMeanCovers(rules[0], m);
      CountInConcat(RuleSegments(rules[0]), AllSegments(rules[1..]), m);
      AllSegmentsCountCovering(rules[1..], m);
    }
  }

  // ----- the sorted-neighbour test decides disjointness -----

  /** Each neighbour in order. */
  ghost predicate SegmentsSorted(s: seq<Segment>) {
    |s| > 1 ==> SegmentLeq(s[0], s[1]) && SegmentsSorted(s[1..])
  }

  ghost predicate WellFormed(s: seq<Segment>) {
    forall i :: 0 <= i < |s| ==> 0 <= s[i].start < s[i].end <= WEEK
  }

  lemma {:induction false} InsertedSegments(x: Segment, s: seq<Segment>)
    ensures multiset(InsertSegment(x, s)) == multiset(s) + multiset{x}
  {
    if s != [] && !SegmentLeq(x, s[0]) {
      var rest := s[1..];
      InsertedSegments(x, rest);
      assert s == [s[0]] + rest;
      assert InsertSegment(x, s) == [s[0]] + InsertSegment(x, rest);
    }
  }

  lemma {:induction false} InsertKeepsSegmentsSorted(x: Segment, s: seq<Segment>)
    requires SegmentsSorted(s)
    ensures SegmentsSorted(InsertSegment(x, s))
  {
    var t := InsertSegment(x, s);
    if s == [] {
    } else if SegmentLeq(x, s[0]) {
      assert t[1..] == s;
    } else {
      InsertKeepsSegmentsSorted(x, s[1..]);
      assert t[1..] == InsertSegment(x, s[1..]);
    }
  }

  lemma {:induction false} SortedSegments(s: seq<Segment>)
    ensures SegmentsSorted(SortSegments(s))
  {
    if s != [] {
      SortedSegments(s[1..]);
      InsertKeepsSegmentsSorted(s[0], SortSegments(s[1..]));
    }
  }

  lemma {:induction false} PermutedSegments(s: seq<Segment>)
    ensures multiset(SortSegments(s)) == multiset(s)
  {
    if s != [] {
      PermutedSegments(s[1..]);
      InsertedSegments(s[0], SortSegments(s[1..]));
      assert s == [s[0]] + s[1..];
    }
  }

  lemma {:induction false} InsertedSegmentCount(x: Segment, s: seq<Segment>, m: int)
    ensures CountIn(InsertSegment(x, s), m) == (if Inside(m, x) then 1 else 0) + CountIn(s, m)
  {
    var t := InsertSegment(x, s);
    if s == [] {
      assert t[1..] == [];
    } else if SegmentLeq(x, s[0]) {
      assert t[1..] == s;
    } else {
      InsertedSegmentCount(x, s[1..], m);
      assert t[1..] == InsertSegment(x, s[1..]);
    }
  }

  lemma {:induction false} SortedSegmentCount(s: seq<Segment>, m: int)
    ensures CountIn(SortSegments(s), m) == CountIn(s, m)
  {
    if s != [] {
      SortedSegmentCount(s[1..], m);
      InsertedSegmentCount(s[0], SortSegments(s[1..]), m);
    }
  }

  lemma {:induction false} SortedNeighbours(s: seq<Segment>, i: nat)
    requires SegmentsSorted(s) && 0 < i < |s|
    ensures SegmentLeq(s[i - 1], s[i])
  {
    if i > 1 { SortedNeighbours(s[1..], i - 1); }
  }

  lemma {:induction false} CountInPositive(s: seq<Segment>, i: int, m: int)
    requires 0 <= i < |s| && Inside(m, s[i])
    ensures CountIn(s, m) >= 1
  {
    if i > 0 { CountInPositive(s[1..], i - 1, m); }
  }

  lemma {:induction false} CountInTwice(s: seq<Segment>, i: int, j: int, m: int)
    requires 0 <= i < j < |s| && Inside(m, s[i]) && Inside(m, s[j])
    ensures CountIn(s, m) >= 2
  {
    if i == 0 { CountInPositive(s[1..], j - 1, m); }
    else { CountInTwice(s[1..], i - 1, j - 1, m); }
  }

  lemma {:induction false} CountInZero(s: seq<Segment>, m: int)
    requires forall i :: 0 <= i < |s| ==> !Inside(m, s[i])
    ensures CountIn(s, m) == 0
  {
    if s != [] { CountInZero(s[1..], m); }
  }

  /** Neighbours that do not overlap leave every later segment after every earlier one. */
  lemma {:induction false} NeighboursSuffice(s: seq<Segment>, i: int, j: int)
    requires WellFormed(s) && !NeighboursOverlap(s)
    requires 0 <= i < j < |s|
    ensures s[i].end <= s[j].start
    decreases j - i
  {
    assert !(s[j].start < s[j - 1].end);
    if i < j - 1 {
      NeighboursSuffice(s, i, j - 1);
    }
  }

  lemma {:induction false} NoOverlapCountsOnce(s: seq<Segment>, m: int)
    requires WellFormed(s) && !NeighboursOverlap(s)
    ensures CountIn(s, m) <= 1
  {
    if s != [] {
      if Inside(m, s[0]) {
        forall j | 0 <= j < |s[1..]| ensures !Inside(m, s[1..][j]) {
          NeighboursSuffice(s, 0, j + 1);
        }
        CountInZero(s[1..], m);
      } else {
        assert !NeighboursOverlap(s[1..]) by {
          forall i | 0 < i < |s[1..]| ensures !(s[1..][i].start < s[1..][i - 1].end) {
            assert !(s[i + 1].start < s[i].end);
          }
        }
        NoOverlapCountsOnce(s[1..], m);
      }
    }
  }

  /** On sorted non-empty segments an overlapping neighbour exhibits a minute counted twice. */
  lemma {:induction false} OverlapCountsTwice(s: seq<Segment>) returns (m: int)
    requires WellFormed(s) && SegmentsSorted(s) && NeighboursOverlap(s)
    ensures 0 <= m < WEEK && CountIn(s, m) >= 2
  {
    var i :| 0 < i < |s| && s[i].start < s[i - 1].end;
    m := s[i].start;
    SortedNeighbours(s, i);
    CountInTwice(s, i - 1, i, m);
  }

  lemma {:induction false} AllSegmentsWellFormed(rules: seq<Rule>)
    ensures WellFormed(AllSegments(rules))
  {
    if rules != [] {
      AllSegmentsWellFormed(rules[1..]);
    }
  }

  lemma {:induction false} WellFormedSorted(s: seq<Segment>)
    requires WellFormed(s)
    ensures WellFormed(SortSegments(s))
  {
    var t := SortSegments(s);
    PermutedSegments(s);
    forall i | 0 <= i < |t| ensures 0 <= t[i].start < t[i].end <= WEEK {
      assert t[i] in multiset(t);
      assert t[i] in s;
    }
  }

  lemma {:induction false} CoveringTwice(rules: seq<Rule>, i: int, j: int, m: int)
    requires 0 <= i < j < |rules| && Covers(rules[i], m) && Covers(rules[j], m)
    ensures CountCovering(rules, m) >= 2
  {
    if i == 0 { CoveringOnce(rules[1..], j - 1, m); }
    else { CoveringTwice(rules[1..], i - 1, j - 1, m); }
  }

  lemma {:induction false} CoveringOnce(rules: seq<Rule>, i: int, m: int)
    requires 0 <= i < |rules| && Covers(rules[i], m)
    ensures CountCovering(rules, m) >= 1
  {
    if i > 0 { CoveringOnce(rules[1..], i - 1, m); }
  }

  lemma {:induction false} CoveringSomewhere(rules: seq<Rule>, m: int) returns (i: int)
    requires CountCovering(rules, m) >= 1
    ensures 0 <= i < |rules| && Covers(rules[i], m)
  {
    if Covers(rules[0], m) { i := 0; }
    else { i := CoveringSomewhere(rules[1..], m); i := i + 1; }
  }

  lemma {:induction false} CoveringPair(rules: seq<Rule>, m: int) returns (i: int, j: int)
    requires CountCovering(rules, m) >= 2
    ensures 0 <= i < j < |rules| && Covers(rules[i], m) && Covers(rules[j], m)
  {
    if Covers(rules[0], m) {
      i := 0;
      j := CoveringSomewhere(rules[1..], m);
      j := j + 1;
    } else {
      i, j := CoveringPair(rules[1..], m);
      i, j := i + 1, j + 1;
    }
  }

  ghost predicate CountedOnce(rules: seq<Rule>) {
    forall m :: 0 <= m < WEEK ==> CountCovering(rules, m) <= 1
  }

  /** Disjointness is the same as counting every minute at most once. */
  lemma {:induction false} DisjointIffCountedOnce(rules: seq<Rule>)
    ensures Disjoint(rules) <==> CountedOnce(rules)
  {
    if !CountedOnce(rules) {
      var m :| 0 <= m < WEEK && CountCovering(rules, m) > 1;
      var i, j := CoveringPair(rules, m);
    }
    if !Disjoint(rules) {
      var i, j, m :| 0 <= i < j < |rules| && 0 <= m < WEEK && Covers(rules[i], m) && Covers(rules[j], m);
      CoveringTwice(rules, i, j, m);
    }
  }

  lemma {:induction false} SegmentTestIffCountedOnce(rules: seq<Rule>)
    ensures NeighboursOverlap(SortSegments(AllSegments(rules))) <==> !CountedOnce(rules)
  {
    var s := SortSegments(AllSegments(rules));
    AllSegmentsWellFormed(rules);
    WellFormedSorted(AllSegments(rules));
    SortedSegments(AllSegments(rules));
    if NeighboursOverlap(s) {
      var m := OverlapCountsTwice(s);
      SortedSegmentCount(AllSegments(rules), m);
      AllSegmentsCountCovering(rules, m);
      assert CountCovering(rules, m) > 1;
    } else {
      forall m | 0 <= m < WEEK ensures CountCovering(rules, m) <= 1 {
        NoOverlapCountsOnce(s, m);
        SortedSegmentCount(AllSegments(rules), m);
        AllSegmentsCountCovering(rules, m);
      }
    }
  }

  /** The duplicate test adds nothing: a repeated rule already overlaps itself. */
  lemma {:induction false} DuplicatesOverlap(rules: seq<Rule>)
    requires HasDuplicates(rules)
    ensures NeighboursOverlap(SortSegments(AllSegments(rules)))
  {
    var i, j :| 0 <= i < j < |rules| && rules[i] == rules[j];
    var m := RuleStart(rules[i]);
    assert (m - m) % WEEK == 0;
    assert Covers(rules[i], m);
    CoveringTwice(rules, i, j, m);
    SegmentTestIffCountedOnce(rules);
  }

  /** Validation accepts exactly the rule sequences that are pairwise disjoint on the cyclic week. */
  lemma {:induction false} ValidateRulesIffDisjoint(rules: seq<Rule>)
    ensures ValidateRules(rules).Ok? <==> Disjoint(rules)
    ensures ValidateRules(rules).Ok? <==> !NeighboursOverlap(SortSegments(AllSegments(rules)))
    ensures ValidateRules(rules) == Err(DuplicateRules)
            <==> exists i, j :: 0 <= i < j < |rules| && rules[i] == rules[j]
  {
    DisjointIffCountedOnce(rules);
    SegmentTestIffCountedOnce(rules);
    if HasDuplicates(rules) { DuplicatesOverlap(rules); }
  }

  // ----- canonical order -----

  ghost predicate RulesSorted(s: seq<Rule>) {
    |s| > 1 ==> RuleLeq(s[0], s[1]) && RulesSorted(s[1..])
  }

  lemma {:induction false} FirstIsLeast(s: seq<Rule>, j: nat)
    requires RulesSorted(s) && j < |s|
    ensures RuleLeq(s[0], s[j])
  {
    if j > 1 { FirstIsLeast(s[1..], j - 1); }
  }

  lemma {:induction false} InsertedRules(x: Rule, s: seq<Rule>)
    ensures multiset(InsertRule(x, s)) == multiset(s) + multiset{x}
  {
    if s != [] && !RuleLeq(x, s[0]) {
      var rest := s[1..];
      InsertedRules(x, rest);
      assert s == [s[0]] + rest;
      assert InsertRule(x, s) == [s[0]] + InsertRule(x, rest);
    }
  }

  lemma {:induction false} InsertKeepsRulesSorted(x: Rule, s: seq<Rule>)
    requires RulesSorted(s)
    ensures RulesSorted(InsertRule(x, s))
  {
    var t := InsertRule(x, s);
    if s == [] {
    } else if RuleLeq(x, s[0]) {
      assert t[1..] == s;
    } else {
      InsertKeepsRulesSorted(x, s[1..]);
      assert t[1..] == InsertRule(x, s[1..]);
    }
  }

  lemma {:induction false} SortedRules(s: seq<Rule>)
    ensures RulesSorted(SortRules(s))
  {
    if s != [] {
      SortedRules(s[1..]);
      InsertKeepsRulesSorted(s[0], SortRules(s[1..]));
    }
  }

  lemma {:induction false} PermutedRules(s: seq<Rule>)
    ensures multiset(SortRules(s)) == multiset(s)
  {
    if s != [] {
      PermutedRules(s[1..]);
      InsertedRules(s[0], SortRules(s[1..]));
      assert s == [s[0]] + s[1..];
    }
  }

  lemma {:induction false} LeastFirst(a: seq<Rule>, b: seq<Rule>)
    requires RulesSorted(a) && multiset(a) == multiset(b) && b != []
    ensures a != [] && RuleLeq(a[0], b[0])
  {
    assert b[0] in multiset(a);
    var j :| 0 <= j < |a| && a[j] == b[0];
    FirstIsLeast(a, j);
  }

  lemma {:induction false} TailMultiset(a: seq<Rule>)
    requires a != []
    ensures multiset(a[1..]) == multiset(a) - multiset{a[0]}
  {
    assert a == [a[0]] + a[1..];
  }

  lemma {:induction false} SameLeast(a: seq<Rule>, b: seq<Rule>)
    requires RulesSorted(a) && RulesSorted(b) && multiset(a) == multiset(b) && a != []
    ensures b != [] && a[0] == b[0]
  {
    assert a[0] in multiset(b);
    LeastFirst(a, b);
    LeastFirst(b, a);
  }

  lemma {:induction false} SortedPermutationsEqual(a: seq<Rule>, b: seq<Rule>)
    requires RulesSorted(a) && RulesSorted(b) && multiset(a) == multiset(b)
    ensures a == b
  {
    if a == [] {
      assert |multiset(b)| == 0;
    } else {
      SameLeast(a, b);
      TailMultiset(a);
      TailMultiset(b);
      SortedPermutationsEqual(a[1..], b[1..]);
      assert a == [a[0]] + a[1..] && b == [b[0]] + b[1..];
    }
  }

  /** The order in which rules are supplied never matters: same outcome, same record. */
  lemma {:induction false} SupplyOrderIrrelevant(enabled: bool, from: Option<int>, until: Option<int>,
                              a: seq<Rule>, b: seq<Rule>, createdAt: int, updatedAt: int)
    requires multiset(a) == multiset(b)
    ensures MakeSchedule(enabled, from, until, a, createdAt, updatedAt)
            == MakeSchedule(enabled, from, until, b, createdAt, updatedAt)
  {
    SortedRules(a);
    SortedRules(b);
    PermutedRules(a);
    PermutedRules(b);
    SortedPermutationsEqual(SortRules(a), SortRules(b));
  }

  lemma {:induction false} InsertedRuleCount(x: Rule, s: seq<Rule>, m: int)
    ensures CountCovering(InsertRule(x, s), m) == (if Covers(x, m) then 1 else 0) + CountCovering(s, m)
  {
    var t := InsertRule(x, s);
    if s == [] {
      assert t[1..] == [];
    } else if RuleLeq(x, s[0]) {
      assert t[1..] == s;
    } else {
      InsertedRuleCount(x, s[1..], m);
      assert t[1..] == InsertRule(x, s[1..]);
    }
  }

  lemma {:induction false} SortedRuleCount(s: seq<Rule>, m: int)
    ensures CountCovering(SortRules(s), m) == CountCovering(s, m)
  {
    if s != [] {
      SortedRuleCount(s[1..], m);
      InsertedRuleCount(s[0], SortRules(s[1..]), m);
    }
  }

  lemma {:induction false} SortingKeepsDisjoint(rules: seq<Rule>)
    ensures Disjoint(SortRules(rules)) <==> Disjoint(rules)
  {
    DisjointIffCountedOnce(rules);
    DisjointIffCountedOnce(SortRules(rules));
    assert CountedOnce(SortRules(rules)) <==> CountedOnce(rules) by {
      forall m ensures CountCovering(SortRules(rules), m) == CountCovering(rules, m) {
        SortedRuleCount(rules, m);
      }
    }
  }

  /**
   A schedule is made exactly from rules that are disjoint in whatever order they come, a validity
   range that is not empty and times in order; it holds those rules, sorted, and what else it was given.
   */
  lemma {:induction false} ScheduleMadeIff(enabled: bool, from: Option<int>, until: Option<int>, rules: seq<Rule>,
                                           createdAt: int, updatedAt: int)
    ensures var r := MakeSchedule(enabled, from, until, rules, createdAt, updatedAt);
            && (r.Ok? <==> Disjoint(rules) && createdAt <= updatedAt
                           && (from.Some? && until.Some? ==> from.value < until.value))
            && (r.Ok? ==> r.value == Schedule(enabled, from, until, r.value.weeklyRules, createdAt, updatedAt)
                          && multiset(r.value.weeklyRules) == multiset(rules) && RulesSorted(r.value.weeklyRules))
  {
    SortingKeepsDisjoint(rules);
    ValidateRulesIffDisjoint(SortRules(rules));
    PermutedRules(rules);
    SortedRules(rules);
  }

  // ----- what a valid schedule guarantees -----

  /** Some supply of rules was accepted and made this schedule. */
  ghost predicate IsSchedule(s: Schedule) {
    exists rules :: MakeSchedule(s.enabled, s.validFrom, s.validUntil, rules, s.createdAt, s.updatedAt) == Ok(s)
  }

  lemma {:induction false} SortingAgain(rules: seq<Rule>)
    ensures SortRules(SortRules(rules)) == SortRules(rules)
  {
    SortedRules(rules);
    SortedRules(SortRules(rules));
    PermutedRules(rules);
    PermutedRules(SortRules(rules));
    SortedPermutationsEqual(SortRules(SortRules(rules)), SortRules(rules));
  }

  /** The rules of a schedule are sorted and valid, and its validity range is not empty. */
  lemma {:induction false} ScheduleFacts(s: Schedule)
    requires IsSchedule(s)
    ensures SortRules(s.weeklyRules) == s.weeklyRules && ValidateRules(s.weeklyRules).Ok?
    ensures s.validFrom.Some? && s.validUntil.Some? ==> s.validFrom.value < s.validUntil.value
  {
    var rules :| MakeSchedule(s.enabled, s.validFrom, s.validUntil, rules, s.createdAt, s.updatedAt) == Ok(s);
    SortingAgain(rules);
  }

  lemma {:induction false} ScheduleRulesDisjoint(s: Schedule)
    requires IsSchedule(s)
    ensures Disjoint(s.weeklyRules)
  {
    ScheduleFacts(s);
    ValidateRulesIffDisjoint(s.weeklyRules);
  }

  /** At most one rule of a valid Schedule matches any instant. */
  lemma {:induction false} AtMostOneRuleMatches(s: Schedule, t: Local, i: int, j: int)
    requires IsSchedule(s) && ValidLocal(t)
    requires 0 <= i < |s.weeklyRules| && 0 <= j < |s.weeklyRules|
    requires RuleMatches(s.weeklyRules[i], t) && RuleMatches(s.weeklyRules[j], t)
    ensures i == j
  {
    ScheduleRulesDisjoint(s);
    MatchesIffCovers(s.weeklyRules[i], t);
    MatchesIffCovers(s.weeklyRules[j], t);
  }

  // ----- what an evaluation means -----

  predicate InValidity(s: Schedule, instant: int) {
    && s.enabled
    && (s.validFrom.Some? ==> s.validFrom.value <= instant)
    && (s.validUntil.Some? ==> instant < s.validUntil.value)
  }

  lemma {:induction false} SomeRuleMatchesIff(rules: seq<Rule>, t: Local)
    requires ValidLocal(t)
    ensures (exists i :: 0 <= i < |rules| && RuleMatches(rules[i], t)) <==> CountCovering(rules, MinuteOfWeek(t)) >= 1
  {
    if i :| 0 <= i < |rules| && RuleMatches(rules[i], t) {
      MatchesIffCovers(rules[i], t);
      CoveringOnce(rules, i, MinuteOfWeek(t));
    }
    if CountCovering(rules, MinuteOfWeek(t)) >= 1 {
      var i := CoveringSomewhere(rules, MinuteOfWeek(t));
      MatchesIffCovers(rules[i], t);
    }
  }

  /**
   Active is: enabled, within validity, and without rules or with one covering the minute of the week.
   Otherwise the reason is the first that applies: switched off, before its range, after it, or
   uncovered by its rules.
   */
  lemma {:induction false} EvaluationMeans(s: Schedule, instant: int, t: Local)
    requires ValidLocal(t)
    ensures var r := EvaluateAt(s, instant, t);
            var early := s.validFrom.Some? && instant < s.validFrom.value;
            var late := s.validUntil.Some? && s.validUntil.value <= instant;
            var covered := s.weeklyRules == [] || CountCovering(s.weeklyRules, MinuteOfWeek(t)) >= 1;
            && (r == Active <==> s.enabled && !early && !late && covered)
            && (r == Disabled <==> !s.enabled)
            && (r == NotYetValid <==> s.enabled && early)
            && (r == Expired <==> s.enabled && !early && late)
            && (r == OutsideWeeklyRule <==> s.enabled && !early && !late && !covered)
            && (InValidity(s, instant) <==> s.enabled && !early && !late)
  {
    SomeRuleMatchesIff(s.weeklyRules, t);
  }

  /** An enabled schedule is first not yet valid, then in its range, then expired, and never goes back. */
  lemma {:induction false} ValidityPasses(s: Schedule, zone: int -> Local, earlier: int, later: int)
    requires IsSchedule(s) && s.enabled && earlier <= later
    ensures Evaluate(s, zone, later).NotYetValid? ==> Evaluate(s, zone, earlier).NotYetValid?
    ensures Evaluate(s, zone, earlier).Expired? ==> Evaluate(s, zone, later).Expired?
    ensures Evaluate(s, zone, earlier).Expired? <==> s.validUntil.Some? && s.validUntil.value <= earlier
    ensures !Evaluate(s, zone, earlier).Disabled?
  {
    ScheduleFacts(s);
  }

  // ----- conservation of time -----

  function SumLengths(rules: seq<Rule>): int {
    if rules == [] then 0 else Length(rules[0]) + SumLengths(rules[1..])
  }

  /** Covered minutes, with multiplicity, among the first `n` minutes of the week. */
  function CoverTotal(rules: seq<Rule>, n: nat): nat {
    if n == 0 then 0 else CoverTotal(rules, n - 1) + CountCovering(rules, n - 1)
  }

  function SegmentTotal(s: seq<Segment>, n: nat): nat {
    if n == 0 then 0 else SegmentTotal(s, n - 1) + CountIn(s, n - 1)
  }

  lemma {:induction false} SegmentTotalConcat(a: seq<Segment>, b: seq<Segment>, n: nat)
    ensures SegmentTotal(a + b, n) == SegmentTotal(a, n) + SegmentTotal(b, n)
  {
    if n > 0 {
      CountInConcat(a, b, n - 1);
      SegmentTotalConcat(a, b, n - 1);
    }
  }

  lemma {:induction false} SegmentTotalSingle(g: Segment, n: nat)
    requires 0 <= g.start < g.end
    ensures SegmentTotal([g], n) == Max(0, Min(g.end, n) - g.start)
  {
    if n > 0 {
      assert CountIn([g][1..], n - 1) == 0;
      SegmentTotalSingle(g, n - 1);
    }
  }

  lemma {:induction false} RuleSegmentTotal(r: Rule)
    ensures SegmentTotal(RuleSegments(r), WEEK) == Length(r)
  {
    var segs := RuleSegments(r);
    var start := RuleStart(r);
    var end := start + Length(r);
    assert Length(r) == if r.end > r.start then r.end - r.start else r.end - r.start + MINUTES_PER_DAY;
    if end <= WEEK {
      SegmentTotalSingle(Segment(start, end), WEEK);
    } else {
      SegmentTotalSingle(Segment(start, WEEK), WEEK);
      SegmentTotalSingle(Segment(0, end - WEEK), WEEK);
      SegmentTotalConcat([Segment(start, WEEK)], [Segment(0, end - WEEK)], WEEK);
      assert segs == [Segment(start, WEEK)] + [Segment(0, end - WEEK)];
    }
  }

  lemma {:induction false} EmptyTotal(n: nat)
    ensures SegmentTotal([], n) == 0
  {
    if n > 0 { EmptyTotal(n - 1); }
  }

  lemma {:induction false} AllSegmentTotal(rules: seq<Rule>)
    ensures SegmentTotal(AllSegments(rules), WEEK) == SumLengths(rules)
  {
    if rules == [] {
      EmptyTotal(WEEK);
    } else {
      RuleSegmentTotal(rules[0]);
      SegmentTotalConcat(RuleSegments(rules[0]), AllSegments(rules[1..]), WEEK);
      AllSegmentTotal(rules[1..]);
    }
  }

  lemma {:induction false} TotalsAgree(rules: seq<Rule>, n: nat)
    requires n <= WEEK
    ensures CoverTotal(rules, n) == SegmentTotal(AllSegments(rules), n)
  {
    if n > 0 {
      AllSegmentsCountCovering(rules, n - 1);
      TotalsAgree(rules, n - 1);
    }
  }

  /** The local time `sub` microseconds into minute `m` of the ISO week. */
  function LocalAt(m: int, sub: int): Local
    requires 0 <= m < WEEK
  {
    Local(m / MINUTES_PER_DAY + 1, m % MINUTES_PER_DAY * MICROS_PER_MINUTE + sub)
  }

  /** Of the `n` minutes from an instant on, those at which the schedule evaluates to ACTIVE. */
  function ActiveMinutes(s: Schedule, zone: int -> Local, start: int, n: nat): nat {
    if n == 0 then 0
    else ActiveMinutes(s, zone, start, n - 1)
         + (if Evaluate(s, zone, start + (n - 1) * MICROS_PER_MINUTE).Active? then 1 else 0)
  }

  /** `k` minutes after `start` the clock shows minute `m + k` of the cyclic week, plus `sub` microseconds. */
  predicate ReadsOn(zone: int -> Local, start: int, m: int, sub: int, k: int) {
    zone(start + k * MICROS_PER_MINUTE) == LocalAt((m + k) % WEEK, sub)
  }

  /** A week during which the zone's clock runs on evenly, from whatever weekday and time. */
  ghost predicate EvenWeek(zone: int -> Local, start: int, m: int, sub: int) {
    0 <= m < WEEK && 0 <= sub < MICROS_PER_MINUTE && forall k :: 0 <= k < WEEK ==> ReadsOn(zone, start, m, sub, k)
  }

  /** Covered minutes, with multiplicity, among `n` minutes of the cyclic week from `m` on. */
  function CyclicTotal(rules: seq<Rule>, m: int, n: nat): nat {
    if n == 0 then 0 else CyclicTotal(rules, m, n - 1) + CountCovering(rules, (m + n - 1) % WEEK)
  }

  lemma {:induction false} CyclicSplits(rules: seq<Rule>, m: nat, n: nat)
    requires m < WEEK && n <= WEEK
    ensures CyclicTotal(rules, m, n) ==
              if m + n <= WEEK then CoverTotal(rules, m + n) - CoverTotal(rules, m)
              else CoverTotal(rules, WEEK) - CoverTotal(rules, m) + CoverTotal(rules, m + n - WEEK)
  {
    if n > 0 {
      CyclicSplits(rules, m, n - 1);
      WrapMinute(m + n - 1);
    }
  }

  lemma {:induction false} WrapMinute(x: int)
    requires 0 <= x < 2 * WEEK
    ensures x % WEEK == if x < WEEK then x else x - WEEK
  {
  }

  /** An enabled, in-range schedule with rules is active exactly where a rule covers the minute. */
  lemma {:induction false} ActiveIffCovered(s: Schedule, instant: int, m: int, sub: int)
    requires InValidity(s, instant) && s.weeklyRules != []
    requires 0 <= m < WEEK && 0 <= sub < MICROS_PER_MINUTE
    ensures EvaluateAt(s, instant, LocalAt(m, sub)).Active? <==> CountCovering(s.weeklyRules, m) >= 1
  {
    LocalAtMinute(m, sub);
    EvaluationMeans(s, instant, LocalAt(m, sub));
  }

  lemma {:induction false} LocalAtMinute(m: int, sub: int)
    requires 0 <= m < WEEK && 0 <= sub < MICROS_PER_MINUTE
    ensures ValidLocal(LocalAt(m, sub)) && MinuteOfWeek(LocalAt(m, sub)) == m
  {
    var minute := m % MINUTES_PER_DAY;
    assert minute * MICROS_PER_MINUTE + sub < (minute + 1) * MICROS_PER_MINUTE;
    assert (minute * MICROS_PER_MINUTE + sub) / MICROS_PER_MINUTE == minute;
  }

  lemma {:induction false} ActiveMinutesAreCoverTotal(s: Schedule, zone: int -> Local, start: int, m: int, sub: int,
                                                      n: nat)
    requires IsSchedule(s) && s.weeklyRules != [] && EvenWeek(zone, start, m, sub) && n <= WEEK
    requires InValidity(s, start) && InValidity(s, start + (WEEK - 1) * MICROS_PER_MINUTE)
    ensures ActiveMinutes(s, zone, start, n) == CyclicTotal(s.weeklyRules, m, n) <= n
  {
    if n > 0 {
      ActiveMinutesAreCoverTotal(s, zone, start, m, sub, n - 1);
      assert ReadsOn(zone, start, m, sub, n - 1);
      ActiveIffCovered(s, start + (n - 1) * MICROS_PER_MINUTE, (m + n - 1) % WEEK, sub);
      CoveredAtMostOnce(s, (m + n - 1) % WEEK);
    }
  }

  lemma {:induction false} CoveredAtMostOnce(s: Schedule, m: int)
    requires IsSchedule(s) && 0 <= m < WEEK
    ensures CountCovering(s.weeklyRules, m) <= 1
  {
    ScheduleRulesDisjoint(s);
    DisjointIffCountedOnce(s.weeklyRules);
  }

  /**
   Conservation of time: of any seven consecutive days within validity, on a clock that runs on
   evenly, exactly as many minutes are active as the rules are long, so never more than there are.
   */
  lemma {:induction false} ActiveTimeIsConserved(s: Schedule, zone: int -> Local, start: int, m: int, sub: int)
    requires IsSchedule(s) && s.weeklyRules != [] && EvenWeek(zone, start, m, sub)
    requires InValidity(s, start) && InValidity(s, start + (WEEK - 1) * MICROS_PER_MINUTE)
    ensures ActiveMinutes(s, zone, start, WEEK) == SumLengths(s.weeklyRules) <= WEEK
  {
    ActiveMinutesAreCoverTotal(s, zone, start, m, sub, WEEK);
    CyclicSplits(s.weeklyRules, m, WEEK);
    TotalsAgree(s.weeklyRules, WEEK);
    AllSegmentTotal(s.weeklyRules);
  }
}
