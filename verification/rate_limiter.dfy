/**
 The Reveal rate limiter (reveal.py, RevealRateLimiter): pruned deques of attempt times, three per
 credential in a rolling minute and ten per administrator in ten minutes.

 The deques are proved to decide exactly as a count over the whole history of attempts.
 Clock readings are real numbers and never decrease.
 */
module RateLimiter {
  import opened Results

  datatype CredentialKey = CredentialKey(person: Uuid, door: Option<Uuid>)

  /** One rolling window: a credential's or an administrator's. */
  datatype Bucket = OfCredential(key: CredentialKey) | OfAdministrator(user: string)

  datatype Reason = CredentialRateLimit | AdministratorRateLimit

  function Limit(b: Bucket): nat {
    if b.OfCredential? then 3 else 10
  }

  function Window(b: Bucket): real {
    if b.OfCredential? then 60.0 else 600.0
  }

  // ----- the full history and the naive count over it -----

  datatype Event =
    | Attempt(at: real, user: string, key: CredentialKey, refused: Option<Reason>)
    | Denied(at: real, key: CredentialKey)
    | Reset(key: CredentialKey)

  predicate Permitted(e: Event, b: Bucket) {
    e.Attempt? && e.refused.None? && (b == OfCredential(e.key) || b == OfAdministrator(e.user))
  }

  /** Events that add to a window: permitted attempts, and for credentials denied requests too. */
  predicate Records(e: Event, b: Bucket) {
    Permitted(e, b) || (e.Denied? && b == OfCredential(e.key))
  }

  predicate Clears(e: Event, b: Bucket) {
    e.Reset? && b == OfCredential(e.key)
  }

  /** How many events recorded in the window since it was last cleared are later than `cutoff`. */
  function CountAfter(h: seq<Event>, b: Bucket, cutoff: real): nat {
    if h == [] then 0
    else
      var e, before := h[|h| - 1], h[..|h| - 1];
      if Clears(e, b) then 0
      else CountAfter(before, b, cutoff) + (if Records(e, b) && e.at > cutoff then 1 else 0)
  }

  predicate Full(h: seq<Event>, b: Bucket, now: real) {
    CountAfter(h, b, now - Window(b)) >= Limit(b)
  }

  /** The decision a limiter that remembers everything would take. */
  function Decide(h: seq<Event>, user: string, key: CredentialKey, now: real): Option<Reason> {
    if Full(h, OfCredential(key), now) then Some(CredentialRateLimit)
    else if Full(h, OfAdministrator(user), now) then Some(AdministratorRateLimit)
    else None
  }

  /** Every timed event is at or after all earlier ones, and none is after `latest`. */
  ghost predicate Chronological(h: seq<Event>, latest: real) {
    forall i :: 0 <= i < |h| && !h[i].Reset? ==>
      h[i].at <= latest && forall j :: 0 <= j < i && !h[j].Reset? ==> h[j].at <= h[i].at
  }

  /** Every attempt was decided by the full history before it. */
  ghost predicate Decided(h: seq<Event>) {
    forall i :: 0 <= i < |h| ==> DecidedAt(h, i)
  }

  ghost predicate DecidedAt(h: seq<Event>, i: nat)
    requires i < |h|
  {
    h[i].Attempt? ==> h[i].refused == Decide(h[..i], h[i].user, h[i].key, h[i].at)
  }

  // ----- deques -----

  /** Times recorded in the window since it was last cleared, oldest first. */
  function Times(h: seq<Event>, b: Bucket): seq<real> {
    if h == [] then []
    else
      var e, before := h[|h| - 1], h[..|h| - 1];
      if Clears(e, b) then []
      else if Records(e, b) then Times(before, b) + [e.at]
      else Times(before, b)
  }

  function Pruned(s: seq<real>, cutoff: real): seq<real> {
    if s != [] && s[0] <= cutoff then Pruned(s[1..], cutoff) else s
  }

  ghost predicate Sorted(s: seq<real>) {
    forall i, j :: 0 <= i < j < |s| ==> s[i] <= s[j]
  }

  /** Pruning at `from` or later cannot tell the two sequences apart. */
  ghost predicate Agree(deque: seq<real>, times: seq<real>, from: real) {
    forall cutoff :: cutoff >= from ==> Pruned(deque, cutoff) == Pruned(times, cutoff)
  }

  lemma {:induction false} PruneTwice(s: seq<real>, earlier: real, later: real)
    requires earlier <= later
    ensures Pruned(Pruned(s, earlier), later) == Pruned(s, later)
  {
    if s != [] && s[0] <= earlier { PruneTwice(s[1..], earlier, later); }
  }

  lemma {:induction false} PruneAppended(s: seq<real>, x: real, cutoff: real)
    ensures Pruned(s + [x], cutoff) == if Pruned(s, cutoff) == [] then Pruned([x], cutoff) else Pruned(s, cutoff) + [x]
  {
    if s == [] {
      assert s + [x] == [x];
    } else if s[0] <= cutoff {
      assert (s + [x])[1..] == s[1..] + [x];
      PruneAppended(s[1..], x, cutoff);
    }
  }

  /** Pruning a deque, or adding a time to both, keeps the agreement. */
  lemma {:induction false} AgreeStep(deque: seq<real>, times: seq<real>, from: real, x: real)
    requires Agree(deque, times, from)
    ensures Agree(Pruned(deque, from), times, from)
    ensures Agree(Pruned(deque, from) + [x], times + [x], from)
  {
    var p := Pruned(deque, from);
    forall cutoff | cutoff >= from
      ensures Pruned(p, cutoff) == Pruned(times, cutoff)
      ensures Pruned(p + [x], cutoff) == Pruned(times + [x], cutoff)
    {
      PruneTwice(deque, from, cutoff);
      PruneAppended(p, x, cutoff);
      PruneAppended(times, x, cutoff);
    }
  }

  function CountLater(s: seq<real>, cutoff: real): nat {
    if s == [] then 0
    else CountLater(s[..|s| - 1], cutoff) + (if s[|s| - 1] > cutoff then 1 else 0)
  }

  lemma {:induction false} TimesCount(h: seq<Event>, b: Bucket, cutoff: real)
    ensures CountAfter(h, b, cutoff) == CountLater(Times(h, b), cutoff)
  {
    if h != [] && !Clears(h[|h| - 1], b) {
      TimesCount(h[..|h| - 1], b, cutoff);
      if Records(h[|h| - 1], b) {
        assert Times(h, b)[..|Times(h, b)| - 1] == Times(h[..|h| - 1], b);
      }
    }
  }

  lemma {:induction false} TimesSorted(h: seq<Event>, b: Bucket, latest: real)
    requires Chronological(h, latest)
    ensures Sorted(Times(h, b))
    ensures forall i :: 0 <= i < |Times(h, b)| ==> Times(h, b)[i] <= latest
  {
    if h != [] && !Clears(h[|h| - 1], b) {
      var e, before := h[|h| - 1], h[..|h| - 1];
      if Records(e, b) {
        assert forall j :: 0 <= j < |before| && !before[j].Reset? ==> h[j].at <= e.at;
        assert Chronological(before, e.at);
        TimesSorted(before, b, e.at);
      } else {
        assert Chronological(before, latest);
        TimesSorted(before, b, latest);
      }
    }
  }

  lemma {:induction false} CountAll(s: seq<real>, cutoff: real)
    requires forall i :: 0 <= i < |s| ==> s[i] > cutoff
    ensures CountLater(s, cutoff) == |s|
  {
    if s != [] { CountAll(s[..|s| - 1], cutoff); }
  }

  lemma {:induction false} CountDropFirst(s: seq<real>, cutoff: real)
    requires s != [] && s[0] <= cutoff
    ensures CountLater(s, cutoff) == CountLater(s[1..], cutoff)
  {
    if |s| > 1 {
      CountDropFirst(s[..|s| - 1], cutoff);
      assert s[1..][..|s| - 2] == s[..|s| - 1][1..];
    }
  }

  /** Pruning sorted times leaves exactly those that still count. */
  lemma {:induction false} PrunedLengthIsCount(s: seq<real>, cutoff: real)
    requires Sorted(s)
    ensures |Pruned(s, cutoff)| == CountLater(s, cutoff)
  {
    if s != [] && s[0] <= cutoff {
      CountDropFirst(s, cutoff);
      PrunedLengthIsCount(s[1..], cutoff);
    } else {
      CountAll(s, cutoff);
    }
  }

  // ----- the deques are functions of the history -----

  /** Events that look at a window, and so prune its deque. */
  predicate Touches(e: Event, b: Bucket) {
    (e.Attempt? && (b == OfCredential(e.key) || b == OfAdministrator(e.user)))
        || (e.Denied? && b == OfCredential(e.key))
  }

  function NextDeque(deque: seq<real>, b: Bucket, e: Event): seq<real> {
    if Clears(e, b) then []
    else if Records(e, b) then Pruned(deque, e.at - Window(b)) + [e.at]
    else if Touches(e, b) then Pruned(deque, e.at - Window(b))
    else deque
  }

  /** The deque of a window after a history. */
  function DequeAfter(h: seq<Event>, b: Bucket): seq<real> {
    if h == [] then [] else NextDeque(DequeAfter(h[..|h| - 1], b), b, h[|h| - 1])
  }

  lemma {:induction false} DequeExtended(h: seq<Event>, e: Event, b: Bucket)
    ensures DequeAfter(h + [e], b) == NextDeque(DequeAfter(h, b), b, e)
  {
    assert (h + [e])[..|h|] == h;
  }

  lemma {:induction false} ChronologicalBefore(h: seq<Event>, latest: real)
    requires Chronological(h, latest) && h != []
    ensures Chronological(h[..|h| - 1], if h[|h| - 1].Reset? then latest else h[|h| - 1].at)
    ensures h[|h| - 1].Reset? || h[|h| - 1].at <= latest
  {
    var e, before := h[|h| - 1], h[..|h| - 1];
    if !e.Reset? {
      assert forall j :: 0 <= j < |before| && !before[j].Reset? ==> h[j].at <= e.at;
      assert Chronological(before, e.at);
    } else {
      assert Chronological(before, latest);
    }
  }

  /** From now on the deque prunes exactly like the full list of recorded times. */
  lemma {:induction false} DequeTracks(h: seq<Event>, b: Bucket, latest: real)
    requires Chronological(h, latest)
    ensures Agree(DequeAfter(h, b), Times(h, b), latest - Window(b))
  {
    if h != [] {
      var e, before := h[|h| - 1], h[..|h| - 1];
      ChronologicalBefore(h, latest);
      var at := if e.Reset? then latest else e.at;
      DequeTracks(before, b, at);
      AgreeStep(DequeAfter(before, b), Times(before, b), at - Window(b), at);
      assert Agree(DequeAfter(h, b), Times(h, b), at - Window(b));
    }
  }

  /** A pruned deque is as long as the naive count. */
  lemma {:induction false} PrunedDequeCounts(h: seq<Event>, b: Bucket, latest: real, cutoff: real)
    requires Chronological(h, latest) && cutoff >= latest - Window(b)
    ensures |Pruned(DequeAfter(h, b), cutoff)| == CountAfter(h, b, cutoff)
    ensures Pruned(DequeAfter(h, b), cutoff) == Pruned(Times(h, b), cutoff)
  {
    DequeTracks(h, b, latest);
    TimesSorted(h, b, latest);
    PrunedLengthIsCount(Times(h, b), cutoff);
    TimesCount(h, b, cutoff);
  }

  function Recorded(deque: seq<real>, now: real, refused: Option<Reason>): seq<real> {
    if refused.None? then deque + [now] else deque
  }

  /** The decision two pruned deques justify. */
  function DequesDecide(credential: seq<real>, administrator: seq<real>): Option<Reason> {
    if |credential| >= 3 then Some(CredentialRateLimit)
    else if |administrator| >= 10 then Some(AdministratorRateLimit)
    else None
  }

  /** The pruned deques decide as the full history does. */
  lemma {:induction false} DequesDecideAsHistory(h: seq<Event>, user: string, key: CredentialKey, now: real)
    requires Chronological(h, now)
    ensures DequesDecide(Pruned(DequeAfter(h, OfCredential(key)), now - 60.0),
                         Pruned(DequeAfter(h, OfAdministrator(user)), now - 600.0)) == Decide(h, user, key, now)
  {
    PrunedDequeCounts(h, OfCredential(key), now, now - 60.0);
    PrunedDequeCounts(h, OfAdministrator(user), now, now - 600.0);
  }

  lemma {:induction false} HistoryGrows(h: seq<Event>, e: Event, latest: real)
    requires Chronological(h, latest) && Decided(h)
    requires !e.Reset? ==> e.at == latest
    requires e.Attempt? ==> e.refused == Decide(h, e.user, e.key, e.at)
    ensures Chronological(h + [e], latest) && Decided(h + [e])
  {
    var g := h + [e];
    forall i | 0 <= i < |g| ensures DecidedAt(g, i) {
      if i < |h| {
        assert DecidedAt(h, i);
        assert g[..i] == h[..i];
      } else {
        assert g[..i] == h;
      }
    }
  }

  // ----- retry_after -----

  function Ceil(x: real): int {
    -((-x).Floor)
  }

  /** `attempts[index]` as Python reads it: a negative index counts from the end. */
  function PythonIndex(s: seq<real>, index: int): Option<real> {
    if 0 <= index < |s| then Some(s[index])
    else if -|s| <= index < 0 then Some(s[|s| + index])
    else None
  }

  /** Seconds until another attempt; None is the IndexError of an index beyond the deque. */
  function RetryAfter(attempts: seq<real>, limit: nat, window: real, now: real): Option<int> {
    var blocking := PythonIndex(attempts, |attempts| - limit);
    if blocking.None? then None
    else Some(Max(1, Ceil(blocking.value + window - now)))
  }

  /** Still at its limit so many seconds later, if nothing more is recorded. */
  predicate FullIn(h: seq<Event>, b: Bucket, now: real, seconds: int) {
    Full(h, b, now + seconds as real)
  }

  /** The least positive whole number of seconds after which the limit passes, if nothing more is recorded. */
  ghost predicate LeastWait(h: seq<Event>, b: Bucket, now: real, seconds: int) {
    seconds >= 1 && !FullIn(h, b, now, seconds) && forall k :: 1 <= k < seconds ==> FullIn(h, b, now, k)
  }

  lemma {:induction false} CeilIsLeast(x: real, n: int)
    ensures Ceil(x) <= n <==> x <= n as real
  {
    var f := (-x).Floor;
    assert f as real <= -x < (f + 1) as real;
  }

  lemma {:induction false} PrunedSorted(s: seq<real>, cutoff: real)
    requires Sorted(s)
    ensures Sorted(Pruned(s, cutoff))
    ensures Pruned(s, cutoff) != [] ==> Pruned(s, cutoff)[0] > cutoff
  {
    if s != [] && s[0] <= cutoff { PrunedSorted(s[1..], cutoff); }
  }

  lemma {:induction false} PrunedLength(s: seq<real>, cutoff: real)
    ensures |Pruned(s, cutoff)| <= |s|
  {
    if s != [] && s[0] <= cutoff { PrunedLength(s[1..], cutoff); }
  }

  /** Fewer than `k` times survive a pruning exactly when the k-th newest is pruned. */
  lemma {:induction false} ShortWhenBlockingPruned(s: seq<real>, k: nat, cutoff: real)
    requires 0 < k <= |s| && Sorted(Pruned(s, cutoff))
    ensures |Pruned(s, cutoff)| < k <==> s[|s| - k] <= cutoff
  {
    if s[0] <= cutoff {
      if k < |s| {
        ShortWhenBlockingPruned(s[1..], k, cutoff);
      } else {
        PrunedLength(s[1..], cutoff);
      }
    }
  }

  lemma {:induction false} FullWhenBlocking(h: seq<Event>, b: Bucket, latest: real, now: real)
    requires Chronological(h, latest) && now >= latest && |DequeAfter(h, b)| >= Limit(b)
    ensures Full(h, b, now) <==> DequeAfter(h, b)[|DequeAfter(h, b)| - Limit(b)] > now - Window(b)
  {
    PrunedDequeCounts(h, b, latest, now - Window(b));
    TimesSorted(h, b, latest);
    PrunedSorted(Times(h, b), now - Window(b));
    ShortWhenBlockingPruned(DequeAfter(h, b), Limit(b), now - Window(b));
  }

  lemma {:induction false} ShortIsNotFull(h: seq<Event>, b: Bucket, latest: real, now: real)
    requires Chronological(h, latest) && now >= latest && |DequeAfter(h, b)| < Limit(b)
    ensures !Full(h, b, now)
  {
    PrunedDequeCounts(h, b, latest, now - Window(b));
    PrunedLength(DequeAfter(h, b), now - Window(b));
  }

  /** Above the limit the answer is exact, whatever happened since the refusal and whenever it is asked. */
  lemma {:induction false} ExactAtTheLimit(h: seq<Event>, b: Bucket, latest: real, now: real)
    requires Chronological(h, latest) && now >= latest && |DequeAfter(h, b)| >= Limit(b)
    ensures RetryAfter(DequeAfter(h, b), Limit(b), Window(b), now).Some?
    ensures LeastWait(h, b, now, RetryAfter(DequeAfter(h, b), Limit(b), Window(b), now).value)
  {
    var deque := DequeAfter(h, b);
    var x := deque[|deque| - Limit(b)] + Window(b) - now;
    var seconds := RetryAfter(deque, Limit(b), Window(b), now).value;
    forall k: int | k >= 1 ensures FullIn(h, b, now, k) <==> k < Ceil(x) {
      FullWhenBlocking(h, b, latest, now + k as real);
      CeilIsLeast(x, k);
    }
  }

  /** Below it the limit already passes, so the answer is right exactly when it is one second. */
  lemma {:induction false} BelowTheLimit(h: seq<Event>, b: Bucket, latest: real, now: real)
    requires Chronological(h, latest) && now >= latest
    requires |DequeAfter(h, b)| < Limit(b) <= 2 * |DequeAfter(h, b)|
    ensures RetryAfter(DequeAfter(h, b), Limit(b), Window(b), now).Some?
    ensures LeastWait(h, b, now, RetryAfter(DequeAfter(h, b), Limit(b), Window(b), now).value)
            <==> DequeAfter(h, b)[2 * |DequeAfter(h, b)| - Limit(b)] + Window(b) - now <= 1.0
  {
    var deque := DequeAfter(h, b);
    var x := deque[2 * |deque| - Limit(b)] + Window(b) - now;
    var seconds := RetryAfter(deque, Limit(b), Window(b), now).value;
    CeilIsLeast(x, 1);
    ShortIsNotFull(h, b, latest, now + 1 as real);
    assert !FullIn(h, b, now, 1);
    assert LeastWait(h, b, now, seconds) <==> seconds == 1;
  }

  /** What `retry_after` reads may have changed since the refusal; this is when its answer is still right. */
  predicate AnswersRight(deque: seq<real>, b: Bucket, now: real) {
    |deque| >= Limit(b)
    || (2 * |deque| >= Limit(b) && deque[2 * |deque| - Limit(b)] + Window(b) - now <= 1.0)
  }

  /**
   Asked at any clock reading after any history: it raises exactly when the deque holds fewer than
   half the limit of times, and otherwise gives the least wait exactly when the deque holds the limit,
   or the time it reads instead lets the window pass within a second.
   */
  lemma {:induction false} RetryAfterIsExactIff(h: seq<Event>, b: Bucket, latest: real, now: real)
    requires Chronological(h, latest) && now >= latest
    ensures RetryAfter(DequeAfter(h, b), Limit(b), Window(b), now).None? <==> 2 * |DequeAfter(h, b)| < Limit(b)
    ensures RetryAfter(DequeAfter(h, b), Limit(b), Window(b), now).Some?
            && LeastWait(h, b, now, RetryAfter(DequeAfter(h, b), Limit(b), Window(b), now).value)
            <==> AnswersRight(DequeAfter(h, b), b, now)
  {
    if |DequeAfter(h, b)| >= Limit(b) {
      ExactAtTheLimit(h, b, latest, now);
    } else if 2 * |DequeAfter(h, b)| >= Limit(b) {
      BelowTheLimit(h, b, latest, now);
    }
  }

  // ----- what happens between a refusal and its answer -----

  lemma {:induction false} LengthWhenTouched(h: seq<Event>, e: Event, b: Bucket)
    requires Touches(e, b) && Chronological(h, e.at)
    ensures |DequeAfter(h + [e], b)| == CountAfter(h + [e], b, e.at - Window(b))
  {
    DequeExtended(h, e, b);
    assert (h + [e])[..|h|] == h;
    PrunedDequeCounts(h, b, e.at, e.at - Window(b));
  }

  lemma {:induction false} LengthStep(h: seq<Event>, e: Event, b: Bucket, latest: real)
    requires Chronological(h + [e], latest)
    ensures |DequeAfter(h + [e], b)| ==
              if Clears(e, b) then 0
              else if Touches(e, b) then CountAfter(h + [e], b, e.at - Window(b))
              else |DequeAfter(h, b)|
  {
    if Touches(e, b) {
      ChronologicalBefore(h + [e], latest);
      assert (h + [e])[..|h|] == h;
      LengthWhenTouched(h, e, b);
    } else {
      DequeExtended(h, e, b);
    }
  }

  /** Events that leave a window below its limit: a reset, or a check or denial once the limit has passed. */
  ghost predicate Lowers(h: seq<Event>, i: nat, b: Bucket)
    requires i < |h|
  {
    Clears(h[i], b) || (Touches(h[i], b) && !Full(h[..i + 1], b, h[i].at))
  }

  /** The last event from a point on that looked at or cleared the window. */
  function LastLook(h: seq<Event>, from: nat, b: Bucket): Option<nat>
    requires from <= |h|
  {
    if from == |h| then None
    else if Clears(h[|h| - 1], b) || Touches(h[|h| - 1], b) then Some(|h| - 1)
    else LastLook(h[..|h| - 1], from, b)
  }

  lemma {:induction false} LookInPrefix(h: seq<Event>, n: nat, i: nat, b: Bucket)
    requires i < n <= |h|
    ensures Lowers(h[..n], i, b) <==> Lowers(h, i, b)
  {
    assert h[..n][..i + 1] == h[..i + 1];
  }

  lemma {:induction false} LastLookIsWithin(h: seq<Event>, from: nat, b: Bucket)
    requires from <= |h|
    ensures LastLook(h, from, b).Some? ==> from <= LastLook(h, from, b).value < |h|
    decreases |h|
  {
    if from < |h| { LastLookIsWithin(h[..|h| - 1], from, b); }
  }

  lemma {:induction false} LookedAtLast(h: seq<Event>, b: Bucket, latest: real)
    requires Chronological(h, latest) && h != [] && (Clears(h[|h| - 1], b) || Touches(h[|h| - 1], b))
    ensures |DequeAfter(h, b)| < Limit(b) <==> Lowers(h, |h| - 1, b)
  {
    var before, e := h[..|h| - 1], h[|h| - 1];
    assert h == before + [e];
    LengthStep(before, e, b, latest);
    assert h[..|h| - 1 + 1] == h;
  }

  /** The deque is below the limit exactly when the last event to look at it since was such an event. */
  lemma {:induction false} BelowLimitIff(h: seq<Event>, from: nat, b: Bucket, latest: real)
    requires Chronological(h, latest) && from <= |h| && |DequeAfter(h[..from], b)| >= Limit(b)
    ensures LastLook(h, from, b).Some? ==> from <= LastLook(h, from, b).value < |h|
    ensures |DequeAfter(h, b)| < Limit(b) <==> LastLook(h, from, b).Some? && Lowers(h, LastLook(h, from, b).value, b)
    decreases |h|
  {
    LastLookIsWithin(h, from, b);
    if from == |h| {
      assert h[..from] == h;
    } else if Clears(h[|h| - 1], b) || Touches(h[|h| - 1], b) {
      LookedAtLast(h, b, latest);
    } else {
      var before := h[..|h| - 1];
      ChronologicalBefore(h, latest);
      assert before[..from] == h[..from];
      BelowLimitIff(before, from, b, if h[|h| - 1].Reset? then latest else h[|h| - 1].at);
      var look := LastLook(before, from, b);
      if look.Some? { LookInPrefix(h, |h| - 1, look.value, b); }
    }
  }

  function RefusedBy(reason: Reason, user: string, key: CredentialKey): Bucket {
    if reason.CredentialRateLimit? then OfCredential(key) else OfAdministrator(user)
  }

  /** A refusal leaves the deque that refused at its limit or above. */
  lemma {:induction false} RefusalLeavesFull(h: seq<Event>, e: Event)
    requires e.Attempt? && e.refused.Some? && Chronological(h + [e], e.at)
    requires e.refused == Decide(h, e.user, e.key, e.at)
    ensures var b := RefusedBy(e.refused.value, e.user, e.key);
            |DequeAfter(h + [e], b)| >= Limit(b)
  {
    var b := RefusedBy(e.refused.value, e.user, e.key);
    LengthStep(h, e, b, e.at);
    assert (h + [e])[..|h|] == h;
  }

  /**
   So an answer to a refusal is the least wait, at whatever later clock reading, unless a reset, or a
   check or denial after the limit has passed, came in between.
   */
  lemma {:induction false} RefusalAnsweredExactly(h: seq<Event>, i: nat, latest: real, now: real)
    requires Chronological(h, latest) && Decided(h) && now >= latest
    requires i < |h| && h[i].Attempt? && h[i].refused.Some?
    requires var b := RefusedBy(h[i].refused.value, h[i].user, h[i].key);
             forall j :: i < j < |h| ==> !Lowers(h, j, b)
    ensures var b := RefusedBy(h[i].refused.value, h[i].user, h[i].key);
            var r := RetryAfter(DequeAfter(h, b), Limit(b), Window(b), now);
            r.Some? && LeastWait(h, b, now, r.value)
  {
    var b := RefusedBy(h[i].refused.value, h[i].user, h[i].key);
    var next := i + 1;
    assert DecidedAt(h, i);
    assert h[..next] == h[..i] + [h[i]];
    PrefixChronological(h, next, latest);
    RefusalLeavesFull(h[..i], h[i]);
    BelowLimitIff(h, next, b, latest);
    ExactAtTheLimit(h, b, latest, now);
  }

  /** A history up to a timed event is chronological as of that event. */
  lemma {:induction false} PrefixChronological(h: seq<Event>, n: nat, latest: real)
    requires Chronological(h, latest) && 0 < n <= |h| && !h[n - 1].Reset?
    ensures Chronological(h[..n], h[n - 1].at)
  {
  }

  /** Three reveals, a refusal, and a reveal let through while the refusal is being audited. */
  function OvertakenRefusal(user: string, key: CredentialKey, t0: real, t1: real, t2: real, refused: real,
                            overtaking: real)
    : seq<Event>
  {
    ThreeReveals(user, key, t0, t1, t2)
    + [Attempt(refused, user, key, Some(CredentialRateLimit))] + [Attempt(overtaking, user, key, None)]
  }

  function ThreeReveals(user: string, key: CredentialKey, t0: real, t1: real, t2: real): seq<Event> {
    [Attempt(t0, user, key, None)] + [Attempt(t1, user, key, None)] + [Attempt(t2, user, key, None)]
  }

  /** One check, from the deques it finds to the deques it leaves. */
  lemma {:induction false} CheckOnDeques(h: seq<Event>, e: Event, credential: seq<real>, administrator: seq<real>)
    requires e.Attempt? && Decided(h) && Chronological(h, e.at)
    requires credential == Pruned(DequeAfter(h, OfCredential(e.key)), e.at - 60.0)
    requires administrator == Pruned(DequeAfter(h, OfAdministrator(e.user)), e.at - 600.0)
    requires e.refused == DequesDecide(credential, administrator)
    ensures Chronological(h + [e], e.at) && Decided(h + [e])
    ensures DequeAfter(h + [e], OfCredential(e.key)) == Recorded(credential, e.at, e.refused)
    ensures DequeAfter(h + [e], OfAdministrator(e.user)) == Recorded(administrator, e.at, e.refused)
  {
    DequesDecideAsHistory(h, e.user, e.key, e.at);
    HistoryGrows(h, e, e.at);
    AttemptRecorded(h, e, OfCredential(e.key));
    AttemptRecorded(h, e, OfAdministrator(e.user));
  }

  lemma {:induction false} AttemptRecorded(h: seq<Event>, e: Event, b: Bucket)
    requires e.Attempt? && Touches(e, b)
    ensures DequeAfter(h + [e], b) == Recorded(Pruned(DequeAfter(h, b), e.at - Window(b)), e.at, e.refused)
  {
    DequeExtended(h, e, b);
  }

  /** A reveal while both windows hold the same fewer than three recent times. */
  lemma {:induction false} OneMoreReveal(h: seq<Event>, user: string, key: CredentialKey, times: seq<real>, at: real)
    requires Decided(h) && Chronological(h, at) && |times| < 3 && (times != [] ==> times[0] > at - 60.0)
    requires DequeAfter(h, OfCredential(key)) == DequeAfter(h, OfAdministrator(user)) == times
    ensures var g := h + [Attempt(at, user, key, None)];
            Chronological(g, at) && Decided(g)
            && DequeAfter(g, OfCredential(key)) == DequeAfter(g, OfAdministrator(user)) == times + [at]
  {
    CheckOnDeques(h, Attempt(at, user, key, None), times, times);
  }

  lemma {:induction false} FirstThree(user: string, key: CredentialKey, t0: real, t1: real, t2: real)
    requires t0 <= t1 <= t2 < t0 + 60.0
    ensures var h := ThreeReveals(user, key, t0, t1, t2);
            Chronological(h, t2) && Decided(h)
            && DequeAfter(h, OfCredential(key)) == DequeAfter(h, OfAdministrator(user)) == [t0] + [t1] + [t2]
  {
    var h := [Attempt(t0, user, key, None)];
    OneMoreReveal([], user, key, [], t0);
    assert [] + h == h && [] + [t0] == [t0];
    OneMoreReveal(h, user, key, [t0], t1);
    OneMoreReveal(h + [Attempt(t1, user, key, None)], user, key, [t0] + [t1], t2);
  }

  /**
   With no reset at all the refused call then raises instead of answering: reveals at 0.0, 0.1 and
   0.2 seconds, a refusal at 59.99 and a reveal at 60.25 are such times.
   */
  lemma {:induction false} OvertakenRefusalRaises(user: string, key: CredentialKey, t0: real, t1: real, t2: real,
                                                  refused: real, overtaking: real, asked: real)
    requires t0 <= t1 <= t2 <= refused < t0 + 60.0 && t2 + 60.0 <= overtaking <= asked && refused <= overtaking
    ensures var h := OvertakenRefusal(user, key, t0, t1, t2, refused, overtaking);
            Chronological(h, overtaking) && Decided(h)
            && RetryAfter(DequeAfter(h, OfCredential(key)), 3, 60.0, asked).None?
  {
    var h, times := ThreeReveals(user, key, t0, t1, t2), [t0] + [t1] + [t2];
    var r := Attempt(refused, user, key, Some(CredentialRateLimit));
    FirstThree(user, key, t0, t1, t2);
    CheckOnDeques(h, r, times, times);
    PrunedAll(times, overtaking - 60.0);
    var administrator := Pruned(times, overtaking - 600.0);
    PrunedLength(times, overtaking - 600.0);
    CheckOnDeques(h + [r], Attempt(overtaking, user, key, None), [], administrator);
  }

  lemma {:induction false} OvertakenRefusalHappens(user: string, key: CredentialKey)
    ensures var h := OvertakenRefusal(user, key, 0.0, 0.1, 0.2, 59.99, 60.25);
            RetryAfter(DequeAfter(h, OfCredential(key)), 3, 60.0, 60.3).None?
  {
    OvertakenRefusalRaises(user, key, 0.0, 0.1, 0.2, 59.99, 60.25, 60.3);
  }

  lemma {:induction false} PrunedAll(s: seq<real>, cutoff: real)
    requires forall i :: 0 <= i < |s| ==> s[i] <= cutoff
    ensures Pruned(s, cutoff) == []
  {
    if s != [] { PrunedAll(s[1..], cutoff); }
  }

  // ----- the class -----

  method PruneDeque(attempts: seq<real>, cutoff: real) returns (kept: seq<real>)
    ensures kept == Pruned(attempts, cutoff)
  {
    kept := attempts;
    while kept != [] && kept[0] <= cutoff
      invariant Pruned(kept, cutoff) == Pruned(attempts, cutoff)
      decreases |kept|
    {
      kept := kept[1..];
    }
  }

  type CredentialAttempts = map<CredentialKey, seq<real>>
  type AdministratorAttempts = map<string, seq<real>>

  /** The deque of a window; an absent key reads as an empty deque. */
  function DequeOf(credential: CredentialAttempts, administrator: AdministratorAttempts, b: Bucket): seq<real> {
    match b
    case OfCredential(key) => if key in credential then credential[key] else []
    case OfAdministrator(user) => if user in administrator then administrator[user] else []
  }

  /** The fields hold, for every window, the deque its history leaves. */
  ghost predicate Consistent(c: CredentialAttempts, a: AdministratorAttempts, h: seq<Event>, latest: real) {
    && Chronological(h, latest) && Decided(h)
    && forall b :: DequeOf(c, a, b) == DequeAfter(h, b)
  }

  /** Writing back the windows an event touches or clears, and no other, keeps that so. */
  lemma {:induction false} StaysConsistent(c: CredentialAttempts, a: AdministratorAttempts, h: seq<Event>, latest: real,
                                           c': CredentialAttempts, a': AdministratorAttempts, e: Event, now: real)
    requires Consistent(c, a, h, latest) && now >= latest && (!e.Reset? ==> e.at == now)
    requires e.Attempt? ==> e.refused == Decide(h, e.user, e.key, now)
    requires forall b :: DequeOf(c', a', b) == NextDeque(DequeOf(c, a, b), b, e)
    ensures Consistent(c', a', h + [e], now)
  {
    assert Chronological(h, now);
    HistoryGrows(h, e, now);
    forall b ensures DequeOf(c', a', b) == DequeAfter(h + [e], b) {
      DequeExtended(h, e, b);
    }
  }

  lemma {:induction false} CheckStored(c: CredentialAttempts, a: AdministratorAttempts, e: Event,
                                       credential: seq<real>, administrator: seq<real>)
    requires e.Attempt?
    requires credential == NextDeque(DequeOf(c, a, OfCredential(e.key)), OfCredential(e.key), e)
    requires administrator == NextDeque(DequeOf(c, a, OfAdministrator(e.user)), OfAdministrator(e.user), e)
    ensures var c', a' := c[e.key := credential], a[e.user := administrator];
            forall b :: DequeOf(c', a', b) == NextDeque(DequeOf(c, a, b), b, e)
  {
  }

  /** Everything a check owes: the decision of the full history, and deques that are still the history's. */
  lemma {:induction false} CheckIsConsistent(c: CredentialAttempts, a: AdministratorAttempts, h: seq<Event>,
                                             latest: real,
                                             user: string, key: CredentialKey, now: real, refused: Option<Reason>,
                                             c': CredentialAttempts, a': AdministratorAttempts)
    requires Consistent(c, a, h, latest) && now >= latest
    requires refused == DequesDecide(Pruned(DequeOf(c, a, OfCredential(key)), now - 60.0),
                                     Pruned(DequeOf(c, a, OfAdministrator(user)), now - 600.0))
    requires c' == c[key := Recorded(Pruned(DequeOf(c, a, OfCredential(key)), now - 60.0), now, refused)]
    requires a' == a[user := Recorded(Pruned(DequeOf(c, a, OfAdministrator(user)), now - 600.0), now, refused)]
    ensures refused == Decide(h, user, key, now)
    ensures Consistent(c', a', h + [Attempt(now, user, key, refused)], now)
    ensures forall b :: DequeOf(c', a', b) == NextDeque(DequeOf(c, a, b), b, Attempt(now, user, key, refused))
  {
    assert Chronological(h, now);
    DequesDecideAsHistory(h, user, key, now);
    CheckStored(c, a, Attempt(now, user, key, refused), c'[key], a'[user]);
    StaysConsistent(c, a, h, latest, c', a', Attempt(now, user, key, refused), now);
  }

  class RevealRateLimiter {
    var credentialAttempts: CredentialAttempts
    var administratorAttempts: AdministratorAttempts
    ghost var history: seq<Event>
    ghost var latest: real

    ghost predicate Valid()
      reads this
    {
      Consistent(credentialAttempts, administratorAttempts, history, latest)
    }

    function Deque(b: Bucket): seq<real>
      reads this
    {
      DequeOf(credentialAttempts, administratorAttempts, b)
    }

    constructor ()
      ensures Valid() && history == []
    {
      credentialAttempts, administratorAttempts := map[], map[];
      history, latest := [], 0.0;
    }

    /** Both windows are pruned; a permitted attempt is recorded in both, and no other window changes. */
    method CheckAndRecord(user: string, key: CredentialKey, now: real) returns (refused: Option<Reason>)
      requires Valid() && now >= latest
      modifies this
      ensures Valid() && latest == now
      ensures refused == Decide(old(history), user, key, now)
      ensures history == old(history) + [Attempt(now, user, key, refused)]
      ensures forall b :: Deque(b) == NextDeque(old(Deque(b)), b, Attempt(now, user, key, refused))
    {
      var credential := PruneDeque(Deque(OfCredential(key)), now - 60.0);
      var administrator := PruneDeque(Deque(OfAdministrator(user)), now - 600.0);
      if |credential| >= 3 {
        refused := Some(CredentialRateLimit);
      } else if |administrator| >= 10 {
        refused := Some(AdministratorRateLimit);
      } else {
        refused := None;
        credential := credential + [now];
        administrator := administrator + [now];
      }
      ghost var c, a := credentialAttempts, administratorAttempts;
      credentialAttempts := credentialAttempts[key := credential];
      administratorAttempts := administratorAttempts[user := administrator];
      CheckIsConsistent(c, a, history, latest, user, key, now, refused, credentialAttempts, administratorAttempts);
      history, latest := history + [Attempt(now, user, key, refused)], now;
    }

    method RecordDenied(key: CredentialKey, now: real)
      requires Valid() && now >= latest
      modifies this
      ensures Valid() && latest == now
      ensures history == old(history) + [Denied(now, key)]
      ensures forall b :: Deque(b) == NextDeque(old(Deque(b)), b, Denied(now, key))
    {
      ghost var c, a := credentialAttempts, administratorAttempts;
      var credential := PruneDeque(Deque(OfCredential(key)), now - 60.0);
      credentialAttempts := credentialAttempts[key := credential + [now]];
      StaysConsistent(c, a, history, latest, credentialAttempts, a, Denied(now, key), now);
      history, latest := history + [Denied(now, key)], now;
    }

    method ResetCredential(key: CredentialKey)
      requires Valid()
      modifies this
      ensures Valid() && latest == old(latest)
      ensures history == old(history) + [Reset(key)]
      ensures forall b :: Deque(b) == if b == OfCredential(key) then [] else old(Deque(b))
    {
      ghost var c, a := credentialAttempts, administratorAttempts;
      credentialAttempts := credentialAttempts - {key};
      StaysConsistent(c, a, history, latest, credentialAttempts, a, Reset(key), latest);
      history := history + [Reset(key)];
    }

    /** Reads the clock and the deque afresh: right, wrong or raising exactly as the deque then stands. */
    method RetryAfterSeconds(reason: Reason, user: string, key: CredentialKey, now: real) returns (seconds: Option<int>)
      requires Valid() && now >= latest
      ensures seconds.None? <==> 2 * |Deque(RefusedBy(reason, user, key))| < Limit(RefusedBy(reason, user, key))
      ensures seconds.Some? && LeastWait(history, RefusedBy(reason, user, key), now, seconds.value)
              <==> AnswersRight(Deque(RefusedBy(reason, user, key)), RefusedBy(reason, user, key), now)
      ensures seconds == RetryAfter(Deque(RefusedBy(reason, user, key)), Limit(RefusedBy(reason, user, key)),
                                    Window(RefusedBy(reason, user, key)), now)
    {
      RetryAfterIsExactIff(history, RefusedBy(reason, user, key), latest, now);
      if reason.CredentialRateLimit? {
        seconds := RetryAfter(Deque(OfCredential(key)), 3, 60.0, now);
      } else {
        seconds := RetryAfter(Deque(OfAdministrator(user)), 10, 600.0, now);
      }
    }
  }

  // ----- what the limits guarantee over whole histories -----

  /** Strictly increasing positions in the history. */
  ghost predicate Positions(idx: seq<int>, h: seq<Event>) {
    && (forall k :: 0 <= k < |idx| ==> 0 <= idx[k] < |h|)
    && (forall k, l :: 0 <= k < l < |idx| ==> idx[k] < idx[l])
  }

  lemma {:induction false} CountAtLeast(h: seq<Event>, b: Bucket, cutoff: real, idx: seq<int>)
    requires Positions(idx, h)
    requires forall k :: 0 <= k < |idx| ==> Records(h[idx[k]], b) && h[idx[k]].at > cutoff
    requires idx != [] ==> forall j :: idx[0] < j < |h| ==> !Clears(h[j], b)
    ensures CountAfter(h, b, cutoff) >= |idx|
    decreases |h|
  {
    if idx != [] {
      assert 0 <= idx[0] < |h|;
      var n, last := |h| - 1, |idx| - 1;
      var before := h[..n];
      if idx[last] == n {
        assert Positions(idx[..last], before);
        CountAtLeast(before, b, cutoff, idx[..last]);
      } else {
        assert Positions(idx, before);
        CountAtLeast(before, b, cutoff, idx);
      }
    }
  }

  lemma {:induction false} CountWitness(h: seq<Event>, b: Bucket, cutoff: real, n: nat) returns (idx: seq<int>)
    requires CountAfter(h, b, cutoff) >= n
    ensures Positions(idx, h) && |idx| == n
    ensures forall k :: 0 <= k < n ==> Records(h[idx[k]], b) && h[idx[k]].at > cutoff
    ensures n > 0 ==> forall j :: idx[0] < j < |h| ==> !Clears(h[j], b)
    decreases |h|
  {
    idx := [];
    if n > 0 {
      var e, before := h[|h| - 1], h[..|h| - 1];
      if Records(e, b) && e.at > cutoff {
        idx := CountWitness(before, b, cutoff, n - 1);
        idx := idx + [|h| - 1];
      } else {
        idx := CountWitness(before, b, cutoff, n);
      }
    }
  }

  /** Three uses of a credential since its last reset, in the last minute: permitted reveals and denied requests. */
  ghost predicate CredentialUses(h: seq<Event>, idx: seq<int>, key: CredentialKey, now: real) {
    && Positions(idx, h) && |idx| == 3
    && (forall k :: 0 <= k < 3 ==>
          var e := h[idx[k]];
          ((e.Attempt? && e.refused.None?) || e.Denied?) && e.key == key && e.at > now - 60.0)
    && forall j :: idx[0] < j < |h| ==> h[j] != Reset(key)
  }

  /** Ten permitted reveals by an administrator in the last ten minutes. */
  ghost predicate AdministratorUses(h: seq<Event>, idx: seq<int>, user: string, now: real) {
    && Positions(idx, h) && |idx| == 10
    && forall k :: 0 <= k < 10 ==>
         var e := h[idx[k]];
         e.Attempt? && e.refused.None? && e.user == user && e.at > now - 600.0
  }

  /** A credential's limit is reached by three such uses in the last minute. */
  lemma {:induction false} CredentialFullIff(h: seq<Event>, key: CredentialKey, now: real)
    ensures Full(h, OfCredential(key), now) <==> exists idx :: CredentialUses(h, idx, key, now)
  {
    var b := OfCredential(key);
    if idx :| CredentialUses(h, idx, key, now) {
      CountAtLeast(h, b, now - 60.0, idx);
    }
    if Full(h, b, now) {
      var idx := CountWitness(h, b, now - 60.0, 3);
      assert CredentialUses(h, idx, key, now);
    }
  }

  /** An administrator's limit is reached by ten permitted reveals in the last ten minutes. */
  lemma {:induction false} AdministratorFullIff(h: seq<Event>, user: string, now: real)
    ensures Full(h, OfAdministrator(user), now) <==> exists idx :: AdministratorUses(h, idx, user, now)
  {
    var b := OfAdministrator(user);
    if idx :| AdministratorUses(h, idx, user, now) {
      CountAtLeast(h, b, now - 600.0, idx);
    }
    if Full(h, b, now) {
      var idx := CountWitness(h, b, now - 600.0, 10);
      assert AdministratorUses(h, idx, user, now);
    }
  }

  /** When a request is refused, and by which limit: the credential's is looked at first. */
  lemma {:induction false} RefusedIff(h: seq<Event>, user: string, key: CredentialKey, now: real)
    ensures Decide(h, user, key, now) == Some(CredentialRateLimit)
            <==> exists idx :: CredentialUses(h, idx, key, now)
    ensures Decide(h, user, key, now) == None
            <==> !(exists idx :: CredentialUses(h, idx, key, now))
                 && !(exists idx :: AdministratorUses(h, idx, user, now))
  {
    CredentialFullIff(h, key, now);
    AdministratorFullIff(h, user, now);
  }

  /**
   One more permitted attempt than the limit, with no reset between the first and the last, spans
   the whole window: four reveals of a credential take a minute, eleven by an administrator ten.
   */
  lemma {:induction false} PermittedAttemptsAreSpaced(h: seq<Event>, latest: real, b: Bucket, idx: seq<int>)
    requires Chronological(h, latest) && Decided(h)
    requires Positions(idx, h) && |idx| == Limit(b) + 1
    requires forall k :: 0 <= k < |idx| ==> Permitted(h[idx[k]], b)
    requires forall j :: idx[0] < j < idx[Limit(b)] ==> !Clears(h[j], b)
    ensures h[idx[Limit(b)]].Attempt? && h[idx[0]].Attempt?
    ensures h[idx[Limit(b)]].at - h[idx[0]].at >= Window(b)
  {
    var last := idx[Limit(b)];
    assert Permitted(h[last], b) && Permitted(h[idx[0]], b);
    var e, before, earlier := h[last], h[..last], idx[..Limit(b)];
    assert DecidedAt(h, last);
    assert !Full(before, b, e.at);
    if e.at - h[idx[0]].at < Window(b) {
      forall k | 0 <= k < |earlier| ensures before[earlier[k]].at > e.at - Window(b) {
        assert h[idx[0]].at <= h[idx[k]].at;
      }
      assert Positions(earlier, before);
      CountAtLeast(before, b, e.at - Window(b), earlier);
    }
  }
}
