/**
 The Reveal audit log (reveal.py, RevealAuditRepository): appended to under a lock, pruned to one
 year before the new event, sorted by time and cut to the newest 10,000 events, written before the
 in-memory copy is replaced. Timestamps are microseconds.
 */
module RevealAudit {
  import opened Results

  datatype Outcome = Revealed | Denied | RateLimited | CredentialMissing | VaultUnavailable | Failed

  datatype AuditEvent = AuditEvent(id: Uuid, timestamp: int, user: string, person: Uuid, door: Option<Uuid>,
                                   outcome: Outcome)

  const RETENTION := 365 * 24 * 3600 * 1_000_000
  const MAX_EVENTS := 10_000

  function Recent(s: seq<AuditEvent>, cutoff: int): seq<AuditEvent> {
    if s == [] then []
    else Recent(s[..|s| - 1], cutoff) + (if s[|s| - 1].timestamp >= cutoff then [s[|s| - 1]] else [])
  }

  /** Stable insertion: after every event that is not later. */
  function InsertByTime(s: seq<AuditEvent>, e: AuditEvent): seq<AuditEvent> {
    if s == [] || s[|s| - 1].timestamp <= e.timestamp then s + [e]
    else InsertByTime(s[..|s| - 1], e) + [s[|s| - 1]]
  }

  function SortByTime(s: seq<AuditEvent>): seq<AuditEvent> {
    if s == [] then [] else InsertByTime(SortByTime(s[..|s| - 1]), s[|s| - 1])
  }

  function Newest(s: seq<AuditEvent>, n: nat): seq<AuditEvent> {
    if |s| > n then s[|s| - n..] else s
  }

  /** The list one append writes. */
  function Appended(events: seq<AuditEvent>, e: AuditEvent): seq<AuditEvent> {
    Newest(SortByTime(Recent(events, e.timestamp - RETENTION) + [e]), MAX_EVENTS)
  }

  ghost predicate Chronological(s: seq<AuditEvent>) {
    |s| >= 2 ==> s[|s| - 2].timestamp <= s[|s| - 1].timestamp && Chronological(s[..|s| - 1])
  }

  /** The log an auditor expects: the newest 10,000 of all events within a year of the newest. */
  function Retained(h: seq<AuditEvent>): seq<AuditEvent> {
    if h == [] then [] else Newest(Recent(h, h[|h| - 1].timestamp - RETENTION), MAX_EVENTS)
  }

  // ----- on chronological events every list involved is a suffix -----

  /** How many leading events a cutoff drops. */
  function Cut(h: seq<AuditEvent>, cutoff: int): nat {
    if h == [] then 0
    else if h[|h| - 1].timestamp < cutoff then |h|
    else Cut(h[..|h| - 1], cutoff)
  }

  lemma {:induction false} CutFacts(h: seq<AuditEvent>, earlier: int, later: int)
    requires earlier <= later
    ensures Cut(h, earlier) <= Cut(h, later) <= |h|
  {
    if h != [] { CutFacts(h[..|h| - 1], earlier, later); }
  }

  lemma {:induction false} RecentSuffixStep(h: seq<AuditEvent>, k: nat, cutoff: int)
    requires k < |h|
    ensures Recent(h[k..], cutoff)
            == Recent(h[..|h| - 1][k..], cutoff) + (if h[|h| - 1].timestamp >= cutoff then [h[|h| - 1]] else [])
  {
    assert h[k..][..|h[k..]| - 1] == h[..|h| - 1][k..];
  }

  lemma {:induction false} SuffixStep(h: seq<AuditEvent>, k: nat)
    requires k < |h|
    ensures h[..|h| - 1][k..] + [h[|h| - 1]] == h[k..]
  {
  }

  /** Filtering a suffix by age leaves a suffix. */
  lemma {:induction false} RecentOfSuffix(h: seq<AuditEvent>, k: nat, cutoff: int)
    requires Chronological(h) && k <= |h|
    ensures Cut(h, cutoff) <= |h|
    ensures Recent(h[k..], cutoff) == h[Max(k, Cut(h, cutoff))..]
    decreases |h|
  {
    CutFacts(h, cutoff, cutoff);
    if k < |h| {
      RecentOfSuffix(h[..|h| - 1], k, cutoff);
      RecentSuffixStep(h, k, cutoff);
      if h[|h| - 1].timestamp < cutoff {
        OldBeforeOld(h, cutoff);
      } else {
        CutFacts(h[..|h| - 1], cutoff, cutoff);
        SuffixStep(h, Max(k, Cut(h, cutoff)));
      }
    }
  }

  /** Before an event that is too old, all are. */
  lemma {:induction false} OldBeforeOld(h: seq<AuditEvent>, cutoff: int)
    requires Chronological(h) && h != []
    ensures h[|h| - 1].timestamp < cutoff ==> Cut(h[..|h| - 1], cutoff) == |h| - 1
  {
  }

  lemma {:induction false} InsertAtEnd(s: seq<AuditEvent>, e: AuditEvent)
    requires s == [] || s[|s| - 1].timestamp <= e.timestamp
    ensures InsertByTime(s, e) == s + [e]
  {
  }

  lemma {:induction false} SortKeepsChronological(s: seq<AuditEvent>)
    requires Chronological(s)
    ensures SortByTime(s) == s
  {
    if s != [] {
      var before, e := s[..|s| - 1], s[|s| - 1];
      ChronologicalFront(s);
      SortKeepsChronological(before);
      InsertAtEnd(before, e);
    }
  }

  lemma {:induction false} ChronologicalFront(s: seq<AuditEvent>)
    requires Chronological(s) && s != []
    ensures var before, last := s[..|s| - 1], s[|s| - 1];
            s == before + [last] && Chronological(before)
            && (before != [] ==> before[|before| - 1].timestamp <= last.timestamp)
  {
  }

  lemma {:induction false} SuffixChronological(s: seq<AuditEvent>, k: nat)
    requires Chronological(s) && k <= |s|
    ensures Chronological(s[k..])
  {
    if k + 2 <= |s| {
      SuffixChronological(s[..|s| - 1], k);
      assert s[k..][..|s| - k - 1] == s[..|s| - 1][k..];
    }
  }

  /** The expected log of a history starts at this position. */
  function Start(h: seq<AuditEvent>, newest: int, n: nat): int {
    Max(Cut(h, newest - RETENTION), |h| - n)
  }

  lemma {:induction false} RetainedIsSuffix(h: seq<AuditEvent>)
    requires Chronological(h) && h != []
    ensures 0 <= Start(h, h[|h| - 1].timestamp, MAX_EVENTS) <= |h|
    ensures Retained(h) == h[Start(h, h[|h| - 1].timestamp, MAX_EVENTS)..]
  {
    var cutoff := h[|h| - 1].timestamp - RETENTION;
    RecentIsSuffix(h, cutoff);
    NewestOfSuffix(h, Cut(h, cutoff), MAX_EVENTS);
  }

  lemma {:induction false} RecentIsSuffix(h: seq<AuditEvent>, cutoff: int)
    requires Chronological(h)
    ensures Cut(h, cutoff) <= |h| && Recent(h, cutoff) == h[Cut(h, cutoff)..]
  {
    RecentOfSuffix(h, 0, cutoff);
    assert h[0..] == h;
  }

  lemma {:induction false} CutAppend(h: seq<AuditEvent>, e: AuditEvent)
    ensures Cut(h + [e], e.timestamp - RETENTION) == Cut(h, e.timestamp - RETENTION)
  {
    assert (h + [e])[..|h|] == h;
  }

  lemma {:induction false} NewestOfSuffix(g: seq<AuditEvent>, k: nat, n: nat)
    requires k <= |g|
    ensures Newest(g[k..], n) == g[Max(k, |g| - n)..]
  {
  }

  lemma {:induction false} StartGrows(h: seq<AuditEvent>, earlier: int, later: int, n: nat)
    requires earlier <= later
    ensures Start(h, earlier, n) <= Start(h, later, n)
    ensures Max(Start(h, earlier, n), Cut(h, later - RETENTION)) == Start(h, later, n)
  {
    CutFacts(h, earlier - RETENTION, later - RETENTION);
  }

  /** Filtering what was retained by the next event's age limit. */
  lemma {:induction false} RecentOfRetained(h: seq<AuditEvent>, now: int)
    requires Chronological(h) && (h != [] ==> h[|h| - 1].timestamp <= now)
    ensures 0 <= Start(h, now, MAX_EVENTS) <= |h|
    ensures Recent(Retained(h), now - RETENTION) == h[Start(h, now, MAX_EVENTS)..]
  {
    CutFacts(h, now - RETENTION, now - RETENTION);
    if h != [] {
      var last := h[|h| - 1].timestamp;
      RetainedIsSuffix(h);
      RecentOfSuffix(h, Start(h, last, MAX_EVENTS), now - RETENTION);
      StartGrows(h, last, now, MAX_EVENTS);
    }
  }

  /** The expected log after one more event starts where the filtered log did, or one later. */
  lemma {:induction false} RetainedAfter(h: seq<AuditEvent>, e: AuditEvent, k: nat)
    requires Chronological(h + [e]) && k == Start(h, e.timestamp, MAX_EVENTS) && k <= |h|
    ensures Retained(h + [e]) == Newest((h + [e])[k..], MAX_EVENTS)
  {
    var g := h + [e];
    RetainedIsSuffix(g);
    StartAfter(h, e);
    NewestOfSuffix(g, k, MAX_EVENTS);
  }

  lemma {:induction false} StartAfter(h: seq<AuditEvent>, e: AuditEvent)
    ensures Start(h + [e], e.timestamp, MAX_EVENTS) == Max(Start(h, e.timestamp, MAX_EVENTS), |h + [e]| - MAX_EVENTS)
  {
    CutAppend(h, e);
  }

  lemma {:induction false} ChronologicalAppend(h: seq<AuditEvent>, e: AuditEvent)
    requires Chronological(h) && (h != [] ==> h[|h| - 1].timestamp <= e.timestamp)
    ensures Chronological(h + [e])
  {
    assert (h + [e])[..|h|] == h;
  }

  lemma {:induction false} SortedTail(h: seq<AuditEvent>, e: AuditEvent, k: nat)
    requires Chronological(h + [e]) && k <= |h|
    ensures SortByTime(h[k..] + [e]) == (h + [e])[k..]
  {
    assert h[k..] + [e] == (h + [e])[k..];
    SuffixChronological(h + [e], k);
    SortKeepsChronological((h + [e])[k..]);
  }

  lemma {:induction false} AppendedFrom(events: seq<AuditEvent>, e: AuditEvent, kept: seq<AuditEvent>)
    requires Recent(events, e.timestamp - RETENTION) == kept
    ensures Appended(events, e) == Newest(SortByTime(kept + [e]), MAX_EVENTS)
  {
  }

  /** One append, in order of time, moves the expected log to the expected log. */
  lemma {:induction false} AppendRetains(h: seq<AuditEvent>, e: AuditEvent)
    requires Chronological(h) && (h != [] ==> h[|h| - 1].timestamp <= e.timestamp)
    ensures Chronological(h + [e])
    ensures Appended(Retained(h), e) == Retained(h + [e])
  {
    var k := Start(h, e.timestamp, MAX_EVENTS);
    ChronologicalAppend(h, e);
    RecentOfRetained(h, e.timestamp);
    AppendedFrom(Retained(h), e, h[k..]);
    SortedTail(h, e, k);
    RetainedAfter(h, e, k);
  }

  lemma {:induction false} CutMeans(h: seq<AuditEvent>, cutoff: int)
    requires Chronological(h)
    ensures forall i :: 0 <= i < |h| ==> (Cut(h, cutoff) <= i <==> h[i].timestamp >= cutoff)
  {
    if h != [] {
      var before := h[..|h| - 1];
      CutMeans(before, cutoff);
      CutFacts(before, cutoff, cutoff);
      OldBeforeOld(h, cutoff);
      assert forall i :: 0 <= i < |before| ==> before[i] == h[i];
    }
  }

  /** The log is exactly the last 10,000 of the events up to 365 days older than the newest. */
  lemma {:induction false} RetainedMeans(h: seq<AuditEvent>) returns (k: nat)
    requires Chronological(h) && h != []
    ensures k <= |h| && Retained(h) == h[k..]
    ensures forall i :: 0 <= i < |h| ==>
              (k <= i <==> h[|h| - 1].timestamp - h[i].timestamp <= 365 * 86_400 * 1_000_000 && |h| - i <= 10_000)
  {
    RetainedIsSuffix(h);
    k := Start(h, h[|h| - 1].timestamp, MAX_EVENTS);
    CutMeans(h, h[|h| - 1].timestamp - RETENTION);
  }

  // ----- when the clock runs back -----

  lemma {:induction false} InsertedEvents(s: seq<AuditEvent>, e: AuditEvent)
    ensures multiset(InsertByTime(s, e)) == multiset(s) + multiset{e}
  {
    if s != [] && s[|s| - 1].timestamp > e.timestamp {
      var before, last := s[..|s| - 1], s[|s| - 1];
      InsertedEvents(before, e);
      assert s == before + [last];
      assert InsertByTime(s, e) == InsertByTime(before, e) + [last];
    }
  }

  lemma {:induction false} SortedEvents(s: seq<AuditEvent>)
    ensures multiset(SortByTime(s)) == multiset(s)
  {
    if s != [] {
      var before, last := s[..|s| - 1], s[|s| - 1];
      SortedEvents(before);
      InsertedEvents(SortByTime(before), last);
      assert s == before + [last];
    }
  }

  /** The last event of a sorted insertion is the one that was last, or the new one. */
  lemma {:induction false} InsertedLast(s: seq<AuditEvent>, e: AuditEvent)
    ensures InsertByTime(s, e) != []
    ensures var t := InsertByTime(s, e);
            t[|t| - 1] == if s != [] && s[|s| - 1].timestamp > e.timestamp then s[|s| - 1] else e
  {
  }

  lemma {:induction false} ChronologicalThen(s: seq<AuditEvent>, last: AuditEvent)
    requires Chronological(s) && (s != [] ==> s[|s| - 1].timestamp <= last.timestamp)
    ensures Chronological(s + [last])
  {
    assert (s + [last])[..|s|] == s;
  }

  lemma {:induction false} InsertedInOrder(s: seq<AuditEvent>, e: AuditEvent)
    requires Chronological(s)
    ensures Chronological(InsertByTime(s, e))
  {
    if s != [] && s[|s| - 1].timestamp > e.timestamp {
      var before, last := s[..|s| - 1], s[|s| - 1];
      ChronologicalFront(s);
      InsertedInOrder(before, e);
      InsertedLast(before, e);
      ChronologicalThen(InsertByTime(before, e), last);
    } else {
      ChronologicalThen(s, e);
    }
  }

  lemma {:induction false} SortedInOrder(s: seq<AuditEvent>)
    ensures Chronological(SortByTime(s))
  {
    if s != [] {
      SortedInOrder(s[..|s| - 1]);
      InsertedInOrder(SortByTime(s[..|s| - 1]), s[|s| - 1]);
    }
  }

  lemma {:induction false} RecentMeans(s: seq<AuditEvent>, cutoff: int, x: AuditEvent)
    ensures multiset(Recent(s, cutoff))[x] == if x.timestamp >= cutoff then multiset(s)[x] else 0
  {
    if s != [] {
      var before, last := s[..|s| - 1], s[|s| - 1];
      RecentMeans(before, cutoff, x);
      assert s == before + [last];
    }
  }

  lemma {:induction false} NewestSplits(s: seq<AuditEvent>, n: nat) returns (dropped: seq<AuditEvent>)
    ensures dropped + Newest(s, n) == s
    ensures dropped != [] ==> |Newest(s, n)| == n
  {
    dropped := if |s| > n then s[..|s| - n] else [];
  }

  /** How often an event occurs among those an append sorts. */
  lemma {:induction false} SortedCounts(events: seq<AuditEvent>, e: AuditEvent, cutoff: int, x: AuditEvent)
    ensures multiset(SortByTime(Recent(events, cutoff) + [e]))[x]
            == (if x.timestamp >= cutoff then multiset(events)[x] else 0) + (if x == e then 1 else 0)
  {
    SortedEvents(Recent(events, cutoff) + [e]);
    RecentMeans(events, cutoff, x);
  }

  /**
   Whatever the clock does, an append keeps the new event and every event up to a year older than it,
   in order of time, but for the oldest beyond 10,000.
   */
  lemma {:induction false} AppendedMeans(events: seq<AuditEvent>, e: AuditEvent) returns (dropped: seq<AuditEvent>)
    ensures Chronological(dropped + Appended(events, e))
    ensures dropped != [] ==> |Appended(events, e)| == 10_000
    ensures forall x :: multiset(dropped + Appended(events, e))[x] ==
                        (if x.timestamp >= e.timestamp - RETENTION then multiset(events)[x] else 0)
                        + (if x == e then 1 else 0)
  {
    var sorted := SortByTime(Recent(events, e.timestamp - RETENTION) + [e]);
    SortedInOrder(Recent(events, e.timestamp - RETENTION) + [e]);
    dropped := NewestSplits(sorted, MAX_EVENTS);
    AppendedFrom(events, e, Recent(events, e.timestamp - RETENTION));
    forall x: AuditEvent
      ensures multiset(sorted)[x] == (if x.timestamp >= e.timestamp - RETENTION then multiset(events)[x] else 0)
                                     + (if x == e then 1 else 0)
    {
      SortedCounts(events, e, e.timestamp - RETENTION, x);
    }
  }

  /** Never more than 10,000 entries, whatever the clock does. */
  lemma {:induction false} AppendedIsBounded(events: seq<AuditEvent>, e: AuditEvent)
    ensures |Appended(events, e)| <= MAX_EVENTS
  {
  }

  datatype AuditError = AuditFailed

  class RevealAuditRepository {
    var disk: Option<seq<AuditEvent>>
    var events: Option<seq<AuditEvent>>
    ghost var committed: seq<AuditEvent>  // every event whose write succeeded, oldest first

    ghost predicate Valid()
      reads this
    {
      && Chronological(committed)
      && (if disk.Some? then disk.value else []) == Retained(committed)
      && (events.Some? ==> events.value == Retained(committed))
    }

    constructor ()
      ensures Valid() && committed == []
    {
      disk, events, committed := None, None, [];
    }

    /** A restart forgets the in-memory copy only. */
    method Restart()
      requires Valid()
      modifies this
      ensures Valid() && committed == old(committed)
      ensures disk == old(disk) && events.None?
    {
      events := None;
    }

    method LoadUnlocked(readOk: bool) returns (r: Result<seq<AuditEvent>, AuditError>)
      requires Valid()
      modifies this`events
      ensures Valid()
      ensures r == (if old(events).Some? || readOk then Ok(Retained(committed)) else Err(AuditFailed))
      ensures events == if r.Ok? then Some(Retained(committed)) else old(events)
    {
      if events.Some? { return Ok(events.value); }
      if !readOk { return Err(AuditFailed); }
      events := Some(if disk.Some? then disk.value else []);
      return Ok(events.value);
    }

    /** The list to write: filtered by age, with the event, sorted, and cut to its newest. */
    method ListWith(loaded: seq<AuditEvent>, e: AuditEvent) returns (kept: seq<AuditEvent>)
      requires Chronological(committed) && loaded == Retained(committed)
      requires committed != [] ==> committed[|committed| - 1].timestamp <= e.timestamp
      ensures Chronological(committed + [e]) && kept == Retained(committed + [e])
    {
      kept := Appended(loaded, e);
      AppendRetains(committed, e);
    }

    /** The event is durable exactly when the load and the write succeed; otherwise nothing changes. */
    method Append(e: AuditEvent, readOk: bool, writeOk: bool) returns (ok: bool)
      requires Valid()
      requires committed != [] ==> committed[|committed| - 1].timestamp <= e.timestamp
      modifies this
      ensures Valid()
      ensures ok <==> (old(events).Some? || readOk) && writeOk
      ensures committed == if ok then old(committed) + [e] else old(committed)
      ensures !ok ==> disk == old(disk)
    {
      var loaded := LoadUnlocked(readOk);
      if loaded.Err? { return false; }
      var kept := ListWith(loaded.value, e);
      if !writeOk { return false; }
      Publish(kept, e);
      ok := true;
    }

    /** Replace the durable and the in-memory list by the list just written. */
    method Publish(kept: seq<AuditEvent>, ghost e: AuditEvent)
      requires Chronological(committed + [e]) && kept == Retained(committed + [e])
      modifies this
      ensures Valid()
      ensures committed == old(committed) + [e] && disk == Some(kept) && events == Some(kept)
    {
      disk := Some(kept);
      events := Some(kept);
      committed := committed + [e];
    }
  }
}

/**
 Reveal itself (reveal.py, CredentialRevealService.reveal): rate check, person, credential, vault,
 and an audit event written before anything is returned. The other services answer as parameters.
 */
module Reveal {
  import opened Results
  import RateLimiter
  import opened RevealAudit

  datatype PersonLookup = PersonFound | PersonMissing | PersonLookupFailed
  datatype CredentialLookup = CredentialFound | NoCredential | LookupConflict
  datatype VaultAnswer = Plaintext(secret: string) | NotInVault | VaultDown | VaultBroken

  /** How one audit write goes: the event's fresh identifier, its time, and whether storage works. */
  datatype AuditWrite = AuditWrite(id: Uuid, timestamp: int, readOk: bool, writeOk: bool)

  datatype RevealResult =
    | Secret(secret: string)
    | TooManyRequests(retryAfter: int)
    | CredentialUnavailable
    | VaultIsUnavailable
    | RevealFailed
    | AuditNotCommitted
    | IndexRaised  // retry_after read beyond a deque that other requests shortened meanwhile

  /** The outcome recorded for the answer to a request that was not refused. */
  function OutcomeOf(r: RevealResult): Outcome {
    match r
    case Secret(_) => Revealed
    case CredentialUnavailable => CredentialMissing
    case VaultIsUnavailable => VaultUnavailable
    case _ => Failed
  }

  /** The audit log with one more event, recording this outcome, unless that could not be written. */
  function Committed(before: seq<AuditEvent>, written: bool, outcome: Outcome, user: string, person: Uuid,
                     door: Option<Uuid>,
                     w: AuditWrite): seq<AuditEvent>
  {
    if written then before + [AuditEvent(w.id, w.timestamp, user, person, door, outcome)] else before
  }

  /** No such person, no credential of theirs for the Door, or none in the vault. */
  predicate Missing(lookup: PersonLookup, credential: CredentialLookup, vault: VaultAnswer) {
    lookup.PersonMissing?
    || (lookup.PersonFound? && (credential.NoCredential? || (credential.CredentialFound? && vault.NotInVault?)))
  }

  /** Everything is found and the vault answers so. */
  predicate VaultSays(lookup: PersonLookup, credential: CredentialLookup, vault: VaultAnswer, answer: VaultAnswer) {
    lookup.PersonFound? && credential.CredentialFound? && vault == answer
  }

  /**
   Every answer to a permitted request has its own event, of this request and this outcome: REVEALED
   for a secret, which is the vault's, CREDENTIAL_MISSING, VAULT_UNAVAILABLE, and FAILED for the rest.
   An event that cannot be written leaves the log as it was and nothing is answered.
   */
  ghost predicate Accounted(before: seq<AuditEvent>, after: seq<AuditEvent>, r: RevealResult, written: bool,
                            user: string, person: Uuid, door: Option<Uuid>, w: AuditWrite,
                            lookup: PersonLookup, credential: CredentialLookup, vault: VaultAnswer)
  {
    var missing := Missing(lookup, credential, vault);
    var down := VaultSays(lookup, credential, vault, VaultDown);
    if !written then after == before && r.AuditNotCommitted?
    else
      && |after| == |before| + 1
      && var e := after[|before|];
         && after == before + [e]
         && e == AuditEvent(w.id, w.timestamp, user, person, door, e.outcome)
         && e.outcome in {Revealed, CredentialMissing, VaultUnavailable, Failed}
         && (e.outcome == Revealed <==> r.Secret?)
         && (e.outcome == Failed <==> r.RevealFailed?)
         && (e.outcome == CredentialMissing <==> missing) && (r.CredentialUnavailable? <==> missing)
         && (e.outcome == VaultUnavailable <==> down) && (r.VaultIsUnavailable? <==> down)
         && (r.Secret? <==> lookup.PersonFound? && credential.CredentialFound? && vault.Plaintext?)
         && (r.Secret? ==> VaultSays(lookup, credential, vault, Plaintext(r.secret)))
  }

  /** What other requests do to the limiter while this one waits for its audit write. */
  datatype Other =
    | Check(user: string, key: RateLimiter.CredentialKey, at: real)
    | Deny(key: RateLimiter.CredentialKey, at: real)
    | Replace(key: RateLimiter.CredentialKey)

  /** The clock after one of them. */
  function ClockOf(o: Other, from: real): real {
    if o.Replace? then from else o.at
  }

  /** Their clock readings go on from `from`. */
  predicate ClockRuns(others: seq<Other>, from: real) {
    others == [] || (ClockOf(others[0], from) >= from && ClockRuns(others[1..], ClockOf(others[0], from)))
  }

  function ClockAfter(others: seq<Other>, from: real): real {
    if others == [] then from else ClockAfter(others[1..], ClockOf(others[0], from))
  }

  /** Position `i` of the history is the refusal of this request. */
  predicate RefusedAt(h: seq<RateLimiter.Event>, i: nat, user: string, key: RateLimiter.CredentialKey,
                      reason: RateLimiter.Reason)
  {
    i < |h| && h[i].Attempt? && h[i].refused == Some(reason) && h[i].user == user && h[i].key == key
  }

  lemma {:induction false} StillRefused(h: seq<RateLimiter.Event>, more: seq<RateLimiter.Event>, i: nat, user: string,
                                        key: RateLimiter.CredentialKey, reason: RateLimiter.Reason)
    requires RefusedAt(h, i, user, key, reason)
    ensures RefusedAt(h + more, i, user, key, reason)
  {
  }

  /** The event one of them leaves in the limiter's history. */
  predicate Left(o: Other, e: RateLimiter.Event) {
    match o
    case Check(user, key, at) => e.Attempt? && e.user == user && e.key == key && e.at == at
    case Deny(key, at) => e == RateLimiter.Denied(at, key)
    case Replace(key) => e == RateLimiter.Reset(key)
  }

  class CredentialRevealService {
    const limiter: RateLimiter.RevealRateLimiter
    const audit: RevealAuditRepository

    constructor (limiter: RateLimiter.RevealRateLimiter, audit: RevealAuditRepository)
      ensures this.limiter == limiter && this.audit == audit
    {
      this.limiter, this.audit := limiter, audit;
    }

    ghost predicate Valid()
      reads this, limiter, audit
    {
      limiter.Valid() && audit.Valid()
    }

    /** Commit one audit event for this request. */
    method Audit(user: string, person: Uuid, door: Option<Uuid>, outcome: Outcome, w: AuditWrite) returns (ok: bool)
      requires audit.Valid()
      requires audit.committed != [] ==> audit.committed[|audit.committed| - 1].timestamp <= w.timestamp
      modifies audit
      ensures audit.Valid()
      ensures ok <==> (old(audit.events).Some? || w.readOk) && w.writeOk
      ensures audit.committed == Committed(old(audit.committed), ok, outcome, user, person, door, w)
    {
      ok := audit.Append(AuditEvent(w.id, w.timestamp, user, person, door, outcome), w.readOk, w.writeOk);
    }

    /** One call of another request. */
    method Interleave(o: Other) returns (ghost e: RateLimiter.Event)
      requires limiter.Valid() && ClockOf(o, limiter.latest) >= limiter.latest
      modifies limiter
      ensures limiter.Valid() && limiter.history == old(limiter.history) + [e] && Left(o, e)
      ensures limiter.latest == ClockOf(o, old(limiter.latest))
    {
      match o {
        case Check(user, key, at) =>
          var refused := limiter.CheckAndRecord(user, key, at);
          e := RateLimiter.Attempt(at, user, key, refused);
        case Deny(key, at) =>
          limiter.RecordDenied(key, at);
          e := RateLimiter.Denied(at, key);
        case Replace(key) =>
          limiter.ResetCredential(key);
          e := RateLimiter.Reset(key);
      }
    }

    /** An await: any number of calls of other requests, in the order of the clock. */
    method Await(others: seq<Other>) returns (ghost events: seq<RateLimiter.Event>)
      requires limiter.Valid() && ClockRuns(others, limiter.latest)
      modifies limiter
      ensures limiter.Valid() && limiter.history == old(limiter.history) + events
      ensures limiter.latest == ClockAfter(others, old(limiter.latest))
      ensures |events| == |others| && forall i :: 0 <= i < |others| ==> Left(others[i], events[i])
    {
      events := [];
      for n := 0 to |others|
        invariant limiter.Valid() && limiter.history == old(limiter.history) + events
        invariant ClockRuns(others[n..], limiter.latest)
        invariant ClockAfter(others[n..], limiter.latest) == ClockAfter(others, old(limiter.latest))
        invariant |events| == n && forall i :: 0 <= i < n ==> Left(others[i], events[i])
      {
        assert others[n..][1..] == others[n + 1..];
        ghost var e := Interleave(others[n]);
        events := events + [e];
      }
    }

    /** The audit write with its await. */
    method AuditAmongOthers(user: string, person: Uuid, door: Option<Uuid>, outcome: Outcome, w: AuditWrite,
                            others: seq<Other>)
      returns (ok: bool, ghost meanwhile: seq<RateLimiter.Event>)
      requires Valid() && ClockRuns(others, limiter.latest)
      requires audit.committed != [] ==> audit.committed[|audit.committed| - 1].timestamp <= w.timestamp
      modifies limiter, audit
      ensures Valid() && limiter.history == old(limiter.history) + meanwhile
      ensures limiter.latest == ClockAfter(others, old(limiter.latest))
      ensures |meanwhile| == |others| && forall i :: 0 <= i < |others| ==> Left(others[i], meanwhile[i])
      ensures ok <==> (old(audit.events).Some? || w.readOk) && w.writeOk
      ensures audit.committed == Committed(old(audit.committed), ok, outcome, user, person, door, w)
    {
      meanwhile := Await(others);
      ok := Audit(user, person, door, outcome, w);
    }

    /**
     The answer is the least wait, another number, or an exception exactly as the deque stands now;
     it is the least wait if, from that point on, nothing lowered the window.
     */
    ghost predicate Answered(r: RevealResult, b: RateLimiter.Bucket, from: nat, asked: real)
      reads this, limiter
    {
      && (r.IndexRaised? ==> 2 * |limiter.Deque(b)| < RateLimiter.Limit(b))
      && (r.TooManyRequests? ==>
            2 * |limiter.Deque(b)| >= RateLimiter.Limit(b)
            && (RateLimiter.LeastWait(limiter.history, b, asked, r.retryAfter)
                <==> RateLimiter.AnswersRight(limiter.Deque(b), b, asked)))
      && (!r.AuditNotCommitted? && NothingLowers(b, from) ==>
            r.TooManyRequests? && RateLimiter.LeastWait(limiter.history, b, asked, r.retryAfter))
    }

    ghost predicate NothingLowers(b: RateLimiter.Bucket, from: nat)
      reads this, limiter
    {
      forall j :: from <= j < |limiter.history| ==> !RateLimiter.Lowers(limiter.history, j, b)
    }

    ghost function Window(reason: RateLimiter.Reason, user: string, person: Uuid, door: Option<Uuid>)
      : RateLimiter.Bucket
    {
      RateLimiter.RefusedBy(reason, user, RateLimiter.CredentialKey(person, door))
    }

    /**
     A refused request: audited first, while other requests run; only then are clock and deque read
     for the answer. It is the least wait exactly as the deque then stands, and certainly if nothing
     in between cleared the window or looked at it after its limit had passed.
     */
    method Refuse(user: string, person: Uuid, door: Option<Uuid>, reason: RateLimiter.Reason, w: AuditWrite,
                  others: seq<Other>, asked: real)
      returns (r: RevealResult, ghost meanwhile: seq<RateLimiter.Event>)
      requires Valid() && limiter.history != []
      requires RefusedAt(limiter.history, |limiter.history| - 1, user, RateLimiter.CredentialKey(person, door), reason)
      requires ClockRuns(others, limiter.latest) && asked >= ClockAfter(others, limiter.latest)
      requires audit.committed != [] ==> audit.committed[|audit.committed| - 1].timestamp <= w.timestamp
      modifies limiter, audit
      ensures Valid() && limiter.history == old(limiter.history) + meanwhile
      ensures |meanwhile| == |others| && forall i :: 0 <= i < |others| ==> Left(others[i], meanwhile[i])
      ensures r.TooManyRequests? || r.IndexRaised? || r.AuditNotCommitted?
      ensures r.AuditNotCommitted? <==> !((old(audit.events).Some? || w.readOk) && w.writeOk)
      ensures Answered(r, Window(reason, user, person, door), |old(limiter.history)|, asked)
      ensures audit.committed
              == Committed(old(audit.committed), !r.AuditNotCommitted?, RateLimited, user, person, door, w)
    {
      ghost var i: nat := |limiter.history| - 1;
      ghost var h := limiter.history;
      var ok;
      ok, meanwhile := AuditAmongOthers(user, person, door, RateLimited, w, others);
      if !ok { return AuditNotCommitted, meanwhile; }
      StillRefused(h, meanwhile, i, user, RateLimiter.CredentialKey(person, door), reason);
      r := WaitingTime(user, person, door, reason, i, asked);
    }

    /** `retry_after`, for the refusal at position `i` of the history. */
    method WaitingTime(user: string, person: Uuid, door: Option<Uuid>, reason: RateLimiter.Reason, ghost i: nat,
                       asked: real)
      returns (r: RevealResult)
      requires limiter.Valid() && asked >= limiter.latest
      requires RefusedAt(limiter.history, i, user, RateLimiter.CredentialKey(person, door), reason)
      ensures r.TooManyRequests? || r.IndexRaised?
      ensures Answered(r, Window(reason, user, person, door), i + 1, asked)
    {
      var seconds := limiter.RetryAfterSeconds(reason, user, RateLimiter.CredentialKey(person, door), asked);
      r := if seconds.Some? then TooManyRequests(seconds.value) else IndexRaised;
      if NothingLowers(Window(reason, user, person, door), i + 1) {
        RateLimiter.RefusalAnsweredExactly(limiter.history, i, limiter.latest, asked);
      }
    }

    /**
     A secret is returned exactly when the limiter, the person, the credential, the vault and the
     audit write all allow it, and then its REVEALED event is in the log; every other answer but a
     failed audit leaves its own event as well.
     */
    method Reveal(user: string, person: Uuid, door: Option<Uuid>, now: real,
                  lookup: PersonLookup, credential: CredentialLookup, vault: VaultAnswer, w: AuditWrite,
                  others: seq<Other>, asked: real)
      returns (r: RevealResult, ghost limited: Option<RateLimiter.Reason>, ghost meanwhile: seq<RateLimiter.Event>)
      requires Valid() && now >= limiter.latest
      requires ClockRuns(others, now) && asked >= ClockAfter(others, now)
      requires audit.committed != [] ==> audit.committed[|audit.committed| - 1].timestamp <= w.timestamp
      modifies limiter, audit
      ensures Valid()
      ensures limited == RateLimiter.Decide(old(limiter.history), user, RateLimiter.CredentialKey(person, door), now)
      ensures limiter.history == old(limiter.history)
                + [RateLimiter.Attempt(now, user, RateLimiter.CredentialKey(person, door), limited)] + meanwhile
      ensures |meanwhile| == |others| && forall i :: 0 <= i < |others| ==> Left(others[i], meanwhile[i])
      ensures r.Secret? <==>
                (limited.None? && lookup.PersonFound? && credential.CredentialFound? && vault.Plaintext?
                 && (old(audit.events).Some? || w.readOk) && w.writeOk)
      ensures r.Secret? ==> r.secret == vault.secret
      ensures r.Secret? ==> audit.committed == old(audit.committed)
                                               + [AuditEvent(w.id, w.timestamp, user, person, door, Revealed)]
      ensures limited.Some? ==>
                (r.TooManyRequests? || r.IndexRaised? || r.AuditNotCommitted?)
                && Answered(r, Window(limited.value, user, person, door), |old(limiter.history)| + 1, asked)
      ensures limited.Some? ==>
                audit.committed
                == Committed(old(audit.committed), !r.AuditNotCommitted?, RateLimited, user, person, door, w)
      ensures limited.None? ==>
                Accounted(old(audit.committed), audit.committed, r, (old(audit.events).Some? || w.readOk) && w.writeOk,
                          user, person, door, w, lookup, credential, vault)
    {
      var refused := limiter.CheckAndRecord(user, RateLimiter.CredentialKey(person, door), now);
      limited := refused;
      if refused.Some? {
        r, meanwhile := Refuse(user, person, door, refused.value, w, others, asked);
        return;
      }
      r, meanwhile := Fulfil(user, person, door, lookup, credential, vault, w, others);
    }

    /** The permitted part: person, credential, vault, then the audit event of whatever came of it. */
    method Fulfil(user: string, person: Uuid, door: Option<Uuid>, lookup: PersonLookup, credential: CredentialLookup,
                  vault: VaultAnswer, w: AuditWrite, others: seq<Other>)
      returns (r: RevealResult, ghost meanwhile: seq<RateLimiter.Event>)
      requires Valid() && ClockRuns(others, limiter.latest)
      requires audit.committed != [] ==> audit.committed[|audit.committed| - 1].timestamp <= w.timestamp
      modifies limiter, audit
      ensures Valid() && limiter.history == old(limiter.history) + meanwhile
      ensures |meanwhile| == |others| && forall i :: 0 <= i < |others| ==> Left(others[i], meanwhile[i])
      ensures Accounted(old(audit.committed), audit.committed, r, (old(audit.events).Some? || w.readOk) && w.writeOk,
                        user, person, door, w, lookup, credential, vault)
    {
      var answer := Retrieve(lookup, credential, vault);
      var ok;
      ok, meanwhile := AuditAmongOthers(user, person, door, OutcomeOf(answer), w, others);
      r := if ok then answer else AuditNotCommitted;
    }

    /** What the lookups and the vault come to. */
    method Retrieve(lookup: PersonLookup, credential: CredentialLookup, vault: VaultAnswer)
      returns (answer: RevealResult)
      ensures answer.Secret? || answer.CredentialUnavailable? || answer.VaultIsUnavailable? || answer.RevealFailed?
      ensures answer.CredentialUnavailable? <==> Missing(lookup, credential, vault)
      ensures answer.VaultIsUnavailable? <==> VaultSays(lookup, credential, vault, VaultDown)
      ensures answer.Secret? <==> lookup.PersonFound? && credential.CredentialFound? && vault.Plaintext?
      ensures answer.Secret? ==> VaultSays(lookup, credential, vault, Plaintext(answer.secret))
    {
      answer := RevealFailed;
      match lookup {
        case PersonMissing => answer := CredentialUnavailable;
        case PersonLookupFailed =>
        case PersonFound =>
          match credential {
            case LookupConflict =>
            case NoCredential => answer := CredentialUnavailable;
            case CredentialFound =>
              match vault {
                case NotInVault => answer := CredentialUnavailable;
                case VaultDown => answer := VaultIsUnavailable;
                case VaultBroken =>
                case Plaintext(secret) => answer := Secret(secret);
              }
          }
      }
    }
  }
}
