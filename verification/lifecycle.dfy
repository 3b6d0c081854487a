/**
 The lifecycle journal (lifecycle.py, repositories/lifecycle_operation.py) as a state machine.

 Every `await` splits a call: what a call remembers between two awaits is its `Call` value, and
 calls of any number of tasks interleave. A commit is the repository's compare-and-swap on
 `updated_at`; a crash forgets calls and keeps the journal.
 */
module Lifecycle {
  import opened Results
  import opened Json

  type Payload = map<string, Json>

  datatype Status = Pending | Running | WaitingRetry | Failed | Completed | Cancelled

  datatype Operation = Operation(status: Status, payload: Payload, currentStep: nat, retryCount: nat, updatedAt: int)

  predicate Terminal(s: Status) {
    s.Completed? || s.Cancelled?
  }

  /** What running one step came to. */
  datatype Outcome =
    | Done(update: Payload)
    | Raised
    | StepFailure(changes: Payload, retryable: bool)

  /** A call of the manager, at one of its awaits, holding the operation it last read or wrote. */
  datatype Call =
    | Starting(op: Operation)                   // execute: loaded, not yet RUNNING
    | Ready(op: Operation)                      // execute: at the loop head
    | Returned(op: Operation, outcome: Outcome) // execute: the step came back, not yet committed
    | Closing                                   // complete: about to load
    | Completing(op: Operation)                 // complete: loaded
    | Cancelling(op: Operation)                 // cancel: loaded
    | Recording(op: Operation, changes: Payload, retryable: bool)  // record_failure: loaded
    | Checkpointing(op: Operation, status: Option<Status>, payload: Option<Payload>,
                    step: Option<nat>, retry: Option<nat>)         // checkpoint: loaded

  /** Durable commits, for counting: what each did to the journal. */
  datatype Commit = Progress(step: nat) | Failure | Other

  datatype State = State(
    journal: Operation,
    calls: map<int, Call>,
    commits: seq<Commit>,               // history: every successful commit
    starts: seq<(nat, nat)>)            // history: (step started, journal's current step then)

  datatype Event =
    | Execute(id: int)
    | StartStep(id: int, outcome: Outcome)
    | LeaveLoop(id: int, complete: bool)
    | CallComplete(id: int)
    | LoadComplete(id: int)
    | CallCancel(id: int)
    | CallRecordFailure(id: int, changes: Payload, retryable: bool)
    | CallCheckpoint(id: int, status: Option<Status>, payload: Option<Payload>, step: Option<nat>, retry: Option<nat>)
    | CommitCall(id: int, now: int)
    | Abort(id: int)                    // the call raises or is cancelled
    | Crash                             // the process restarts: every call is gone

  /** The limits of one manager: how many steps the operation has and how often it is retried. */
  datatype Config = Config(steps: nat, maxRetries: nat)

  function FailureStatus(c: Config, retryable: bool, retryCount: nat): Status {
    if retryable && retryCount <= c.maxRetries then WaitingRetry else Failed
  }

  /** The record a call writes, and what kind of commit that is. */
  function Written(c: Config, call: Call, now: int): (Operation, Commit)
    requires !call.Ready? && !call.Closing?
  {
    match call
    case Starting(op) => (op.(status := Running, updatedAt := now), Other)
    case Returned(op, Done(update)) =>
      (op.(payload := op.payload + update, currentStep := op.currentStep + 1, retryCount := 0, updatedAt := now),
       Progress(op.currentStep))
    case Returned(op, Raised) =>
      (op.(status := FailureStatus(c, true, op.retryCount + 1), retryCount := op.retryCount + 1, updatedAt := now),
       Failure)
    case Returned(op, StepFailure(changes, retryable)) =>
      (op.(status := FailureStatus(c, retryable, op.retryCount + 1), payload := op.payload + changes,
           retryCount := op.retryCount + 1, updatedAt := now), Failure)
    case Completing(op) => (op.(status := Completed, updatedAt := now), Other)
    case Cancelling(op) => (op.(status := Cancelled, updatedAt := now), Other)
    case Recording(op, changes, retryable) =>
      (op.(status := FailureStatus(c, retryable, op.retryCount + 1), payload := changes,
           retryCount := op.retryCount + 1, updatedAt := now), Failure)
    case Checkpointing(op, status, payload, step, retry) =>
      (Operation(if status.Some? then status.value else op.status,
                 if payload.Some? then payload.value else op.payload,
                 if step.Some? then step.value else op.currentStep,
                 if retry.Some? then retry.value else op.retryCount,
                 now), Other)
  }

  /** After its commit a successful step goes on; every other call returns or raises. */
  function AfterCommit(calls: map<int, Call>, id: int, call: Call, written: Operation): map<int, Call> {
    if call.Starting? || (call.Returned? && call.outcome.Done?) then calls[id := Ready(written)] else calls - {id}
  }

  /** Events that do not apply to the state leave it alone. */
  function Step(c: Config, s: State, e: Event): State {
    match e
    case Crash => s.(calls := map[])
    case Execute(id) =>
      if id in s.calls || Terminal(s.journal.status) then s
      else s.(calls := s.calls[id := Starting(s.journal)])
    case CallComplete(id) =>
      if id in s.calls then s else s.(calls := s.calls[id := Closing])
    case CallCancel(id) =>
      if id in s.calls || Terminal(s.journal.status) then s
      else s.(calls := s.calls[id := Cancelling(s.journal)])
    case CallRecordFailure(id, changes, retryable) =>
      if id in s.calls then s else s.(calls := s.calls[id := Recording(s.journal, changes, retryable)])
    case CallCheckpoint(id, status, payload, step, retry) =>
      if id in s.calls then s
      else s.(calls := s.calls[id := Checkpointing(s.journal, status, payload, step, retry)])
    case _ =>
      if e.id !in s.calls then s else Continue(c, s, e, s.calls[e.id])
  }

  function Continue(c: Config, s: State, e: Event, call: Call): State
    requires !e.Crash?
  {
    match e
    case Abort(id) => s.(calls := s.calls - {id})
    case StartStep(id, outcome) =>
      if call.Ready? && call.op.currentStep < c.steps then
        s.(calls := s.calls[id := Returned(call.op, outcome)],
           starts := s.starts + [(call.op.currentStep, s.journal.currentStep)])
      else s
    case LeaveLoop(id, complete) =>
      if call.Ready? && call.op.currentStep >= c.steps then
        s.(calls := if complete then s.calls[id := Closing] else s.calls - {id})
      else s
    case LoadComplete(id) =>
      if !call.Closing? then s
      else if s.journal.status.Completed? then s.(calls := s.calls - {id})
      else s.(calls := s.calls[id := Completing(s.journal)])
    case CommitCall(id, now) =>
      if call.Ready? || call.Closing? || now <= call.op.updatedAt then s
      else if s.journal.updatedAt != call.op.updatedAt then s.(calls := s.calls - {id})
      else
        var (written, commit) := Written(c, call, now);
        s.(journal := written, calls := AfterCommit(s.calls, id, call, written), commits := s.commits + [commit])
    case _ => s
  }

  function Run(c: Config, s: State, events: seq<Event>): State
    decreases |events|
  {
    if events == [] then s else Run(c, Step(c, s, events[0]), events[1..])
  }

  lemma {:induction false} RunConcat(c: Config, s: State, a: seq<Event>, b: seq<Event>)
    ensures Run(c, s, a + b) == Run(c, Run(c, s, a), b)
    decreases |a|
  {
    if a == [] {
      assert a + b == b;
    } else {
      assert (a + b)[1..] == a[1..] + b;
      RunConcat(c, Step(c, s, a[0]), a[1..], b);
    }
  }

  function Created(payload: Payload, now: int): State {
    State(Operation(Pending, payload, 0, 0, now), map[], [], [])
  }

  // ----- compare-and-swap keeps calls and journal in step -----

  predicate HoldsOperation(call: Call) {
    !call.Closing?
  }

  /** A call's copy is never newer than the journal, and equal to it if equally new. */
  ghost predicate Current(s: State) {
    forall id :: id in s.calls && HoldsOperation(s.calls[id]) ==>
      s.calls[id].op.updatedAt <= s.journal.updatedAt
      && (s.calls[id].op.updatedAt == s.journal.updatedAt ==> s.calls[id].op == s.journal)
  }

  lemma {:induction false} StepKeepsCurrent(c: Config, s: State, e: Event)
    requires Current(s)
    ensures Current(Step(c, s, e))
  {
    if e.CommitCall? && e.id in s.calls {
      var call := s.calls[e.id];
      var t := Step(c, s, e);
      if !call.Ready? && !call.Closing? && e.now > call.op.updatedAt && s.journal.updatedAt == call.op.updatedAt {
        assert t.journal.updatedAt == e.now;
      }
    }
  }

  /** What the phase of a call says about the operation it holds. */
  ghost predicate Tidy(s: State) {
    forall id :: id in s.calls ==>
      match s.calls[id]
      case Starting(op) => !Terminal(op.status)
      case Ready(op) => op.status.Running?
      case Returned(op, _) => op.status.Running?
      case Completing(op) => !op.status.Completed?
      case Cancelling(op) => !Terminal(op.status)
      case _ => true
  }

  lemma {:induction false} StepKeepsTidy(c: Config, s: State, e: Event)
    requires Current(s) && Tidy(s)
    ensures Tidy(Step(c, s, e))
  {
  }

  /** The commit an event makes, if any: it is written over the journal exactly as it stands. */
  ghost predicate Commits(s: State, e: Event) {
    && e.CommitCall? && e.id in s.calls
    && !s.calls[e.id].Ready? && !s.calls[e.id].Closing?
    && s.calls[e.id].op.updatedAt == s.journal.updatedAt < e.now
  }

  lemma {:induction false} OnlyCommitsChangeTheJournal(c: Config, s: State, e: Event)
    requires Current(s)
    ensures Commits(s, e) ==>
              s.calls[e.id].op == s.journal
              && Step(c, s, e).journal == Written(c, s.calls[e.id], e.now).0
              && Step(c, s, e).commits == s.commits + [Written(c, s.calls[e.id], e.now).1]
    ensures !Commits(s, e) ==> Step(c, s, e).journal == s.journal && Step(c, s, e).commits == s.commits
  {
  }

  // ----- progress, retry bounds and terminal states -----

  ghost predicate NoCheckpoints(s: State) {
    forall id :: id in s.calls ==> !s.calls[id].Checkpointing?
  }

  /** Consecutive failures committed since the last step that made progress. */
  function Failures(commits: seq<Commit>): nat {
    if commits == [] then 0
    else
      var last, before := commits[|commits| - 1], commits[..|commits| - 1];
      if last.Progress? then 0 else if last.Failure? then Failures(before) + 1 else Failures(before)
  }

  /** The steps committed so far, in order of commit. */
  function Progressed(commits: seq<Commit>): seq<nat> {
    if commits == [] then []
    else
      var last, before := commits[|commits| - 1], commits[..|commits| - 1];
      if last.Progress? then Progressed(before) + [last.step] else Progressed(before)
  }

  function UpTo(n: nat): seq<nat> {
    seq(n, i => i)
  }

  ghost predicate Counted(c: Config, s: State) {
    && s.journal.retryCount == Failures(s.commits)
    && Progressed(s.commits) == UpTo(s.journal.currentStep)
    && (s.journal.status.WaitingRetry? ==> 1 <= s.journal.retryCount <= c.maxRetries)
  }

  ghost predicate Sound(c: Config, s: State) {
    Current(s) && Tidy(s) && NoCheckpoints(s) && Counted(c, s)
  }

  lemma {:induction false} CommitAppends(commits: seq<Commit>, commit: Commit)
    ensures Failures(commits + [commit]) ==
              if commit.Progress? then 0 else if commit.Failure? then Failures(commits) + 1 else Failures(commits)
    ensures Progressed(commits + [commit]) ==
              if commit.Progress? then Progressed(commits) + [commit.step] else Progressed(commits)
  {
    assert (commits + [commit])[..|commits|] == commits;
  }

  lemma {:induction false} CreatedIsSound(c: Config, payload: Payload, now: int)
    ensures Sound(c, Created(payload, now))
  {
  }

  lemma {:induction false} WrittenCounts(c: Config, call: Call, now: int, commits: seq<Commit>)
    requires !call.Ready? && !call.Closing? && !call.Checkpointing?
    requires call.Returned? ==> call.op.status.Running?
    requires call.op.retryCount == Failures(commits) && Progressed(commits) == UpTo(call.op.currentStep)
    ensures var (written, commit) := Written(c, call, now);
            written.retryCount == Failures(commits + [commit])
            && Progressed(commits + [commit]) == UpTo(written.currentStep)
            && (written.status.WaitingRetry? ==> 1 <= written.retryCount <= c.maxRetries)
  {
    var (written, commit) := Written(c, call, now);
    CommitAppends(commits, commit);
    assert UpTo(call.op.currentStep) + [call.op.currentStep] == UpTo(call.op.currentStep + 1);
  }

  lemma {:induction false} StepKeepsSound(c: Config, s: State, e: Event)
    requires Sound(c, s) && !e.CallCheckpoint?
    ensures Sound(c, Step(c, s, e))
  {
    StepKeepsCurrent(c, s, e);
    StepKeepsTidy(c, s, e);
    OnlyCommitsChangeTheJournal(c, s, e);
    if Commits(s, e) { WrittenCounts(c, s.calls[e.id], e.now, s.commits); }
  }

  ghost predicate NoCheckpointEvents(events: seq<Event>) {
    forall i :: 0 <= i < |events| ==> !events[i].CallCheckpoint?
  }

  lemma {:induction false} RunKeepsSound(c: Config, s: State, events: seq<Event>)
    requires Sound(c, s) && NoCheckpointEvents(events)
    ensures Sound(c, Run(c, s, events))
    decreases |events|
  {
    if events != [] {
      StepKeepsSound(c, s, events[0]);
      RunKeepsSound(c, Step(c, s, events[0]), events[1..]);
    }
  }

  /**
   In every run of a new operation without `checkpoint`, whatever the interleaving: the committed
   steps are 0, 1, 2, ... each exactly once, retry_count counts the consecutive failures since, and a
   record waiting for retry has between 1 and max_retries of them.
   */
  lemma {:induction false} RunsAreSound(c: Config, payload: Payload, created: int, events: seq<Event>)
    requires NoCheckpointEvents(events)
    ensures var s := Run(c, Created(payload, created), events);
            && Sound(c, s)
            && Progressed(s.commits) == UpTo(s.journal.currentStep)
            && s.journal.retryCount == Failures(s.commits)
            && (s.journal.status.WaitingRetry? ==> 1 <= s.journal.retryCount <= c.maxRetries)
  {
    CreatedIsSound(c, payload, created);
    RunKeepsSound(c, Created(payload, created), events);
  }

  /** One event moves the journal's step by 0 or 1, and by 1 exactly when it commits that step. */
  lemma {:induction false} StepMovesByAtMostOne(c: Config, s: State, e: Event)
    requires Sound(c, s)
    ensures s.journal.currentStep <= Step(c, s, e).journal.currentStep <= s.journal.currentStep + 1
    ensures Step(c, s, e).journal.currentStep == s.journal.currentStep + 1
            <==> Commits(s, e) && s.calls[e.id].Returned? && s.calls[e.id].outcome.Done?
  {
    OnlyCommitsChangeTheJournal(c, s, e);
  }

  /** An ordinary failure leaves the operation FAILED exactly from its (max_retries + 1)-th time in a row. */
  lemma {:induction false} FailedAfterMaxRetries(c: Config, s: State, e: Event)
    requires Sound(c, s) && Commits(s, e) && s.calls[e.id] == Returned(s.journal, Raised)
    ensures var t := Step(c, s, e);
            Failures(t.commits) == Failures(s.commits) + 1
            && t.journal.status == (if Failures(t.commits) >= c.maxRetries + 1 then Failed else WaitingRetry)
  {
    OnlyCommitsChangeTheJournal(c, s, e);
    CommitAppends(s.commits, Failure);
  }

  /**
   A step that signals its failure waits for retry exactly when it says it may be retried and the
   failures in a row are at most max_retries, and fails otherwise. Its changes are kept and its step
   is not passed.
   */
  lemma {:induction false} SignalledFailure(c: Config, s: State, e: Event)
    requires Sound(c, s) && Commits(s, e) && s.calls[e.id].Returned? && s.calls[e.id].outcome.StepFailure?
    ensures var t := Step(c, s, e);
            var (changes, retryable) := (s.calls[e.id].outcome.changes, s.calls[e.id].outcome.retryable);
            && Failures(t.commits) == Failures(s.commits) + 1
            && t.journal.status == (if retryable && Failures(t.commits) <= c.maxRetries then WaitingRetry else Failed)
            && t.journal.payload == s.journal.payload + changes && t.journal.currentStep == s.journal.currentStep
  {
    OnlyCommitsChangeTheJournal(c, s, e);
    CommitAppends(s.commits, Failure);
  }

  /** `record_failure` counts and decides in the same way, and puts its payload in place of the old one. */
  lemma {:induction false} RecordedFailure(c: Config, s: State, e: Event)
    requires Sound(c, s) && Commits(s, e) && s.calls[e.id].Recording?
    ensures var t := Step(c, s, e);
            var (changes, retryable) := (s.calls[e.id].changes, s.calls[e.id].retryable);
            && Failures(t.commits) == Failures(s.commits) + 1
            && t.journal.status == (if retryable && Failures(t.commits) <= c.maxRetries then WaitingRetry else Failed)
            && t.journal.payload == changes && t.journal.currentStep == s.journal.currentStep
  {
    OnlyCommitsChangeTheJournal(c, s, e);
    CommitAppends(s.commits, Failure);
  }

  /** `checkpoint` replaces what it is given and keeps the rest. */
  lemma {:induction false} CheckpointReplaces(c: Config, s: State, e: Event)
    requires Current(s) && Commits(s, e) && s.calls[e.id].Checkpointing?
    ensures var call, was, now := s.calls[e.id], s.journal, Step(c, s, e).journal;
            && (Some(now.status) == call.status || (call.status.None? && now.status == was.status))
            && (Some(now.payload) == call.payload || (call.payload.None? && now.payload == was.payload))
            && (Some(now.currentStep) == call.step || (call.step.None? && now.currentStep == was.currentStep))
            && (Some(now.retryCount) == call.retry || (call.retry.None? && now.retryCount == was.retryCount))
  {
    OnlyCommitsChangeTheJournal(c, s, e);
  }

  /** The commits that do not follow a step leave payload, step and retry count alone, and name their status. */
  lemma {:induction false} StatusCommits(c: Config, s: State, e: Event)
    requires Current(s) && Commits(s, e)
    requires s.calls[e.id].Starting? || s.calls[e.id].Completing? || s.calls[e.id].Cancelling?
    ensures var call, was, now := s.calls[e.id], s.journal, Step(c, s, e).journal;
            && now == was.(status := now.status, updatedAt := e.now)
            && (now.status.Running? <==> call.Starting?)
            && (now.status.Completed? <==> call.Completing?)
            && (now.status.Cancelled? <==> call.Cancelling?)
  {
    OnlyCommitsChangeTheJournal(c, s, e);
  }

  /** execute, resume, retry, complete and cancel, with their crashes; no outside bookkeeping. */
  predicate Managed(e: Event) {
    !e.CallCheckpoint? && !e.CallRecordFailure?
  }

  ghost predicate ManagedCalls(s: State) {
    forall id :: id in s.calls ==> !s.calls[id].Checkpointing? && !s.calls[id].Recording?
  }

  lemma {:induction false} CompletedStep(c: Config, s: State, e: Event)
    requires Current(s) && Tidy(s) && ManagedCalls(s) && Managed(e) && s.journal.status.Completed?
    ensures Step(c, s, e).journal == s.journal
    ensures ManagedCalls(Step(c, s, e))
  {
    OnlyCommitsChangeTheJournal(c, s, e);
  }

  /** COMPLETED is absorbing: no interleaving of managed calls changes the record again. */
  lemma {:induction false} CompletedIsAbsorbing(c: Config, s: State, events: seq<Event>)
    requires Current(s) && Tidy(s) && ManagedCalls(s) && s.journal.status.Completed?
    requires forall i :: 0 <= i < |events| ==> Managed(events[i])
    ensures Run(c, s, events).journal == s.journal
    decreases |events|
  {
    if events != [] {
      CompletedStep(c, s, events[0]);
      StepKeepsCurrent(c, s, events[0]);
      StepKeepsTidy(c, s, events[0]);
      CompletedIsAbsorbing(c, Step(c, s, events[0]), events[1..]);
    }
  }

  /** Outside the managed calls it is not: a completed record changes exactly by `record_failure` and `checkpoint`. */
  lemma {:induction false} CompletedChangesIff(c: Config, s: State, e: Event)
    requires Current(s) && Tidy(s) && s.journal.status.Completed?
    ensures Step(c, s, e).journal != s.journal
            <==> Commits(s, e) && (s.calls[e.id].Recording? || s.calls[e.id].Checkpointing?)
    ensures !Step(c, s, e).journal.status.Completed?
            <==> Commits(s, e)
                 && (s.calls[e.id].Recording?
                     || (s.calls[e.id].Checkpointing? && s.calls[e.id].status.Some?
                          && s.calls[e.id].status != Some(Completed)))
  {
    OnlyCommitsChangeTheJournal(c, s, e);
  }

  /** So `record_failure` reopens a completed operation. */
  lemma {:induction false} RecordFailureReopens(c: Config, s: State, id: int, changes: Payload, retryable: bool)
    requires s.journal.status.Completed? && id !in s.calls
    ensures var s1 := Step(c, s, CallRecordFailure(id, changes, retryable));
            Step(c, s1, CommitCall(id, s.journal.updatedAt + 1)).journal.status
            == (if retryable && s.journal.retryCount < c.maxRetries then WaitingRetry else Failed)
  {
  }

  /** A cancelled record changes exactly by `complete`, `record_failure` and `checkpoint`. */
  lemma {:induction false} CancelledChangesIff(c: Config, s: State, e: Event)
    requires Current(s) && Tidy(s) && s.journal.status.Cancelled?
    ensures Step(c, s, e).journal != s.journal
            <==> Commits(s, e)
                 && (s.calls[e.id].Completing? || s.calls[e.id].Recording? || s.calls[e.id].Checkpointing?)
  {
    OnlyCommitsChangeTheJournal(c, s, e);
  }

  /** Out of CANCELLED a managed call leads only to COMPLETED, and only through `complete`. */
  lemma {:induction false} CancelledOnlyCompletes(c: Config, s: State, e: Event)
    requires Current(s) && Tidy(s) && ManagedCalls(s) && Managed(e) && s.journal.status.Cancelled?
    ensures Step(c, s, e).journal == s.journal
            <==> !(Commits(s, e) && s.calls[e.id].Completing?)
    ensures Step(c, s, e).journal != s.journal ==> Step(c, s, e).journal.status.Completed?
  {
    OnlyCommitsChangeTheJournal(c, s, e);
  }

  /** So CANCELLED is not absorbing: `complete` overrides it. */
  lemma {:induction false} CompleteOverridesCancel(c: Config, s: State, id: int)
    requires s.journal.status.Cancelled? && id !in s.calls
    ensures var events := [CallComplete(id), LoadComplete(id), CommitCall(id, s.journal.updatedAt + 1)];
            Run(c, s, events).journal.status.Completed?
  {
    var events := [CallComplete(id), LoadComplete(id), CommitCall(id, s.journal.updatedAt + 1)];
    var s1 := Step(c, s, events[0]);
    var s2 := Step(c, s1, events[1]);
    assert events[1..][0] == events[1] && events[1..][1..][0] == events[2];
    var s3 := Step(c, s2, events[2]);
    assert s3.journal.status.Completed?;
    assert events[1..][1..][1..] == [];
    assert Run(c, s, events) == Run(c, s1, events[1..]) == Run(c, s2, events[1..][1..]) == s3;
  }
}

/**
 Crash and resume: when steps are functions of the payload, any interleaving of executes, failures,
 cancels, aborts and crashes that ends COMPLETED ends exactly where one uninterrupted run does.
 */
module LifecycleResume {
  import opened Json
  import opened Lifecycle

  /** What each step adds to the payload, as a function of the payload it is given. */
  type Steps = seq<Payload -> Payload>

  /** The payload after the first `k` steps. */
  function After(steps: Steps, payload: Payload, k: nat): Payload
    requires k <= |steps|
  {
    if k == 0 then payload
    else
      var before := After(steps, payload, k - 1);
      before + steps[k - 1](before)
  }

  /** Steps either raise or return what their function says; the operation is only executed or cancelled. */
  predicate Follows(steps: Steps, s: State, e: Event) {
    && !e.CallCheckpoint? && !e.CallRecordFailure? && !e.CallComplete?
    && (e.StartStep? && e.id in s.calls && s.calls[e.id].Ready? && s.calls[e.id].op.currentStep < |steps| ==>
          e.outcome.Raised?
          || e.outcome == Done(steps[s.calls[e.id].op.currentStep](s.calls[e.id].op.payload)))
  }

  ghost predicate RunFollows(c: Config, steps: Steps, s: State, events: seq<Event>)
    decreases |events|
  {
    events != [] ==> Follows(steps, s, events[0]) && RunFollows(c, steps, Step(c, s, events[0]), events[1..])
  }

  ghost predicate CallFaithful(steps: Steps, s: State, call: Call) {
    match call
    case Starting(op) => op.currentStep <= s.journal.currentStep
    case Ready(op) => op.currentStep <= s.journal.currentStep
    case Returned(op, outcome) =>
      && op.currentStep <= s.journal.currentStep && op.currentStep < |steps|
      && (outcome.Raised? || outcome == Done(steps[op.currentStep](op.payload)))
    case Closing => s.journal.currentStep == |steps|
    case Completing(op) => op.currentStep == s.journal.currentStep == |steps|
    case Cancelling(op) => op.currentStep <= s.journal.currentStep
    case _ => false
  }

  /** The journal always holds the payload of the steps committed so far. */
  ghost predicate Faithful(c: Config, steps: Steps, payload: Payload, s: State) {
    && c.steps == |steps|
    && s.journal.currentStep <= |steps|
    && s.journal.payload == After(steps, payload, s.journal.currentStep)
    && (s.journal.status.Completed? ==> s.journal.currentStep == |steps|)
    && (forall id :: id in s.calls ==> CallFaithful(steps, s, s.calls[id]))
    && (forall i :: 0 <= i < |s.starts| ==> s.starts[i].0 <= s.starts[i].1)
  }

  lemma {:induction false} CommitIsFaithful(c: Config, steps: Steps, payload: Payload, s: State, e: Event)
    requires Current(s) && Tidy(s) && Faithful(c, steps, payload, s) && Commits(s, e)
    ensures var t := Step(c, s, e);
            t.journal.currentStep <= |steps|
            && s.journal.currentStep <= t.journal.currentStep
            && t.journal.payload == After(steps, payload, t.journal.currentStep)
            && (t.journal.status.Completed? ==> t.journal.currentStep == |steps|)
            && (s.journal.currentStep == |steps| ==> t.journal.currentStep == |steps|)
  {
    OnlyCommitsChangeTheJournal(c, s, e);
    assert CallFaithful(steps, s, s.calls[e.id]);
  }

  lemma {:induction false} CallStaysFaithful(steps: Steps, s: State, t: State, call: Call)
    requires CallFaithful(steps, s, call)
    requires s.journal.currentStep <= t.journal.currentStep <= |steps|
    ensures CallFaithful(steps, t, call)
  {
  }

  lemma {:induction false} StepIsFaithful(c: Config, steps: Steps, payload: Payload, s: State, e: Event)
    requires Current(s) && Tidy(s) && Faithful(c, steps, payload, s) && Follows(steps, s, e)
    ensures Faithful(c, steps, payload, Step(c, s, e))
  {
    var t := Step(c, s, e);
    OnlyCommitsChangeTheJournal(c, s, e);
    if Commits(s, e) { CommitIsFaithful(c, steps, payload, s, e); }
    forall id | id in t.calls ensures CallFaithful(steps, t, t.calls[id]) {
      if id in s.calls {
        assert CallFaithful(steps, s, s.calls[id]);
        CallStaysFaithful(steps, s, t, s.calls[id]);
      }
    }
  }

  lemma {:induction false} RunIsFaithful(c: Config, steps: Steps, payload: Payload, s: State, events: seq<Event>)
    requires Current(s) && Tidy(s) && Faithful(c, steps, payload, s) && RunFollows(c, steps, s, events)
    ensures Faithful(c, steps, payload, Run(c, s, events))
    decreases |events|
  {
    if events != [] {
      StepIsFaithful(c, steps, payload, s, events[0]);
      StepKeepsCurrent(c, s, events[0]);
      StepKeepsTidy(c, s, events[0]);
      RunIsFaithful(c, steps, payload, Step(c, s, events[0]), events[1..]);
    }
  }

  /** One execute from start to finish with no failure: run each step, commit it, then complete. */
  function StepEvents(steps: Steps, payload: Payload, id: int, k: nat, now: int): seq<Event>
    requires k <= |steps|
  {
    if k == 0 then []
    else
      StepEvents(steps, payload, id, k - 1, now)
      + [StartStep(id, Done(steps[k - 1](After(steps, payload, k - 1)))), CommitCall(id, now + k)]
  }

  function Uninterrupted(steps: Steps, payload: Payload, id: int, now: int): seq<Event> {
    [Execute(id), CommitCall(id, now)]
    + StepEvents(steps, payload, id, |steps|, now)
    + [LeaveLoop(id, true), LoadComplete(id), CommitCall(id, now + |steps| + 1)]
  }

  lemma {:induction false} RunTwo(c: Config, s: State, e: Event, f: Event)
    ensures Run(c, s, [e, f]) == Step(c, Step(c, s, e), f)
  {
    assert [e, f][1..] == [f] && [f][1..] == [];
    var t := Step(c, s, e);
    assert Run(c, t, [f]) == Run(c, Step(c, t, f), []);
  }

  lemma {:induction false} OneStepRuns(c: Config, steps: Steps, payload: Payload, t: State, id: int, k: nat, now: int)
    requires c.steps == |steps| && 0 < k <= |steps|
    requires t.journal == Operation(Running, After(steps, payload, k - 1), k - 1, 0, now + k - 1)
    requires t.calls == map[id := Ready(t.journal)]
    ensures var e := StartStep(id, Done(steps[k - 1](After(steps, payload, k - 1))));
            var u := Step(c, Step(c, t, e), CommitCall(id, now + k));
            u.journal == Operation(Running, After(steps, payload, k), k, 0, now + k)
            && u.calls == map[id := Ready(u.journal)]
  {
  }

  lemma {:induction false} StepsRun(c: Config, steps: Steps, payload: Payload, s: State, id: int, k: nat, now: int)
    requires c.steps == |steps| && k <= |steps|
    requires s.journal == Operation(Running, payload, 0, 0, now) && s.calls == map[id := Ready(s.journal)]
    ensures var t := Run(c, s, StepEvents(steps, payload, id, k, now));
            t.journal == Operation(Running, After(steps, payload, k), k, 0, now + k)
            && t.calls == map[id := Ready(t.journal)]
  {
    if k > 0 {
      StepsRun(c, steps, payload, s, id, k - 1, now);
      var earlier := StepEvents(steps, payload, id, k - 1, now);
      var e := StartStep(id, Done(steps[k - 1](After(steps, payload, k - 1))));
      var f := CommitCall(id, now + k);
      var t := Run(c, s, earlier);
      RunConcat(c, s, earlier, [e, f]);
      RunTwo(c, t, e, f);
      OneStepRuns(c, steps, payload, t, id, k, now);
    }
  }

  /** The uninterrupted run completes with every step applied. */
  lemma {:induction false} UninterruptedCompletes(c: Config, steps: Steps, payload: Payload, created: int, id: int,
                                                  now: int)
    requires c.steps == |steps| && created < now
    ensures Run(c, Created(payload, created), Uninterrupted(steps, payload, id, now)).journal
            == Operation(Completed, After(steps, payload, |steps|), |steps|, 0, now + |steps| + 1)
  {
    var s0 := Created(payload, created);
    var first := [Execute(id), CommitCall(id, now)];
    var middle := StepEvents(steps, payload, id, |steps|, now);
    var last := [LeaveLoop(id, true), LoadComplete(id)] + [CommitCall(id, now + |steps| + 1)];
    RunTwo(c, s0, first[0], first[1]);
    var s1 := Run(c, s0, first);
    StepsRun(c, steps, payload, s1, id, |steps|, now);
    var s2 := Run(c, s1, middle);
    RunTwo(c, s2, last[0], last[1]);
    var s3 := Run(c, s2, [last[0], last[1]]);
    assert [last[2]][1..] == [];
    assert Run(c, s3, [last[2]]) == Step(c, s3, last[2]);
    RunConcat(c, s2, [last[0], last[1]], [last[2]]);
    RunConcat(c, s1, middle, last);
    RunConcat(c, s0, first, middle + last);
    assert Uninterrupted(steps, payload, id, now) == first + (middle + last);
  }

  /**
   However often execution was interrupted, failed, was retried or raced with itself: if it ends
   COMPLETED, payload and current step are those of the uninterrupted run.
   */
  lemma {:induction false} ResumeEqualsUninterrupted(c: Config, steps: Steps, payload: Payload, created: int,
                                                     events: seq<Event>, id: int, now: int)
    requires c.steps == |steps| && created < now
    requires RunFollows(c, steps, Created(payload, created), events)
    requires Run(c, Created(payload, created), events).journal.status.Completed?
    ensures var ended := Run(c, Created(payload, created), events).journal;
            var smooth := Run(c, Created(payload, created), Uninterrupted(steps, payload, id, now)).journal;
            smooth.status.Completed? && ended.payload == smooth.payload && ended.currentStep == smooth.currentStep
  {
    RunIsFaithful(c, steps, payload, Created(payload, created), events);
    UninterruptedCompletes(c, steps, payload, created, id, now);
  }

  // ----- no step before its predecessors; when a committed step runs again -----

  ghost predicate At(s: State, id: int, call: Call) {
    id in s.calls && s.calls[id] == call
  }

  /** The event is a commit of a step's success. */
  ghost predicate Progresses(s: State, e: Event) {
    Commits(s, e) && s.calls[e.id].Returned? && s.calls[e.id].outcome.Done?
  }

  ghost predicate ProgressMade(c: Config, s: State, events: seq<Event>)
    decreases |events|
  {
    events != [] && (Progresses(s, events[0]) || ProgressMade(c, Step(c, s, events[0]), events[1..]))
  }

  /** Events of other calls only, and no crash. */
  predicate Others(id: int, events: seq<Event>) {
    forall i :: 0 <= i < |events| ==> !events[i].Crash? && !events[i].CallCheckpoint? && events[i].id != id
  }

  lemma {:induction false} OthersStep(c: Config, s: State, e: Event, id: int, call: Call)
    requires Sound(c, s) && At(s, id, call) && !e.Crash? && !e.CallCheckpoint? && e.id != id
    ensures At(Step(c, s, e), id, call) && Sound(c, Step(c, s, e))
    ensures Step(c, s, e).journal.currentStep == s.journal.currentStep + (if Progresses(s, e) then 1 else 0)
  {
    StepKeepsSound(c, s, e);
    StepMovesByAtMostOne(c, s, e);
  }

  lemma {:induction false} OthersRun(c: Config, s: State, id: int, call: Call, events: seq<Event>)
    requires Sound(c, s) && At(s, id, call) && Others(id, events)
    ensures At(Run(c, s, events), id, call) && Sound(c, Run(c, s, events))
    ensures s.journal.currentStep <= Run(c, s, events).journal.currentStep
    ensures s.journal.currentStep < Run(c, s, events).journal.currentStep <==> ProgressMade(c, s, events)
    decreases |events|
  {
    if events != [] {
      OthersStep(c, s, events[0], id, call);
      OthersRun(c, Step(c, s, events[0]), id, call, events[1..]);
    }
  }

  /**
   Exactly when a committed step runs again: `s` is just after a commit of the executor `id`, which
   goes on to its next step after any events of other calls. The step it then starts is committed
   already if and only if one of those calls committed progress meanwhile.
   */
  lemma {:induction false} RestartsACommittedStepIff(c: Config, s: State, id: int, events: seq<Event>, outcome: Outcome)
    requires Sound(c, s) && At(s, id, Ready(s.journal)) && Others(id, events)
    requires s.journal.currentStep < c.steps
    ensures var t := Run(c, s, events);
            var after := Step(c, t, StartStep(id, outcome));
            && after.starts == t.starts + [(s.journal.currentStep, t.journal.currentStep)]
            && (s.journal.currentStep < t.journal.currentStep <==> ProgressMade(c, s, events))
  {
    OthersRun(c, s, id, Ready(s.journal), events);
  }

  /** Two executors at the same step, one of them stale: the step runs, is committed, and runs again. */
  lemma {:induction false} StaleExecutorRepeats(c: Config, s: State, a: int, b: int, stale: Operation,
                                                update: Payload, outcome: Outcome, now: int)
    requires Current(s) && a != b && At(s, a, Ready(s.journal)) && At(s, b, Ready(stale))
    requires stale.currentStep == s.journal.currentStep < c.steps && now > s.journal.updatedAt
    ensures var k := s.journal.currentStep;
            var s1 := Step(c, s, StartStep(a, Done(update)));
            var s2 := Step(c, s1, CommitCall(a, now));
            var s3 := Step(c, s2, StartStep(b, outcome));
            s2.journal.currentStep == k + 1 && s3.starts == s.starts + [(k, k)] + [(k, k + 1)]
  {
  }

  /** Two executes of a new operation, both past their first commit: such a state. */
  function Overlapping(a: int, b: int, now: int): seq<Event> {
    [Execute(b), CommitCall(b, now)] + [Execute(a), CommitCall(a, now + 1)]
  }

  /** So overlapping executors can run a step that is committed already. */
  lemma {:induction false} OverlapReachesStale(c: Config, payload: Payload, created: int, a: int, b: int, now: int)
    requires a != b && created < now
    ensures var s := Run(c, Created(payload, created), Overlapping(a, b, now));
            && At(s, a, Ready(s.journal)) && s.journal.currentStep == 0 && s.journal.updatedAt == now + 1
            && At(s, b, Ready(s.journal.(updatedAt := now)))
  {
    var s := Created(payload, created);
    RunTwo(c, s, Execute(b), CommitCall(b, now));
    var t := Step(c, Step(c, s, Execute(b)), CommitCall(b, now));
    RunTwo(c, t, Execute(a), CommitCall(a, now + 1));
    RunConcat(c, s, [Execute(b), CommitCall(b, now)], [Execute(a), CommitCall(a, now + 1)]);
  }

  /** An execute begins only while no other call is in flight. */
  ghost predicate Serial(c: Config, s: State, events: seq<Event>)
    decreases |events|
  {
    events != [] ==>
      && (events[0].Execute? || events[0].CallComplete? || events[0].CallCancel? ==> s.calls == map[])
      && Serial(c, Step(c, s, events[0]), events[1..])
  }

  /** At most one call, and it holds the journal itself. */
  ghost predicate Alone(s: State) {
    && (forall i, j :: i in s.calls && j in s.calls ==> i == j)
    && (forall id :: id in s.calls ==> HoldsOperation(s.calls[id]) ==> s.calls[id].op == s.journal)
    && (forall i :: 0 <= i < |s.starts| ==> s.starts[i].0 == s.starts[i].1)
  }

  /**
   While executors do not overlap, through any crashes and failures, every step started is the next
   uncommitted one.
   */
  lemma {:induction false} SerialRunsNeverRepeat(c: Config, steps: Steps, s: State, events: seq<Event>)
    requires Alone(s) && Serial(c, s, events) && RunFollows(c, steps, s, events)
    ensures Alone(Run(c, s, events))
    decreases |events|
  {
    if events != [] {
      SerialRunsNeverRepeat(c, steps, Step(c, s, events[0]), events[1..]);
    }
  }
}

/**
 The manager's methods as they run when nothing interferes (lifecycle.py, execute, retry, complete,
 cancel, record_failure, _transition). Each is proved to be a run of the state machine, so what holds
 of every interleaving holds of these calls too.
 */
module LifecycleManagers {
  import opened Results
  import opened Lifecycle

  datatype ExecutionError = StepDidNotComplete

  class LifecycleOperationManager {
    const maxRetries: nat
    var journal: Operation      // the repository's record of the operation
    ghost var machine: State

    ghost predicate Valid()
      reads this
    {
      machine.journal == journal && Current(machine) && Tidy(machine)
    }

    function Limits(steps: nat): Config {
      Config(steps, maxRetries)
    }

    constructor (maxRetries: nat, payload: Payload, now: int)
      ensures Valid() && machine == Created(payload, now) && this.maxRetries == maxRetries
    {
      this.maxRetries := maxRetries;
      journal := Created(payload, now).journal;
      machine := Created(payload, now);
    }

    /** The clock is strictly increasing. */
    method Now() returns (now: int)
      ensures now > journal.updatedAt
    {
      now := journal.updatedAt + 1;
    }

    /** Follow the machine by one event that leaves the record alone. */
    ghost method Follow(c: Config, e: Event)
      requires Valid() && !Commits(machine, e)
      modifies this`machine
      ensures Valid() && machine == Step(c, old(machine), e)
    {
      StepKeepsCurrent(c, machine, e);
      StepKeepsTidy(c, machine, e);
      OnlyCommitsChangeTheJournal(c, machine, e);
      machine := Step(c, machine, e);
    }

    /** _transition: write over the record that was read, which nobody has changed meanwhile. */
    method Transition(ghost c: Config, ghost id: int, ghost call: Call, updated: Operation)
      requires Valid() && id in machine.calls && machine.calls[id] == call
      requires !call.Ready? && !call.Closing? && call.op == journal && updated.updatedAt > journal.updatedAt
      requires updated == Written(c, call, updated.updatedAt).0
      modifies this
      ensures Valid() && journal == updated
      ensures machine == Step(c, old(machine), CommitCall(id, updated.updatedAt))
      ensures machine.calls == AfterCommit(old(machine).calls, id, call, updated)
    {
      ghost var e := CommitCall(id, updated.updatedAt);
      StepKeepsCurrent(c, machine, e);
      StepKeepsTidy(c, machine, e);
      journal := updated;
      machine := Step(c, machine, e);
    }

    /** What an ordinary or a signalled failure commits before the error is raised. */
    method CommitFailure(ghost c: Config, ghost id: int, op: Operation, outcome: Outcome)
      requires Valid() && id in machine.calls && machine.calls[id] == Returned(op, outcome)
      requires op == journal && !outcome.Done? && c.maxRetries == maxRetries
      modifies this
      ensures Valid() && journal.updatedAt > op.updatedAt
      ensures machine == Step(c, old(machine), CommitCall(id, journal.updatedAt))
      ensures journal.status
              == (if (outcome.Raised? || outcome.retryable) && op.retryCount < maxRetries then WaitingRetry else Failed)
      ensures journal.payload == if outcome.StepFailure? then op.payload + outcome.changes else op.payload
      ensures journal.retryCount == op.retryCount + 1 && journal.currentStep == op.currentStep
    {
      var now := Now();
      var retryCount := op.retryCount + 1;
      var retryable := outcome.Raised? || outcome.retryable;
      var status := if retryable && retryCount <= maxRetries then WaitingRetry else Failed;
      var payload := if outcome.StepFailure? then op.payload + outcome.changes else op.payload;
      Transition(c, id, Returned(op, outcome),
                 op.(status := status, payload := payload, retryCount := retryCount, updatedAt := now));
    }

    /** execute, up to the RUNNING record. */
    method Begin(ghost c: Config, ghost id: int) returns (op: Operation, ghost trace: seq<Event>)
      requires Valid() && id !in machine.calls && !Terminal(journal.status)
      modifies this
      ensures Valid() && machine == Run(c, old(machine), trace)
      ensures op == journal == old(journal).(status := Running, updatedAt := journal.updatedAt)
      ensures machine.calls == old(machine).calls[id := Ready(op)]
    {
      var loaded := journal;
      Follow(c, Event.Execute(id));
      var now := Now();
      Transition(c, id, Starting(loaded), loaded.(status := Running, updatedAt := now));
      op := journal;
      trace := [Event.Execute(id), CommitCall(id, now)];
      RunPair(c, old(machine), trace[0], trace[1]);
    }

    /** One turn of the loop: run the current step and commit what came of it. */
    method RunStep(ghost c: Config, ghost id: int, steps: seq<Operation -> Outcome>, op: Operation)
      returns (next: Result<Operation, ExecutionError>, ghost trace: seq<Event>)
      requires Valid() && id in machine.calls && machine.calls[id] == Ready(op) && op == journal
      requires op.currentStep < |steps| && c == Limits(|steps|)
      modifies this
      ensures Valid() && machine == Run(c, old(machine), trace)
      ensures next.Ok? <==> steps[op.currentStep](op).Done?
      ensures next.Ok? ==>
                next.value == journal
                && journal == op.(payload := op.payload + steps[op.currentStep](op).update,
                                  currentStep := op.currentStep + 1, retryCount := 0, updatedAt := journal.updatedAt)
                && machine.calls == old(machine).calls[id := Ready(journal)]
      ensures next.Err? ==>
                var outcome := steps[op.currentStep](op);
                journal.status == (if (outcome.Raised? || outcome.retryable) && op.retryCount < maxRetries
                                   then WaitingRetry else Failed)
                && journal.payload == (if outcome.StepFailure? then op.payload + outcome.changes else op.payload)
                && journal.currentStep == op.currentStep && journal.retryCount == op.retryCount + 1
                && machine.calls == old(machine).calls - {id}
    {
      var outcome := steps[op.currentStep](op);
      Follow(c, StartStep(id, outcome));
      if outcome.Done? {
        var now := Now();
        Transition(c, id, Returned(op, outcome),
                   op.(payload := op.payload + outcome.update, currentStep := op.currentStep + 1,
                       retryCount := 0, updatedAt := now));
        next := Ok(journal);
      } else {
        CommitFailure(c, id, op, outcome);
        next := Err(StepDidNotComplete);
      }
      trace := [StartStep(id, outcome), CommitCall(id, journal.updatedAt)];
      RunPair(c, old(machine), trace[0], trace[1]);
    }

    /**
     Ends in one of three ways: a terminal record is returned untouched, a failed step leaves the
     record waiting for retry or FAILED, or every step is committed.
     */
    method Execute(ghost id: int, steps: seq<Operation -> Outcome>, complete: bool)
      returns (r: Result<Operation, ExecutionError>, ghost trace: seq<Event>)
      requires Valid() && id !in machine.calls
      modifies this
      ensures Valid() && machine == Run(Limits(|steps|), old(machine), trace)
      ensures machine.calls == old(machine).calls
      ensures Terminal(old(journal).status) ==> r == Ok(old(journal)) && journal == old(journal)
      ensures !Terminal(old(journal).status) && r.Ok? ==>
                r.value == journal && journal.currentStep >= |steps|
                && journal.status == (if complete then Completed else Running)
      ensures r.Err? ==> journal.status.WaitingRetry? || journal.status.Failed?
    {
      ghost var c := Limits(|steps|);
      if Terminal(journal.status) { return Ok(journal), []; }
      ghost var calls := machine.calls;
      ghost var piece: seq<Event>;
      var op;
      op, trace := Begin(c, id);
      while op.currentStep < |steps|
        invariant Valid() && machine == Run(c, old(machine), trace)
        invariant op == journal && op.status.Running? && machine.calls == calls[id := Ready(op)]
        decreases |steps| - op.currentStep
      {
        ghost var before := machine;
        var next;
        next, piece := RunStep(c, id, steps, op);
        RunConcat(c, old(machine), trace, piece);
        trace := trace + piece;
        if next.Err? {
          assert machine.calls == calls;
          return Err(next.error), trace;
        }
        op := next.value;
      }
      piece := Finish(c, id, op, complete);
      RunConcat(c, old(machine), trace, piece);
      trace := trace + piece;
      assert machine.calls == calls;
      r := Ok(journal);
    }

    /** Leave the loop, completing the operation if asked to. */
    method Finish(ghost c: Config, ghost id: int, op: Operation, complete: bool) returns (ghost trace: seq<Event>)
      requires Valid() && id in machine.calls && machine.calls[id] == Ready(op) && op == journal
      requires op.currentStep >= c.steps && op.status.Running?
      modifies this
      ensures Valid() && machine == Run(c, old(machine), trace)
      ensures machine.calls == old(machine).calls - {id}
      ensures journal == if complete then op.(status := Completed, updatedAt := journal.updatedAt) else op
    {
      ghost var e := LeaveLoop(id, complete);
      Follow(c, e);
      trace := [e];
      RunMore(c, old(machine), [], e);
      assert [] + [e] == [e];
      if complete {
        ghost var rest := Close(c, id);
        RunConcat(c, old(machine), trace, rest);
        trace := trace + rest;
      }
    }

    /** complete, from the moment it loads the record. */
    method Close(ghost c: Config, ghost id: int) returns (ghost trace: seq<Event>)
      requires Valid() && id in machine.calls && machine.calls[id].Closing?
      modifies this
      ensures Valid() && machine == Run(c, old(machine), trace)
      ensures machine.calls == old(machine).calls - {id}
      ensures journal.status.Completed?
      ensures journal == if old(journal).status.Completed? then old(journal)
                         else old(journal).(status := Completed, updatedAt := journal.updatedAt)
    {
      var op := journal;
      ghost var e := LoadComplete(id);
      Follow(c, e);
      trace := [e];
      RunMore(c, old(machine), [], e);
      assert [] + [e] == [e];
      if op.status.Completed? { return; }
      var now := Now();
      Transition(c, id, Completing(op), op.(status := Completed, updatedAt := now));
      RunMore(c, old(machine), trace, CommitCall(id, now));
      trace := trace + [CommitCall(id, now)];
    }

    /** record_failure: count a failure seen elsewhere, with the payload it supplies. */
    method RecordFailure(ghost c: Config, ghost id: int, changes: Payload, retryable: bool)
      returns (ghost trace: seq<Event>)
      requires Valid() && id !in machine.calls && c.maxRetries == maxRetries
      modifies this
      ensures Valid() && machine == Run(c, old(machine), trace)
      ensures journal.status == if retryable && old(journal).retryCount < maxRetries then WaitingRetry else Failed
      ensures journal == old(journal).(status := journal.status, payload := changes,
                                       retryCount := old(journal).retryCount + 1, updatedAt := journal.updatedAt)
    {
      var op := journal;
      Follow(c, CallRecordFailure(id, changes, retryable));
      var now := Now();
      var retryCount := op.retryCount + 1;
      var status := if retryable && retryCount <= maxRetries then WaitingRetry else Failed;
      Transition(c, id, Recording(op, changes, retryable),
                 op.(payload := changes, status := status, retryCount := retryCount, updatedAt := now));
      trace := [CallRecordFailure(id, changes, retryable), CommitCall(id, now)];
      RunPair(c, old(machine), trace[0], trace[1]);
    }

    method Cancel(ghost c: Config, ghost id: int) returns (ghost trace: seq<Event>)
      requires Valid() && id !in machine.calls
      modifies this
      ensures Valid() && machine == Run(c, old(machine), trace)
      ensures machine.calls == old(machine).calls
      ensures journal == if Terminal(old(journal).status) then old(journal)
                         else old(journal).(status := Cancelled, updatedAt := journal.updatedAt)
    {
      trace := [];
      if Terminal(journal.status) { return; }
      var op := journal;
      Follow(c, CallCancel(id));
      var now := Now();
      Transition(c, id, Cancelling(op), op.(status := Cancelled, updatedAt := now));
      trace := [CallCancel(id), CommitCall(id, now)];
      RunPair(c, old(machine), trace[0], trace[1]);
    }

    /** retry: only operations that failed or wait for retry are executed again. */
    method Retry(ghost id: int, steps: seq<Operation -> Outcome>)
      returns (r: Result<Operation, ExecutionError>, ghost trace: seq<Event>)
      requires Valid() && id !in machine.calls
      modifies this
      ensures Valid() && machine == Run(Limits(|steps|), old(machine), trace)
      ensures !(old(journal).status.WaitingRetry? || old(journal).status.Failed?) ==>
                r == Ok(old(journal)) && journal == old(journal)
      ensures (old(journal).status.WaitingRetry? || old(journal).status.Failed?) && r.Ok? ==> journal.status.Completed?
    {
      if !journal.status.WaitingRetry? && !journal.status.Failed? { return Ok(journal), []; }
      r, trace := Execute(id, steps, true);
    }
  }

  lemma {:induction false} RunPair(c: Config, s: State, e: Event, f: Event)
    ensures Run(c, s, [e, f]) == Step(c, Step(c, s, e), f)
  {
    assert [e, f] == [e] + [f];
    RunMore(c, s, [e], f);
    RunMore(c, s, [], e);
    assert [] + [e] == [e];
  }

  lemma {:induction false} RunMore(c: Config, s: State, events: seq<Event>, e: Event)
    ensures Run(c, s, events + [e]) == Step(c, Run(c, s, events), e)
  {
    RunConcat(c, s, events, [e]);
    assert [e][1..] == [];
  }
}
