/**
 The services that run the protocol (nfc/access.py NfcAccessService, nfc/webauthn_service.py
 HomePassWebAuthnService): the methods as they run when nothing interferes, each a stretch of the
 machine in NfcProtocol. The commands they send are exactly the commands of that run, so what is
 proved of every run holds of them.
 */
module NfcAccess {
  import opened Results
  import opened NfcRepository
  import opened NfcProtocol
  import Sessions
  import Sun

  datatype Command = Command(accessPoint: Uuid, operation: Operation, person: Uuid)

  ghost function CommandAt(tr: Trace, k: nat): Command
    requires Dispatches(tr, k)
  {
    var call := tr.states[k].calls[tr.events[k].id];
    Command(call.tap.accessPoint, call.tap.operation, call.person)
  }

  /** The commands of the first `n` events. */
  ghost function CommandsOf(tr: Trace, n: nat): seq<Command>
    requires n <= |tr.events| < |tr.states|
  {
    if n == 0 then []
    else if Dispatches(tr, n - 1) then CommandsOf(tr, n - 1) + [CommandAt(tr, n - 1)]
    else CommandsOf(tr, n - 1)
  }

  ghost function Extended(tr: Trace, e: Event, next: State): Trace {
    Trace(tr.states + [next], tr.events + [e])
  }

  lemma {:induction false} RunGrows(c: Config, tr: Trace, e: Event)
    requires IsRun(c, tr)
    ensures IsRun(c, Extended(tr, e, Step(c, Last(tr), e)))
  {
    var next := Extended(tr, e, Step(c, Last(tr), e));
    forall n | 0 <= n < |next.events| ensures StepAt(c, next, n) {
      if n < |tr.events| {
        assert StepAt(c, tr, n);
        assert next.states[n] == tr.states[n] && next.states[n + 1] == tr.states[n + 1]
                && next.events[n] == tr.events[n];
      }
    }
  }

  ghost function Last(tr: Trace): State
    requires |tr.states| > 0
  {
    tr.states[|tr.states| - 1]
  }

  lemma {:induction false} CommandsKept(tr: Trace, e: Event, next: State, n: nat)
    requires n <= |tr.events| && |tr.states| == |tr.events| + 1
    ensures CommandsOf(Extended(tr, e, next), n) == CommandsOf(tr, n)
  {
    if n > 0 {
      CommandsKept(tr, e, next, n - 1);
      assert Dispatches(Extended(tr, e, next), n - 1) <==> Dispatches(tr, n - 1);
    }
  }

  /** Every command of a run is some dispatching event of it. */
  lemma {:induction false} CommandWasDispatched(tr: Trace, n: nat, i: nat) returns (k: nat)
    requires n <= |tr.events| < |tr.states| && i < |CommandsOf(tr, n)|
    ensures k < n && Dispatches(tr, k) && CommandAt(tr, k) == CommandsOf(tr, n)[i]
    decreases n
  {
    if Dispatches(tr, n - 1) && i == |CommandsOf(tr, n)| - 1 {
      k := n - 1;
    } else {
      k := CommandWasDispatched(tr, n - 1, i);
    }
  }

  /** What the policy service, the Door and the store answer to one operation. */
  datatype Answers = Answers(allowed: bool, decision: string, supports: bool, found: bool, executes: bool,
                             auditSaved: bool)

  /** The attempt an operation records, if it gets so far: a target that cannot be read raises first. */
  function AttemptOf(granted: bool, tap: TapSession, person: Uuid, now: int, a: Answers): Option<Attempt> {
    if !granted then
      if !a.found then None
      else if tap.testMode then Some(Outcome(now, "denied", tap, person, "test_tag_inactive"))
      else Some(Outcome(now, "denied", tap, person, "no_nfc_access_grant"))
    else if !a.allowed then Some(Outcome(now, "denied", tap, person, a.decision))
    else if !a.supports then Some(Outcome(now, "failed", tap, person, "nfc_capability_unavailable"))
    else if !a.found then None
    else if !a.executes then Some(Outcome(now, "failed", tap, person, "door_command_failed"))
    else Some(Outcome(now, "allowed", tap, person, "allowed"))
  }

  function Outcome(now: int, outcome: string, tap: TapSession, person: Uuid, reason: string): Attempt {
    Attempt(now, outcome, tap.accessPoint, Some(person), reason, tap.counter, tap.testMode)
  }

  /**
   An attempt is recorded as allowed exactly when its command was sent and executed, as denied when
   the grant or the policy refused it, as failed when the Door could not or did not do it; and as
   nothing when the Door's target cannot be read. It names the Door, person and counter of the tap.
   */
  lemma {:induction false} AttemptTells(granted: bool, tap: TapSession, person: Uuid, now: int, a: Answers)
    ensures var r := AttemptOf(granted, tap, person, now, a);
            var proceeds := granted && a.allowed;
            && (r.None? <==> !a.found && (!granted || (a.allowed && a.supports)))
            && (r.Some? ==>
                  && r.value == Attempt(now, r.value.outcome, tap.accessPoint, Some(person), r.value.reason,
                                        tap.counter, tap.testMode)
                  && (r.value.outcome == "allowed" <==> proceeds && a.supports && a.found && a.executes)
                  && (r.value.outcome == "denied" <==> !proceeds)
                  && (r.value.outcome == "failed" <==> proceeds && !(a.supports && a.found && a.executes))
                  && (granted && !a.allowed ==> r.value.reason == a.decision)
                  && (!granted ==> r.value.reason == (if tap.testMode then "test_tag_inactive"
                                                      else "no_nfc_access_grant")))
  {
    assert "allowed" != "denied" && "failed" != "allowed" && "failed" != "denied" by {
      assert "allowed"[0] == 'a' && "denied"[0] == 'd' && "failed"[0] == 'f';
    }
  }

  /** The store with that attempt appended, if there is one and its write succeeds. */
  function Recorded(d: Data, attempt: Option<Attempt>, saved: bool): Data {
    if attempt.None? then d else Committed(d, AppendAudit(attempt.value), saved)
  }

  datatype AccessResult = AccessResult(allowed: bool, testMode: bool, action: Action)

  datatype AccessError = Expired | Refused | Unavailable | CommandFailed

  /** The message of a tap, verified under the keys the vault gave. */
  function MessageOf(c: Config, d: Data, publicId: string, keys: (Sun.Bytes, Sun.Bytes), picc: Option<Sun.Bytes>,
                     mac: Option<Sun.Bytes>)
    : Result<Sun.SunMessage, Sun.SunError>
    requires Ready(c) && publicId in d.tags
  {
    Sun.Verify(c.crypto, picc, mac, keys.0, keys.1, d.tags[publicId].uid)
  }

  /** Everything one tap has to get right. */
  predicate TapAccepted(c: Config, d: Data, publicId: string, supports: bool, keys: Option<(Sun.Bytes, Sun.Bytes)>,
                        picc: Option<Sun.Bytes>, mac: Option<Sun.Bytes>, saved: bool, target: Option<Reading>)
    requires Ready(c)
  {
    && publicId in d.tags && d.tags[publicId].enabled && supports && keys.Some? && saved
    && Bound(target).Some?
    && MessageOf(c, d, publicId, keys.value, picc, mac).Ok?
    && Apply(d, ClaimCounter(publicId, MessageOf(c, d, publicId, keys.value, picc, mac).value.counter)).Ok?
  }

  /** Everything one passkey answer has to get right. */
  predicate PasskeyAccepted(c: Config, d: Data, ceremony: Option<Ceremony>, credentialId: string, response: Response,
                            saved: bool)
  {
    && saved && ceremony.Some? && credentialId in d.credentials && d.credentials[credentialId].enabled
    && var passkey := d.credentials[credentialId];
       var signCount := c.verify(ceremony.value.challenge, passkey.publicKey, passkey.signCount, response);
       signCount.Some? && Apply(d, UpdateSignCount(passkey.credentialId, signCount.value)).Ok?
  }

  class NfcRuntime {
    const config: Config
    const repository: NfcAccessRepository
    const taps: Sessions.ExpiringTokenStore<TapSession>
    const authentications: Sessions.ExpiringTokenStore<Ceremony>
    var commands: seq<Command>
    ghost var trace: Trace

    /** The store, the sessions and the calls under way are those of the run so far. */
    ghost predicate Mirrors(calls: map<int, Call>)
      reads this, repository, taps, authentications
    {
      && taps.Valid() && taps.limits == TAPS
      && authentications.Valid() && authentications.limits == CEREMONIES
      && IsRun(config, trace)
      && Last(trace) == State(repository.data, taps.store, authentications.store, calls)
      && commands == CommandsOf(trace, |trace.events|)
    }

    constructor (config: Config, repository: NfcAccessRepository)
      requires Ready(config)
      ensures Mirrors(map[]) && commands == [] && this.config == config && this.repository == repository
      ensures fresh(taps) && fresh(authentications)
    {
      this.config, this.repository := config, repository;
      taps := new Sessions.ExpiringTokenStore(TAP_SESSION_TTL, 1024);
      authentications := new Sessions.ExpiringTokenStore(CEREMONY_TTL, 1024);
      commands := [];
      trace := Trace([State(repository.data, Sessions.Store(map[], 0), Sessions.Store(map[], 0), map[])], []);
    }

    ghost method Follow(e: Event)
      requires IsRun(config, trace) && !Dispatches(Extended(trace, e, Step(config, Last(trace), e)), |trace.events|)
      modifies this`trace
      ensures IsRun(config, trace)
      ensures trace == Extended(old(trace), e, Step(config, Last(old(trace)), e))
      ensures CommandsOf(trace, |trace.events|) == CommandsOf(old(trace), |old(trace).events|)
    {
      RunGrows(config, trace, e);
      CommandsKept(trace, e, Step(config, Last(trace), e), |trace.events|);
      trace := Extended(trace, e, Step(config, Last(trace), e));
    }

    /** The run only grows. */
    ghost predicate Continues(before: Trace)
      reads this`trace
    {
      before.events <= trace.events
    }

    // ----- begin_tap and begin_test_tap -----

    method ReadTag(id: int, publicId: string) returns (tag: Option<NfcTag>)
      requires Mirrors(map[])
      modifies this`trace
      ensures Mirrors(if tag.Some? then map[id := TapRead(publicId, tag.value)] else map[]) && Continues(old(trace))
      ensures tag == if publicId in repository.data.tags && repository.data.tags[publicId].enabled
                     then Some(repository.data.tags[publicId]) else None
    {
      var read := repository.GetTag(publicId);
      Follow(Event.BeginTap(id, publicId));
      tag := if read.Ok? && read.value.enabled then Some(read.value) else None;
    }

    method VerifyTag(id: int, publicId: string, tag: NfcTag, supports: bool, metaKey: Sun.Bytes, fileKey: Sun.Bytes,
                     picc: Option<Sun.Bytes>, mac: Option<Sun.Bytes>) returns (counter: Option<nat>)
      requires Mirrors(map[id := TapRead(publicId, tag)])
      modifies this`trace
      ensures Mirrors(if counter.Some? then map[id := TapVerified(publicId, tag.accessPoint, counter.value)] else map[])
      ensures Continues(old(trace))
      ensures counter.Some? <==> supports && Sun.Verify(config.crypto, picc, mac, metaKey, fileKey, tag.uid).Ok?
      ensures counter.Some? ==>
              Sun.Verify(config.crypto, picc, mac, metaKey, fileKey, tag.uid).value.counter == counter.value
    {
      var message := Sun.Verify(config.crypto, picc, mac, metaKey, fileKey, tag.uid);
      Follow(Event.VerifyTap(id, supports, metaKey, fileKey, picc, mac));
      counter := if supports && message.Ok? then Some(message.value.counter) else None;
      assert map[id := TapRead(publicId, tag)] - {id} == map[];
    }

    method ClaimTag(id: int, publicId: string, accessPoint: Uuid, counter: nat, saved: bool) returns (claimed: bool)
      requires Mirrors(map[id := TapVerified(publicId, accessPoint, counter)])
      modifies this`trace, repository
      ensures Mirrors(if claimed then map[id := TapClaimed(publicId, accessPoint, counter)] else map[])
      ensures Continues(old(trace))
      ensures repository.data == Committed(old(repository.data), ClaimCounter(publicId, counter), saved)
      ensures claimed <==> saved && Apply(old(repository.data), ClaimCounter(publicId, counter)).Ok?
    {
      var r := repository.ClaimCounter(publicId, counter, saved);
      Follow(Event.ClaimTap(id, saved));
      claimed := r.Ok?;
      assert map[id := TapVerified(publicId, accessPoint, counter)] - {id} == map[];
    }

    /** Read the Door, bind the operation, and issue the session, unless the reading raises. */
    method IssueSession(id: int, call: Call, target: Option<Reading>, now: int, token: Sessions.Token)
      returns (bound: Option<(Operation, Action)>)
      requires Issuing(call) && Mirrors(map[id := call])
      modifies this`trace, taps
      ensures Mirrors(map[]) && Continues(old(trace))
      ensures bound == Bound(target)
      ensures bound.None? ==> taps.store == old(taps.store)
      ensures bound.Some? ==>
              taps.store == Sessions.Issued(TAPS, old(taps.store), now, token, SessionFor(call, bound.value))
    {
      Follow(Event.IssueTap(id, now, token, target));
      bound := Bound(target);
      if bound.Some? { taps.Issue(now, token, SessionFor(call, bound.value)); }
      assert map[id := call] - {id} == map[];
    }

    /**
     One tap: read the tag, verify the message, claim its counter, bind the operation, issue the
     session. `keys` and `target` are None when the vault or the Door's target raises.
     */
    method BeginTap(id: int, publicId: string, supports: bool, keys: Option<(Sun.Bytes, Sun.Bytes)>,
                    picc: Option<Sun.Bytes>, mac: Option<Sun.Bytes>, saved: bool, target: Option<Reading>,
                    now: int, token: Sessions.Token)
      returns (r: Result<(Sessions.Token, Action), AccessError>)
      requires Mirrors(map[])
      modifies this`trace, repository, taps
      ensures Mirrors(map[]) && Continues(old(trace))
      ensures commands == old(commands)
      ensures r.Ok? <==> TapAccepted(config, old(repository.data), publicId, supports, keys, picc, mac, saved, target)
      ensures r.Ok? ==>
                var tag := old(repository.data).tags[publicId];
                var counter := MessageOf(config, old(repository.data), publicId, keys.value, picc, mac).value.counter;
                var bound := Bound(target).value;
                r.value == (token, bound.1)
                && repository.data == Committed(old(repository.data), ClaimCounter(publicId, counter), true)
                && taps.store == Sessions.Issued(TAPS, old(taps.store), now, token,
                                   TapSession(publicId, tag.accessPoint, Some(counter), false, bound.0, bound.1))
      ensures r.Err? ==> taps.store == old(taps.store)
    {
      var tag := ReadTag(id, publicId);
      if tag.None? { return Err(Refused); }
      if keys.None? || !supports {
        Abandon(id, TapRead(publicId, tag.value));
        return Err(Unavailable);
      }
      var counter := VerifyTag(id, publicId, tag.value, supports, keys.value.0, keys.value.1, picc, mac);
      if counter.None? { return Err(Refused); }
      r := ClaimAndIssue(id, publicId, tag.value.accessPoint, counter.value, saved, target, now, token);
    }

    method ClaimAndIssue(id: int, publicId: string, accessPoint: Uuid, counter: nat, saved: bool,
                         target: Option<Reading>, now: int, token: Sessions.Token)
      returns (r: Result<(Sessions.Token, Action), AccessError>)
      requires Mirrors(map[id := TapVerified(publicId, accessPoint, counter)])
      modifies this`trace, repository, taps
      ensures Mirrors(map[]) && Continues(old(trace))
      ensures r.Ok?
              <==> saved && Bound(target).Some? && Apply(old(repository.data), ClaimCounter(publicId, counter)).Ok?
      ensures r.Ok? ==>
                var bound := Bound(target).value;
                r.value == (token, bound.1)
                && taps.store == Sessions.Issued(TAPS, old(taps.store), now, token,
                                   TapSession(publicId, accessPoint, Some(counter), false, bound.0, bound.1))
      ensures r.Err? ==> taps.store == old(taps.store)
      ensures repository.data == Committed(old(repository.data), ClaimCounter(publicId, counter), saved)
    {
      var claimed := ClaimTag(id, publicId, accessPoint, counter, saved);
      if !claimed { return Err(Refused); }
      var bound := IssueSession(id, TapClaimed(publicId, accessPoint, counter), target, now, token);
      r := if bound.Some? then Ok((token, bound.value.1)) else Err(Unavailable);
    }

    /** The call raises: it is over, and nothing else changes. */
    method Abandon(ghost id: int, ghost call: Call)
      requires Mirrors(map[id := call])
      modifies this`trace
      ensures Mirrors(map[]) && Continues(old(trace))
    {
      Follow(Event.Abort(id));
      assert map[id := call] - {id} == map[];
    }

    method ReadTestTag(id: int, tokenHash: string, read: int) returns (tag: Option<NfcTestTag>)
      requires Mirrors(map[])
      modifies this`trace
      ensures Mirrors(if tag.Some? then map[id := TestRead(tag.value)] else map[]) && Continues(old(trace))
      ensures tag == if tokenHash in repository.data.testTags
              && TestTagActive(repository.data.testTags[tokenHash], read)
                     then Some(repository.data.testTags[tokenHash]) else None
    {
      Follow(Event.BeginTestTap(id, tokenHash, read));
      tag := if tokenHash in repository.data.testTags && TestTagActive(repository.data.testTags[tokenHash], read)
      then Some(repository.data.testTags[tokenHash]) else None;
    }

    method CheckTestDoor(id: int, tag: NfcTestTag, supports: bool)
      requires Mirrors(map[id := TestRead(tag)])
      modifies this`trace
      ensures Mirrors(if supports then map[id := TestSupported(tag)] else map[]) && Continues(old(trace))
    {
      Follow(Event.CheckTestDoor(id, supports));
      assert map[id := TestRead(tag)] - {id} == map[];
    }

    method BeginTestTap(id: int, tokenHash: string, read: int, supports: bool, target: Option<Reading>, now: int,
                        token: Sessions.Token)
      returns (r: Result<(Sessions.Token, Action), AccessError>)
      requires Mirrors(map[])
      modifies this`trace, taps
      ensures Mirrors(map[]) && Continues(old(trace))
      ensures commands == old(commands)
      ensures r.Ok? <==> supports && Bound(target).Some? && tokenHash in repository.data.testTags
                         && TestTagActive(repository.data.testTags[tokenHash], read)
      ensures r.Ok? ==>
                var tag, bound := repository.data.testTags[tokenHash], Bound(target).value;
                r.value == (token, bound.1)
                && taps.store == Sessions.Issued(TAPS, old(taps.store), now, token,
                                   TapSession(tag.tokenHash, tag.accessPoint, None, true, bound.0, bound.1))
      ensures r.Err? ==> taps.store == old(taps.store)
    {
      var tag := ReadTestTag(id, tokenHash, read);
      if tag.None? { return Err(Refused); }
      CheckTestDoor(id, tag.value, supports);
      if !supports { return Err(Unavailable); }
      var bound := IssueSession(id, TestSupported(tag.value), target, now, token);
      r := if bound.Some? then Ok((token, bound.value.1)) else Err(Unavailable);
    }

    // ----- the passkey ceremony -----

    /** The tap session is peeked at, and a ceremony for it begun. */
    method BeginAuthentication(now: int, tapToken: Sessions.Token, ceremonyToken: Sessions.Token, challenge: nat)
      returns (r: Result<Sessions.Token, AccessError>)
      requires Mirrors(map[])
      modifies this`trace, taps, authentications
      ensures Mirrors(map[]) && Continues(old(trace))
      ensures r.Ok? <==> Sessions.Peeked(old(taps.store), now, tapToken).Some?
      ensures r.Ok? ==> authentications.store
                        == Sessions.Issued(CEREMONIES, old(authentications.store), now, ceremonyToken,
                            Ceremony(tapToken, challenge))
    {
      Follow(Event.BeginAuthentication(now, tapToken, ceremonyToken, challenge));
      var tap := taps.Peek(now, tapToken);
      if tap.None? { return Err(Expired); }
      authentications.Issue(now, ceremonyToken, Ceremony(tapToken, challenge));
      r := Ok(ceremonyToken);
    }

    method ConsumeCeremony(id: int, now: int, ceremonyToken: Sessions.Token) returns (ceremony: Option<Ceremony>)
      requires Mirrors(map[])
      modifies this`trace, authentications
      ensures Mirrors(if ceremony.Some? then map[id := CeremonyConsumed(ceremony.value)] else map[])
              && Continues(old(trace))
      ensures ceremony == Sessions.Peeked(old(authentications.store), now, ceremonyToken)
      ensures authentications.store == Sessions.Consumed(old(authentications.store), now, ceremonyToken)
    {
      Follow(Event.ConsumeCeremony(id, now, ceremonyToken));
      ceremony := authentications.Consume(now, ceremonyToken);
    }

    method ReadPasskey(id: int, ceremony: Ceremony, credentialId: string) returns (passkey: Option<Passkey>)
      requires Mirrors(map[id := CeremonyConsumed(ceremony)])
      modifies this`trace
      ensures Mirrors(if passkey.Some? then map[id := PasskeyRead(ceremony, passkey.value)] else map[])
              && Continues(old(trace))
      ensures passkey == if credentialId in repository.data.credentials
              && repository.data.credentials[credentialId].enabled
                         then Some(repository.data.credentials[credentialId]) else None
    {
      var read := repository.GetCredential(credentialId);
      Follow(Event.ReadPasskey(id, credentialId));
      passkey := if read.Ok? then Some(read.value) else None;
      assert map[id := CeremonyConsumed(ceremony)] - {id} == map[];
    }

    method VerifyPasskey(id: int, ceremony: Ceremony, passkey: Passkey, response: Response)
      returns (signCount: Option<nat>)
      requires Mirrors(map[id := PasskeyRead(ceremony, passkey)])
      modifies this`trace
      ensures Mirrors(if signCount.Some? then map[id := PasskeyVerified(ceremony, passkey, signCount.value)] else map[])
      ensures Continues(old(trace))
      ensures signCount == config.verify(ceremony.challenge, passkey.publicKey, passkey.signCount, response)
    {
      signCount := config.verify(ceremony.challenge, passkey.publicKey, passkey.signCount, response);
      Follow(Event.VerifyPasskey(id, response));
      assert map[id := PasskeyRead(ceremony, passkey)] - {id} == map[];
    }

    method RecordSignCount(id: int, ceremony: Ceremony, passkey: Passkey, signCount: nat, saved: bool)
      returns (recorded: bool)
      requires Mirrors(map[id := PasskeyVerified(ceremony, passkey, signCount)])
      modifies this`trace, repository
      ensures Mirrors(if recorded then map[id := Authenticated(ceremony.tapToken, passkey.person)] else map[])
      ensures Continues(old(trace))
      ensures recorded <==> saved && Apply(old(repository.data), UpdateSignCount(passkey.credentialId, signCount)).Ok?
      ensures repository.data
              == Committed(old(repository.data), UpdateSignCount(passkey.credentialId, signCount), saved)
    {
      var r := repository.UpdateSignCount(passkey.credentialId, signCount, saved);
      Follow(Event.RecordSignCount(id, saved));
      recorded := r.Ok?;
      assert map[id := PasskeyVerified(ceremony, passkey, signCount)] - {id} == map[];
    }

    /** Who answered, and for which tap; the ceremony is spent either way. */
    method FinishAuthentication(id: int, now: int, ceremonyToken: Sessions.Token, credentialId: string,
                                response: Response, saved: bool)
      returns (r: Result<(Sessions.Token, Uuid), AccessError>)
      requires Mirrors(map[])
      modifies this`trace, repository, authentications
      ensures Mirrors(if r.Ok? then map[id := Authenticated(r.value.0, r.value.1)] else map[]) && Continues(old(trace))
      ensures authentications.store == Sessions.Consumed(old(authentications.store), now, ceremonyToken)
      ensures var ceremony := Sessions.Peeked(old(authentications.store), now, ceremonyToken);
              (r.Ok? <==> PasskeyAccepted(config, old(repository.data), ceremony, credentialId, response, saved))
              && (r.Ok? ==> r.value == (ceremony.value.tapToken, old(repository.data).credentials[credentialId].person))
    {
      var ceremony := ConsumeCeremony(id, now, ceremonyToken);
      if ceremony.None? { return Err(Expired); }
      var passkey := ReadPasskey(id, ceremony.value, credentialId);
      if passkey.None? { return Err(Refused); }
      var signCount := VerifyPasskey(id, ceremony.value, passkey.value, response);
      if signCount.None? { return Err(Refused); }
      var recorded := RecordSignCount(id, ceremony.value, passkey.value, signCount.value, saved);
      r := if recorded then Ok((ceremony.value.tapToken, passkey.value.person)) else Err(Refused);
    }

    // ----- operate -----

    method TakeTap(id: int, token: Sessions.Token, person: Uuid, now: int) returns (tap: Option<TapSession>)
      requires Mirrors(map[id := Authenticated(token, person)])
      modifies this`trace, taps
      ensures Mirrors(if tap.Some? then map[id := Tapped(token, tap.value, person)] else map[]) && Continues(old(trace))
      ensures tap == Sessions.Peeked(old(taps.store), now, token)
      ensures taps.store == Sessions.Consumed(old(taps.store), now, token)
    {
      Follow(Event.ConsumeTap(id, now));
      tap := taps.Consume(now, token);
      assert map[id := Authenticated(token, person)] - {id} == map[];
    }

    method CheckGrant(id: int, token: Sessions.Token, tap: TapSession, person: Uuid, now: int) returns (granted: bool)
      requires Mirrors(map[id := Tapped(token, tap, person)])
      modifies this`trace
      ensures Mirrors(if granted then map[id := Granted(token, tap, person)] else map[]) && Continues(old(trace))
      ensures granted <==> MayOperate(repository.data, tap, person, now)
    {
      if tap.testMode {
        granted := repository.TestTagHashIsActive(tap.publicId, tap.accessPoint, now);
      } else {
        granted := repository.HasAccessGrant(person, tap.accessPoint);
      }
      Follow(Event.CheckGrant(id, now));
      assert map[id := Tapped(token, tap, person)] - {id} == map[];
    }

    method Decide(id: int, token: Sessions.Token, tap: TapSession, person: Uuid, allowed: bool)
      requires Mirrors(map[id := Granted(token, tap, person)])
      modifies this`trace
      ensures Mirrors(if allowed then map[id := Allowed(token, tap, person)] else map[]) && Continues(old(trace))
    {
      Follow(Event.Decide(id, allowed));
      assert map[id := Granted(token, tap, person)] - {id} == map[];
    }

    method CheckCapability(id: int, token: Sessions.Token, tap: TapSession, person: Uuid, supports: bool)
      requires Mirrors(map[id := Allowed(token, tap, person)])
      modifies this`trace
      ensures Mirrors(if supports then map[id := Capable(token, tap, person)] else map[]) && Continues(old(trace))
    {
      Follow(Event.CheckCapability(id, supports));
      assert map[id := Allowed(token, tap, person)] - {id} == map[];
    }

    /** The one place where a command leaves. */
    method Execute(id: int, token: Sessions.Token, tap: TapSession, person: Uuid)
      requires Mirrors(map[id := Capable(token, tap, person)])
      modifies this
      ensures Mirrors(map[]) && Continues(old(trace))
      ensures commands == old(commands) + [Command(tap.accessPoint, tap.operation, person)]
    {
      ghost var e := Event.Dispatch(id, true);
      ghost var next := Step(config, Last(trace), e);
      RunGrows(config, trace, e);
      CommandsKept(trace, e, next, |trace.events|);
      trace := Extended(trace, e, next);
      commands := commands + [Command(tap.accessPoint, tap.operation, person)];
      assert map[id := Capable(token, tap, person)] - {id} == map[];
    }

    /** An outcome is recorded if it can be; a failed write changes nothing and is swallowed. */
    method Audit(attempt: Attempt, saved: bool)
      requires Mirrors(map[])
      modifies this`trace, repository
      ensures Mirrors(map[]) && Continues(old(trace))
      ensures repository.data == Committed(old(repository.data), AppendAudit(attempt), saved)
    {
      Follow(Event.Admin(AppendAudit(attempt), saved));
      var r := repository.AppendAudit(attempt, saved);
    }

    /**
     The authorized operation. A command is sent exactly when the tap session is live, the person is
     granted the Door (or the test tag is live), policy allows, and the Door is capable and found;
     then it is the command bound at the tap, sent once. The session is gone and the outcome recorded,
     if it can be, in every case.
     */
    method Operate(id: int, token: Sessions.Token, person: Uuid, now: int, a: Answers)
      returns (r: Result<AccessResult, AccessError>)
      requires Mirrors(map[id := Authenticated(token, person)])
      modifies this, repository, taps
      ensures Mirrors(map[]) && Continues(old(trace))
      ensures taps.store == Sessions.Consumed(old(taps.store), now, token)
      ensures var tap := Sessions.Peeked(old(taps.store), now, token);
              var sent := tap.Some? && MayOperate(old(repository.data), tap.value, person, now) && a.allowed
                  && a.supports && a.found;
              (sent ==> commands == old(commands) + [Command(tap.value.accessPoint, tap.value.operation, person)])
              && (!sent ==> commands == old(commands))
              && (r.Ok? && r.value.allowed <==> sent && a.executes)
              && (r.Ok? ==> tap.Some? && r.value.testMode == tap.value.testMode && r.value.action == tap.value.action)
      ensures var tap := Sessions.Peeked(old(taps.store), now, token);
              repository.data ==
                if tap.None? then old(repository.data)
                else
                  var granted := MayOperate(old(repository.data), tap.value, person, now);
                  Recorded(old(repository.data), AttemptOf(granted, tap.value, person, now, a), a.auditSaved)
    {
      var taken := TakeTap(id, token, person, now);
      if taken.None? { return Err(Expired); }
      var tap := taken.value;
      var granted := CheckGrant(id, token, tap, person, now);
      if granted {
        r := Proceed(id, token, tap, person, now, a);
      } else {
        r := Deny(tap, person, now, a);
      }
    }

    /** Without a grant: the target is read for its name, and the denial recorded. */
    method Deny(tap: TapSession, person: Uuid, now: int, a: Answers) returns (r: Result<AccessResult, AccessError>)
      requires Mirrors(map[])
      modifies this`trace, repository
      ensures Mirrors(map[]) && Continues(old(trace))
      ensures r == if a.found then Ok(AccessResult(false, tap.testMode, tap.action)) else Err(Unavailable)
      ensures repository.data == Recorded(old(repository.data), AttemptOf(false, tap, person, now, a), a.auditSaved)
    {
      if !a.found { return Err(Unavailable); }
      Audit(Outcome(now, "denied", tap, person, if tap.testMode then "test_tag_inactive" else "no_nfc_access_grant"),
            a.auditSaved);
      r := Ok(AccessResult(false, tap.testMode, tap.action));
    }

    /** After the grant: policy, capability, and the command. */
    method Proceed(id: int, token: Sessions.Token, tap: TapSession, person: Uuid, now: int, a: Answers)
      returns (r: Result<AccessResult, AccessError>)
      requires Mirrors(map[id := Granted(token, tap, person)])
      modifies this, repository
      ensures Mirrors(map[]) && Continues(old(trace))
      ensures commands == if a.allowed && a.supports && a.found
                          then old(commands) + [Command(tap.accessPoint, tap.operation, person)] else old(commands)
      ensures r.Ok? && r.value.allowed <==> a.allowed && a.supports && a.found && a.executes
      ensures r.Ok? ==> r.value.testMode == tap.testMode && r.value.action == tap.action
      ensures repository.data == Recorded(old(repository.data), AttemptOf(true, tap, person, now, a), a.auditSaved)
    {
      Decide(id, token, tap, person, a.allowed);
      if !a.allowed {
        Audit(Outcome(now, "denied", tap, person, a.decision), a.auditSaved);
        return Ok(AccessResult(false, tap.testMode, tap.action));
      }
      CheckCapability(id, token, tap, person, a.supports);
      if !a.supports {
        Audit(Outcome(now, "failed", tap, person, "nfc_capability_unavailable"), a.auditSaved);
        return Ok(AccessResult(false, tap.testMode, tap.action));
      }
      if !a.found {
        Abandon(id, Capable(token, tap, person));
        return Err(Unavailable);
      }
      Execute(id, token, tap, person);
      if !a.executes {
        Audit(Outcome(now, "failed", tap, person, "door_command_failed"), a.auditSaved);
        return Err(CommandFailed);
      }
      Audit(Outcome(now, "allowed", tap, person, "allowed"), a.auditSaved);
      r := Ok(AccessResult(true, tap.testMode, tap.action));
    }
  }
}
