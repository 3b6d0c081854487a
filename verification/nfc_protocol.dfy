/**
 The NFC tap protocol (nfc/access.py, nfc/webauthn_service.py, nfc/views.py) as a state machine over
 the store, the tap and ceremony sessions and every call in flight.

 Each `await` ends a step, so any number of taps, ceremonies, operations and administrative changes
 interleave. A call in flight is what it remembers between two awaits. Answers of the vault, the
 policy service, the Door and the browser are part of the events. A restart empties the sessions.
 */
module NfcProtocol {
  import opened Results
  import opened NfcRepository
  import opened Sessions
  import Sun

  datatype Operation = LockDoor | UnlockDoor
  datatype Action = Close | Open | Unlock

  // ----- what a tap will do -----

  datatype Profile = LockProfile | GarageCover | GarageToggle | ElectricStrike

  /** Where a Door or its lock stands; every other reading, such as a jammed lock, is one of the last. */
  datatype DoorState = DoorOpen | DoorClosed | OtherDoorState
  datatype LockState = Locked | Locking | Unlocked | Unlocking | OtherLockState

  /** A Door's target, and its state unless that cannot be resolved. */
  datatype Reading = Reading(profile: Profile, entryOpens: bool, state: Option<(DoorState, LockState)>)

  predicate Roller(r: Reading) {
    r.profile == GarageCover || r.profile == GarageToggle
  }

  predicate ReadsOpen(r: Reading) {
    r.state.Some? && (r.state.value.0 == DoorOpen || r.state.value.1 == Unlocked || r.state.value.1 == Unlocking)
  }

  predicate ReadsClosed(r: Reading) {
    r.state.Some? && (r.state.value.0 == DoorClosed || r.state.value.1 == Locked || r.state.value.1 == Locking)
  }

  /** `_operation_for_target`: the operation a tap will perform and what the user is told it does. */
  function OperationFor(r: Reading): Option<(Operation, Action)> {
    if r.profile == LockProfile && r.entryOpens then Some((UnlockDoor, Open))
    else if !Roller(r) then Some((UnlockDoor, Unlock))
    else if ReadsOpen(r) then Some((LockDoor, Close))
    else if ReadsClosed(r) then Some((UnlockDoor, Open))
    else None
  }

  /** The operation bound to a tap, unless the Door's target or state raises. */
  function Bound(target: Option<Reading>): Option<(Operation, Action)> {
    if target.None? then None else OperationFor(target.value)
  }

  const SECOND := 1_000_000
  const TAP_SESSION_TTL := 30 * SECOND
  const CEREMONY_TTL := 120 * SECOND
  const TAPS := Limits(TAP_SESSION_TTL, 1024)
  const CEREMONIES := Limits(CEREMONY_TTL, 1024)

  datatype TapSession = TapSession(
    publicId: string, accessPoint: Uuid, counter: Option<nat>, testMode: bool, operation: Operation, action: Action)

  datatype Ceremony = Ceremony(tapToken: Token, challenge: nat)

  type Response = seq<int>

  datatype Call =
    | TapRead(publicId: string, tag: NfcTag)                          // begin_tap
    | TapVerified(publicId: string, accessPoint: Uuid, counter: nat)
    | TapClaimed(publicId: string, accessPoint: Uuid, counter: nat)
    | TestRead(testTag: NfcTestTag)                                   // begin_test_tap
    | TestSupported(testTag: NfcTestTag)
    | CeremonyConsumed(ceremony: Ceremony)                            // finish_authentication
    | PasskeyRead(ceremony: Ceremony, passkey: Passkey)
    | PasskeyVerified(ceremony: Ceremony, passkey: Passkey, signCount: nat)
    | Authenticated(token: Token, person: Uuid)                       // operate
    | Tapped(token: Token, tap: TapSession, person: Uuid)
    | Granted(token: Token, tap: TapSession, person: Uuid)
    | Allowed(token: Token, tap: TapSession, person: Uuid)
    | Capable(token: Token, tap: TapSession, person: Uuid)

  datatype State = State(data: Data, taps: Store<TapSession>, ceremonies: Store<Ceremony>, calls: map<int, Call>)

  datatype Event =
    | Admin(m: Mutation, saved: bool)
    | Restart
    | Abort(id: int)
    | BeginTap(id: int, publicId: string)
    | VerifyTap(id: int, supports: bool, metaKey: Sun.Bytes, fileKey: Sun.Bytes, picc: Option<Sun.Bytes>,
        mac: Option<Sun.Bytes>)
    | ClaimTap(id: int, saved: bool)
    | BeginTestTap(id: int, tokenHash: string, now: int)
    | CheckTestDoor(id: int, supports: bool)
    | IssueTap(id: int, now: int, token: Token, target: Option<Reading>)
    | BeginAuthentication(now: int, tapToken: Token, ceremonyToken: Token, challenge: nat)
    | ConsumeCeremony(id: int, now: int, ceremonyToken: Token)
    | ReadPasskey(id: int, credentialId: string)
    | VerifyPasskey(id: int, response: Response)
    | RecordSignCount(id: int, saved: bool)
    | ConsumeTap(id: int, now: int)
    | CheckGrant(id: int, now: int)
    | Decide(id: int, allowed: bool)
    | CheckCapability(id: int, supports: bool)
    | Dispatch(id: int, found: bool)

  /**
   Cryptography is uninterpreted: SUN ciphers, and verification of a passkey response, which gives
   its new counter.
   */
  datatype Config = Config(crypto: Sun.Crypto, verify: (nat, string, nat, Response) -> Option<nat>)

  ghost predicate Ready(c: Config) {
    Sun.BlockCipher(c.crypto)
  }

  function End(s: State, id: int): State {
    s.(calls := s.calls - {id})
  }

  function Goes(s: State, id: int, on: bool, call: Call): State {
    if on then s.(calls := s.calls[id := call]) else End(s, id)
  }

  predicate TapVerifies(c: Config, e: Event, tag: NfcTag, counter: nat)
    requires e.VerifyTap? && Ready(c)
  {
    var r := Sun.Verify(c.crypto, e.picc, e.mac, e.metaKey, e.fileKey, tag.uid);
    e.supports && r.Ok? && r.value.counter == counter
  }

  function CounterOf(c: Config, e: Event, tag: NfcTag): nat
    requires e.VerifyTap? && Ready(c)
  {
    var r := Sun.Verify(c.crypto, e.picc, e.mac, e.metaKey, e.fileKey, tag.uid);
    if r.Ok? then r.value.counter else 0
  }

  /** A call about to bind an operation and issue its session. */
  predicate Issuing(call: Call) {
    call.TapClaimed? || call.TestSupported?
  }

  function SessionFor(call: Call, bound: (Operation, Action)): TapSession
    requires Issuing(call)
  {
    if call.TapClaimed? then TapSession(call.publicId, call.accessPoint, Some(call.counter), false, bound.0, bound.1)
    else TapSession(call.testTag.tokenHash, call.testTag.accessPoint, None, true, bound.0, bound.1)
  }

  predicate MayOperate(d: Data, tap: TapSession, person: Uuid, now: int) {
    if tap.testMode then TestTagLive(d, tap.publicId, tap.accessPoint, now) else HasGrant(d, person, tap.accessPoint)
  }

  predicate Begins(e: Event) {
    e.BeginTap? || e.BeginTestTap? || e.ConsumeCeremony?
  }

  /** Events that do not apply to the state leave it alone. */
  ghost function Step(c: Config, s: State, e: Event): State
    requires Ready(c)
  {
    if e.Admin? then s.(data := Committed(s.data, e.m, e.saved))
    else if e.Restart? then State(s.data, s.taps.(items := map[]), s.ceremonies.(items := map[]), map[])
    else if e.BeginAuthentication? then Challenge(s, e)
    else if Begins(e) then (if e.id in s.calls then s else Start(s, e))
    else if e.id !in s.calls then s
    else Continue(c, s, e, s.calls[e.id])
  }

  /** The tap session is looked at, not consumed; the ceremony remembers its token. */
  ghost function Challenge(s: State, e: Event): State
    requires e.BeginAuthentication?
  {
    var peeked := s.(taps := s.taps.(items := Live(s.taps.items, e.now)));
    if Peeked(s.taps, e.now, e.tapToken).None? then peeked
    else
      var ceremony := Ceremony(e.tapToken, e.challenge);
      peeked.(ceremonies := Issued(CEREMONIES, s.ceremonies, e.now, e.ceremonyToken, ceremony))
  }

  ghost function Start(s: State, e: Event): State
    requires Begins(e)
  {
    match e
    case BeginTap(id, publicId) =>
      if publicId in s.data.tags && s.data.tags[publicId].enabled
      then s.(calls := s.calls[id := TapRead(publicId, s.data.tags[publicId])]) else s
    case BeginTestTap(id, tokenHash, now) =>
      if tokenHash in s.data.testTags && TestTagActive(s.data.testTags[tokenHash], now)
      then s.(calls := s.calls[id := TestRead(s.data.testTags[tokenHash])]) else s
    case ConsumeCeremony(id, now, ceremonyToken) =>
      var r := Peeked(s.ceremonies, now, ceremonyToken);
      var t := s.(ceremonies := Consumed(s.ceremonies, now, ceremonyToken));
      if r.Some? then t.(calls := s.calls[id := CeremonyConsumed(r.value)]) else t
  }

  ghost function Continue(c: Config, s: State, e: Event, call: Call): State
    requires Ready(c) && !e.Admin? && !e.Restart? && !e.BeginAuthentication? && !Begins(e)
  {
    match e
    case Abort(id) => End(s, id)
    case VerifyTap(id, _, _, _, _, _) =>
      if !call.TapRead? then s
      else
        var counter := CounterOf(c, e, call.tag);
        Goes(s, id, TapVerifies(c, e, call.tag, counter), TapVerified(call.publicId, call.tag.accessPoint, counter))
    case ClaimTap(id, saved) =>
      if !call.TapVerified? then s
      else
        var m := ClaimCounter(call.publicId, call.counter);
        Goes(s.(data := Committed(s.data, m, saved)), id, saved && Apply(s.data, m).Ok?,
             TapClaimed(call.publicId, call.accessPoint, call.counter))
    case CheckTestDoor(id, supports) =>
      if !call.TestRead? then s else Goes(s, id, supports, TestSupported(call.testTag))
    case IssueTap(id, now, token, target) =>
      if !Issuing(call) then s
      else if Bound(target).None? then End(s, id)
      else End(s, id).(taps := Issued(TAPS, s.taps, now, token, SessionFor(call, Bound(target).value)))
    case ReadPasskey(id, credentialId) =>
      if !call.CeremonyConsumed? then s
      else if credentialId in s.data.credentials && s.data.credentials[credentialId].enabled
      then Goes(s, id, true, PasskeyRead(call.ceremony, s.data.credentials[credentialId]))
      else End(s, id)
    case VerifyPasskey(id, response) =>
      if !call.PasskeyRead? then s
      else
        var r := c.verify(call.ceremony.challenge, call.passkey.publicKey, call.passkey.signCount, response);
        if r.Some? then Goes(s, id, true, PasskeyVerified(call.ceremony, call.passkey, r.value)) else End(s, id)
    case RecordSignCount(id, saved) =>
      if !call.PasskeyVerified? then s
      else
        var m := UpdateSignCount(call.passkey.credentialId, call.signCount);
        Goes(s.(data := Committed(s.data, m, saved)), id, saved && Apply(s.data, m).Ok?,
             Authenticated(call.ceremony.tapToken, call.passkey.person))
    case ConsumeTap(id, now) =>
      if !call.Authenticated? then s
      else
        var r := Peeked(s.taps, now, call.token);
        var t := s.(taps := Consumed(s.taps, now, call.token));
        if r.Some? then Goes(t, id, true, Tapped(call.token, r.value, call.person)) else End(t, id)
    case CheckGrant(id, now) =>
      if !call.Tapped? then s
      else Goes(s, id, MayOperate(s.data, call.tap, call.person, now), Granted(call.token, call.tap, call.person))
    case Decide(id, allowed) =>
      if !call.Granted? then s else Goes(s, id, allowed, Allowed(call.token, call.tap, call.person))
    case CheckCapability(id, supports) =>
      if !call.Allowed? then s else Goes(s, id, supports, Capable(call.token, call.tap, call.person))
    case Dispatch(id, found) => if call.Capable? then End(s, id) else s
    case _ => s
  }

  // ----- runs -----

  datatype Trace = Trace(states: seq<State>, events: seq<Event>)

  ghost predicate StepAt(c: Config, tr: Trace, n: nat)
    requires Ready(c) && n < |tr.events| && |tr.states| == |tr.events| + 1
  {
    tr.states[n + 1] == Step(c, tr.states[n], tr.events[n])
  }

  /** A run starts with whatever is stored, no sessions and no calls. */
  ghost predicate IsRun(c: Config, tr: Trace) {
    && Ready(c)
    && |tr.states| == |tr.events| + 1
    && tr.states[0] == State(tr.states[0].data, Store(map[], 0), Store(map[], 0), map[])
    && forall n :: 0 <= n < |tr.events| ==> StepAt(c, tr, n)
  }

  /** Random session tokens never repeat. */
  ghost predicate FreshTapTokens(tr: Trace) {
    forall i, j :: 0 <= i < j < |tr.events| && tr.events[i].IssueTap? && tr.events[j].IssueTap? ==>
                     tr.events[i].token != tr.events[j].token
  }

  /** The `n`th event sends a command to a Door. */
  ghost predicate Dispatches(tr: Trace, n: nat) {
    && n < |tr.events| < |tr.states|
    && tr.events[n].Dispatch? && tr.events[n].found
    && tr.events[n].id in tr.states[n].calls && tr.states[n].calls[tr.events[n].id].Capable?
  }

  // ----- how a call came to where it is -----

  ghost predicate At(s: State, id: int, call: Call) {
    id in s.calls && s.calls[id] == call
  }

  /** The one event that puts a call where it is, and what that event saw. */
  ghost predicate EnteredBy(c: Config, s: State, e: Event, id: int, call: Call)
    requires Ready(c)
  {
    match call
    case TapRead(publicId, tag) =>
      e == BeginTap(id, publicId) && id !in s.calls && publicId in s.data.tags && s.data.tags[publicId] == tag
          && tag.enabled
    case TapVerified(publicId, accessPoint, counter) =>
      e.VerifyTap? && e.id == id && id in s.calls && s.calls[id].TapRead? && s.calls[id].publicId == publicId
      && s.calls[id].tag.accessPoint == accessPoint && TapVerifies(c, e, s.calls[id].tag, counter)
    case TapClaimed(publicId, accessPoint, counter) =>
      e == ClaimTap(id, true) && At(s, id, TapVerified(publicId, accessPoint, counter))
      && Apply(s.data, ClaimCounter(publicId, counter)).Ok?
    case TestRead(t) =>
      e.BeginTestTap? && e.id == id && id !in s.calls && e.tokenHash in s.data.testTags
      && s.data.testTags[e.tokenHash] == t && TestTagActive(t, e.now)
    case TestSupported(t) => e == CheckTestDoor(id, true) && At(s, id, TestRead(t))
    case CeremonyConsumed(ceremony) =>
      e.ConsumeCeremony? && e.id == id && id !in s.calls
          && Peeked(s.ceremonies, e.now, e.ceremonyToken) == Some(ceremony)
    case PasskeyRead(ceremony, passkey) =>
      e.ReadPasskey? && e.id == id && At(s, id, CeremonyConsumed(ceremony))
      && e.credentialId in s.data.credentials && s.data.credentials[e.credentialId] == passkey && passkey.enabled
    case PasskeyVerified(ceremony, passkey, signCount) =>
      e.VerifyPasskey? && e.id == id && At(s, id, PasskeyRead(ceremony, passkey))
      && c.verify(ceremony.challenge, passkey.publicKey, passkey.signCount, e.response) == Some(signCount)
    case Authenticated(token, person) =>
      e == RecordSignCount(id, true) && id in s.calls && s.calls[id].PasskeyVerified?
      && s.calls[id].ceremony.tapToken == token && s.calls[id].passkey.person == person
      && Apply(s.data, UpdateSignCount(s.calls[id].passkey.credentialId, s.calls[id].signCount)).Ok?
    case Tapped(token, tap, person) =>
      e.ConsumeTap? && e.id == id && At(s, id, Authenticated(token, person))
          && Peeked(s.taps, e.now, token) == Some(tap)
    case Granted(token, tap, person) =>
      e.CheckGrant? && e.id == id && At(s, id, Tapped(token, tap, person)) && MayOperate(s.data, tap, person, e.now)
    case Allowed(token, tap, person) => e == Decide(id, true) && At(s, id, Granted(token, tap, person))
    case Capable(token, tap, person) => e == CheckCapability(id, true) && At(s, id, Allowed(token, tap, person))
  }

  lemma {:induction false} StepEnters(c: Config, s: State, e: Event, id: int, call: Call)
    requires Ready(c) && At(Step(c, s, e), id, call) && !At(s, id, call)
    ensures EnteredBy(c, s, e, id, call)
  {
  }

  /** The step that put a call where it is, with nothing happening to the call since. */
  lemma {:induction false} Entered(c: Config, tr: Trace, n: nat, id: int, call: Call) returns (i: nat)
    requires IsRun(c, tr) && n < |tr.states| && At(tr.states[n], id, call)
    ensures i < n && EnteredBy(c, tr.states[i], tr.events[i], id, call)
    ensures forall j :: i < j <= n ==> At(tr.states[j], id, call)
    decreases n
  {
    if At(tr.states[n - 1], id, call) {
      i := Entered(c, tr, n - 1, id, call);
    } else {
      i := n - 1;
      assert StepAt(c, tr, i);
      StepEnters(c, tr.states[i], tr.events[i], id, call);
    }
  }

  // ----- sessions -----

  lemma {:induction false} TapsStep(c: Config, s: State, e: Event, token: Token)
    requires Ready(c) && token in Step(c, s, e).taps.items
    ensures (token in s.taps.items && Step(c, s, e).taps.items[token] == s.taps.items[token])
            || (e.IssueTap? && e.token == token && Bound(e.target).Some? && e.id in s.calls && Issuing(s.calls[e.id])
                && Step(c, s, e).taps.items[token].value == SessionFor(s.calls[e.id], Bound(e.target).value)
                && Step(c, s, e).taps.items[token].expiresAt == e.now + TAP_SESSION_TTL
                && e.id !in Step(c, s, e).calls)
  {
    if e.IssueTap? && e.id in s.calls && Issuing(s.calls[e.id]) && Bound(e.target).Some? {
      IssuedMember(TAPS, s.taps, e.now, e.token, SessionFor(s.calls[e.id], Bound(e.target).value), token);
    } else {
      OtherStepsKeepTaps(c, s, e, token);
    }
  }

  lemma {:induction false} OtherStepsKeepTaps(c: Config, s: State, e: Event, token: Token)
    requires Ready(c) && token in Step(c, s, e).taps.items
    requires !(e.IssueTap? && e.id in s.calls && Issuing(s.calls[e.id]) && Bound(e.target).Some?)
    ensures token in s.taps.items && Step(c, s, e).taps.items[token] == s.taps.items[token]
  {
  }

  /** The issue that put a tap session where it is. */
  ghost predicate IssuesTap(tr: Trace, i: nat, token: Token, tap: TapSession) {
    && i < |tr.events| < |tr.states|
    && tr.events[i].IssueTap? && tr.events[i].token == token && Bound(tr.events[i].target).Some?
    && tr.events[i].id in tr.states[i].calls && tr.events[i].id !in tr.states[i + 1].calls
    && Issuing(tr.states[i].calls[tr.events[i].id])
    && tap == SessionFor(tr.states[i].calls[tr.events[i].id], Bound(tr.events[i].target).value)
  }

  ghost predicate SameEntry<T>(a: Store<T>, b: Store<T>, token: Token) {
    token in a.items && token in b.items && a.items[token] == b.items[token]
  }

  lemma {:induction false} TapStepAt(c: Config, tr: Trace, n: nat, token: Token)
    requires IsRun(c, tr) && n < |tr.events| && token in tr.states[n + 1].taps.items
    ensures SameEntry(tr.states[n].taps, tr.states[n + 1].taps, token)
            || (IssuesTap(tr, n, token, tr.states[n + 1].taps.items[token].value)
                && tr.states[n + 1].taps.items[token].expiresAt == tr.events[n].now + TAP_SESSION_TTL)
  {
    assert StepAt(c, tr, n);
    TapsStep(c, tr.states[n], tr.events[n], token);
  }

  lemma {:induction false} TapWasIssued(c: Config, tr: Trace, n: nat, token: Token) returns (i: nat)
    requires IsRun(c, tr) && n < |tr.states| && token in tr.states[n].taps.items
    ensures i < n && IssuesTap(tr, i, token, tr.states[n].taps.items[token].value)
    ensures tr.states[n].taps.items[token].expiresAt == tr.events[i].now + TAP_SESSION_TTL
    ensures forall j :: i < j <= n ==> token in tr.states[j].taps.items
    decreases n
  {
    TapStepAt(c, tr, n - 1, token);
    if SameEntry(tr.states[n - 1].taps, tr.states[n].taps, token) {
      i := TapWasIssued(c, tr, n - 1, token);
    } else {
      i := n - 1;
    }
  }

  lemma {:induction false} CeremoniesStep(c: Config, s: State, e: Event, token: Token)
    requires Ready(c) && token in Step(c, s, e).ceremonies.items
    ensures (token in s.ceremonies.items && Step(c, s, e).ceremonies.items[token] == s.ceremonies.items[token])
            || (e.BeginAuthentication? && e.ceremonyToken == token && Peeked(s.taps, e.now, e.tapToken).Some?
                && Step(c, s, e).ceremonies.items[token].value == Ceremony(e.tapToken, e.challenge)
                && Step(c, s, e).ceremonies.items[token].expiresAt == e.now + CEREMONY_TTL)
  {
  }

  ghost predicate BeginsCeremony(tr: Trace, i: nat, ceremony: Ceremony) {
    && i < |tr.events| < |tr.states|
    && tr.events[i].BeginAuthentication?
    && Ceremony(tr.events[i].tapToken, tr.events[i].challenge) == ceremony
    && Peeked(tr.states[i].taps, tr.events[i].now, ceremony.tapToken).Some?
  }

  lemma {:induction false} CeremonyStepAt(c: Config, tr: Trace, n: nat, token: Token)
    requires IsRun(c, tr) && n < |tr.events| && token in tr.states[n + 1].ceremonies.items
    ensures SameEntry(tr.states[n].ceremonies, tr.states[n + 1].ceremonies, token)
            || (BeginsCeremony(tr, n, tr.states[n + 1].ceremonies.items[token].value)
                && tr.states[n + 1].ceremonies.items[token].expiresAt == tr.events[n].now + CEREMONY_TTL)
  {
    assert StepAt(c, tr, n);
    CeremoniesStep(c, tr.states[n], tr.events[n], token);
  }

  lemma {:induction false} CeremonyWasBegun(c: Config, tr: Trace, n: nat, token: Token) returns (i: nat)
    requires IsRun(c, tr) && n < |tr.states| && token in tr.states[n].ceremonies.items
    ensures i < n && BeginsCeremony(tr, i, tr.states[n].ceremonies.items[token].value)
    ensures tr.states[n].ceremonies.items[token].expiresAt == tr.events[i].now + CEREMONY_TTL
    decreases n
  {
    CeremonyStepAt(c, tr, n - 1, token);
    if SameEntry(tr.states[n - 1].ceremonies, tr.states[n].ceremonies, token) {
      i := CeremonyWasBegun(c, tr, n - 1, token);
    } else {
      i := n - 1;
    }
  }

  /** The uses of the tap store among the steps. */
  ghost predicate UsesTaps(s: State, e: Event, u: Use<TapSession>) {
    if e.BeginAuthentication? then u == Peek(e.now, e.tapToken)
    else if e.ConsumeTap? then
      e.id in s.calls && s.calls[e.id].Authenticated? && u == Consume(e.now, s.calls[e.id].token)
    else
      e.IssueTap? && e.id in s.calls && Issuing(s.calls[e.id]) && Bound(e.target).Some?
      && u == Issue(e.now, e.token, SessionFor(s.calls[e.id], Bound(e.target).value))
  }

  lemma {:induction false} TapsUsed(c: Config, s: State, e: Event, u: Use<TapSession>)
    requires Ready(c) && UsesTaps(s, e, u)
    ensures Step(c, s, e).taps == Next(TAPS, s.taps, u)
  {
  }

  lemma {:induction false} TapsUnused(c: Config, s: State, e: Event)
    requires Ready(c) && forall u :: !UsesTaps(s, e, u)
    ensures Step(c, s, e).taps == s.taps || Step(c, s, e).taps.items == map[]
  {
    if e.BeginAuthentication? {
      assert UsesTaps(s, e, Peek(e.now, e.tapToken));
    } else if e.ConsumeTap? && e.id in s.calls && s.calls[e.id].Authenticated? {
      assert UsesTaps(s, e, Consume(e.now, s.calls[e.id].token));
    } else if e.IssueTap? && e.id in s.calls && Issuing(s.calls[e.id]) && Bound(e.target).Some? {
      assert UsesTaps(s, e, Issue(e.now, e.token, SessionFor(s.calls[e.id], Bound(e.target).value)));
    }
  }

  lemma {:induction false} TapsFit(c: Config, s: State, e: Event)
    requires Ready(c) && |s.taps.items| <= 1024
    ensures |Step(c, s, e).taps.items| <= 1024
  {
    if u :| UsesTaps(s, e, u) {
      TapsUsed(c, s, e, u);
      NextSize(TAPS, s.taps, u);
    } else {
      TapsUnused(c, s, e);
    }
  }

  lemma {:induction false} CeremoniesFit(c: Config, s: State, e: Event)
    requires Ready(c) && |s.ceremonies.items| <= 1024
    ensures |Step(c, s, e).ceremonies.items| <= 1024
  {
    if e.BeginAuthentication? || e.ConsumeCeremony? {
      var u := CeremonyUse(e);
      CeremoniesUsed(c, s, e);
      NextSize(CEREMONIES, s.ceremonies, u);
    } else {
      CeremoniesUnused(c, s, e);
    }
  }

  function CeremonyUse(e: Event): Use<Ceremony>
    requires e.BeginAuthentication? || e.ConsumeCeremony?
  {
    if e.BeginAuthentication? then Issue(e.now, e.ceremonyToken, Ceremony(e.tapToken, e.challenge))
    else Consume(e.now, e.ceremonyToken)
  }

  lemma {:induction false} CeremoniesUsed(c: Config, s: State, e: Event)
    requires Ready(c) && (e.BeginAuthentication? || e.ConsumeCeremony?)
    ensures Step(c, s, e).ceremonies in {s.ceremonies, Next(CEREMONIES, s.ceremonies, CeremonyUse(e))}
  {
  }

  lemma {:induction false} CeremoniesUnused(c: Config, s: State, e: Event)
    requires Ready(c) && !e.BeginAuthentication? && !e.ConsumeCeremony?
    ensures Step(c, s, e).ceremonies == s.ceremonies || Step(c, s, e).ceremonies.items == map[]
  {
  }

  /** However many taps there are, at most 1024 sessions of either kind are kept. */
  lemma {:induction false} SessionsStayBounded(c: Config, tr: Trace, n: nat)
    requires IsRun(c, tr) && n < |tr.states|
    ensures |tr.states[n].taps.items| <= 1024 && |tr.states[n].ceremonies.items| <= 1024
  {
    if n > 0 {
      SessionsStayBounded(c, tr, n - 1);
      assert StepAt(c, tr, n - 1);
      TapsFit(c, tr.states[n - 1], tr.events[n - 1]);
      CeremoniesFit(c, tr.states[n - 1], tr.events[n - 1]);
    }
  }

  // ----- every dispatched command is accounted for -----

  /** Where in the run each thing a command rests on happened. */
  datatype Trail = Trail(
    issued: nat, begun: nat, ceremony: nat, read: nat, verified: nat, recorded: nat,
    consumed: nat, granted: nat, decided: nat, capable: nat)

  ghost predicate InOrder(t: Trail, k: nat) {
    t.begun < t.ceremony < t.read < t.verified < t.recorded < t.consumed < t.granted < t.decided < t.capable < k
    && t.issued < t.consumed
  }

  /** The tap session, consumed less than 30 seconds after its issue. */
  ghost predicate TapInTime(tr: Trace, t: Trail, id: int, token: Token, tap: TapSession) {
    && IssuesTap(tr, t.issued, token, tap)
    && t.consumed < |tr.events| && tr.events[t.consumed].ConsumeTap? && tr.events[t.consumed].id == id
    && tr.events[t.consumed].now < tr.events[t.issued].now + 30_000_000
    && Peeked(tr.states[t.consumed].taps, tr.events[t.consumed].now, token) == Some(tap)
  }

  /** The passkey: an enabled one of this person answered the challenge of a ceremony begun for this very tap. */
  ghost predicate PasskeyAnswered(c: Config, tr: Trace, t: Trail, id: int, token: Token, person: Uuid) {
    exists ceremony, passkey :: Answered(c, tr, t, id, token, person, ceremony, passkey)
  }

  ghost predicate Answered(c: Config, tr: Trace, t: Trail, id: int, token: Token, person: Uuid,
                           ceremony: Ceremony, passkey: Passkey)
  {
    && BeginsCeremony(tr, t.begun, ceremony) && ceremony.tapToken == token
    && t.ceremony < |tr.events| && tr.events[t.ceremony].ConsumeCeremony? && tr.events[t.ceremony].id == id
    && tr.events[t.ceremony].now < tr.events[t.begun].now + 120_000_000
    && t.read < |tr.events| && tr.events[t.read].ReadPasskey? && tr.events[t.read].id == id
    && tr.events[t.read].credentialId in tr.states[t.read].data.credentials
    && tr.states[t.read].data.credentials[tr.events[t.read].credentialId] == passkey
    && passkey.enabled && passkey.person == person
    && t.verified < |tr.events| && tr.events[t.verified].VerifyPasskey? && tr.events[t.verified].id == id
    && c.verify(ceremony.challenge, passkey.publicKey, passkey.signCount, tr.events[t.verified].response).Some?
  }

  /** A registered tag needs the person's grant for its Door, a test tag to be still that Door's and unexpired. */
  ghost predicate Entitled(d: Data, tap: TapSession, person: Uuid, now: int) {
    if !tap.testMode then
      exists k :: k in d.grants && d.grants[k].person == person && d.grants[k].accessPoint == tap.accessPoint
    else
      exists h :: h in d.testTags && h == tap.publicId && d.testTags[h].enabled
        && d.testTags[h].accessPoint == tap.accessPoint && now < d.testTags[h].expiresAt
  }

  /** The checks of the operation itself, each in this call and each against the state it found. */
  ghost predicate Checked(tr: Trace, t: Trail, id: int, tap: TapSession, person: Uuid) {
    && t.granted < |tr.events| < |tr.states| && t.decided < |tr.events| && t.capable < |tr.events|
    && tr.events[t.granted].CheckGrant? && tr.events[t.granted].id == id
    && Entitled(tr.states[t.granted].data, tap, person, tr.events[t.granted].now)
    && tr.events[t.decided] == Decide(id, true)
    && tr.events[t.capable] == CheckCapability(id, true)
  }

  /** It is one and the same call from the ceremony to the command. */
  ghost predicate OneCall(tr: Trace, t: Trail, id: int, k: nat) {
    forall j :: t.ceremony < j <= k < |tr.states| ==> id in tr.states[j].calls
  }

  lemma {:induction false} AuthenticationTrail(c: Config, tr: Trace, n: nat, id: int, token: Token, person: Uuid)
    returns (t: Trail)
    requires IsRun(c, tr) && n < |tr.states| && At(tr.states[n], id, Authenticated(token, person))
    ensures t.begun < t.ceremony < t.read < t.verified < t.recorded < n
    ensures PasskeyAnswered(c, tr, t, id, token, person)
    ensures OneCall(tr, t, id, n)
  {
    var recorded := Entered(c, tr, n, id, Authenticated(token, person));
    var third := tr.states[recorded].calls[id];
    var verified := Entered(c, tr, recorded, id, third);
    var second := PasskeyRead(third.ceremony, third.passkey);
    var read := Entered(c, tr, verified, id, second);
    var first := CeremonyConsumed(third.ceremony);
    var ceremony := Entered(c, tr, read, id, first);
    var begun := CeremonyWasBegun(c, tr, ceremony, tr.events[ceremony].ceremonyToken);
    t := Trail(0, begun, ceremony, read, verified, recorded, 0, 0, 0, 0);
    assert Answered(c, tr, t, id, token, person, third.ceremony, third.passkey);
    forall j | t.ceremony < j <= n ensures id in tr.states[j].calls {
      assert j <= read ==> At(tr.states[j], id, first);
      assert read < j <= verified ==> At(tr.states[j], id, second);
      assert verified < j <= recorded ==> At(tr.states[j], id, third);
      assert recorded < j ==> At(tr.states[j], id, Authenticated(token, person));
    }
  }

  /** The operation's own steps, backwards from the command. */
  lemma {:induction false} OperationTrail(c: Config, tr: Trace, k: nat, id: int, token: Token, tap: TapSession,
                                          person: Uuid)
    returns (t: Trail)
    requires IsRun(c, tr) && k < |tr.states| && At(tr.states[k], id, Capable(token, tap, person))
    ensures t.consumed < t.granted < t.decided < t.capable < k
    ensures At(tr.states[t.consumed], id, Authenticated(token, person))
    ensures tr.events[t.consumed].ConsumeTap? && tr.events[t.consumed].id == id
    ensures Peeked(tr.states[t.consumed].taps, tr.events[t.consumed].now, token) == Some(tap)
    ensures Checked(tr, t, id, tap, person)
    ensures forall j :: t.consumed < j <= k ==> id in tr.states[j].calls
  {
    var capable := Entered(c, tr, k, id, Capable(token, tap, person));
    var decided := Entered(c, tr, capable, id, Allowed(token, tap, person));
    var granted := Entered(c, tr, decided, id, Granted(token, tap, person));
    var consumed := Entered(c, tr, granted, id, Tapped(token, tap, person));
    t := Trail(0, 0, 0, 0, 0, 0, consumed, granted, decided, capable);
    forall j | t.consumed < j <= k ensures id in tr.states[j].calls {
      assert j <= granted ==> At(tr.states[j], id, Tapped(token, tap, person));
      assert granted < j <= decided ==> At(tr.states[j], id, Granted(token, tap, person));
      assert decided < j <= capable ==> At(tr.states[j], id, Allowed(token, tap, person));
      assert capable < j ==> At(tr.states[j], id, Capable(token, tap, person));
    }
  }

  /**
   Whatever the interleaving, a command comes from a tap session issued less than 30 seconds before
   this call consumed it, goes to the Door and does the operation bound at the tap, for a person
   whose passkey answered a ceremony of that tap, after the grant, policy and capability checks.
   */
  lemma {:induction false} DispatchIsAccountedFor(c: Config, tr: Trace, k: nat, id: int, token: Token, tap: TapSession,
                                                  person: Uuid)
    returns (t: Trail)
    requires IsRun(c, tr) && Dispatches(tr, k) && id == tr.events[k].id
    requires At(tr.states[k], id, Capable(token, tap, person))
    ensures InOrder(t, k) && OneCall(tr, t, id, k)
    ensures TapInTime(tr, t, id, token, tap)
    ensures PasskeyAnswered(c, tr, t, id, token, person)
    ensures Checked(tr, t, id, tap, person)
  {
    var o := OperationTrail(c, tr, k, id, token, tap, person);
    var issued := TapWasIssued(c, tr, o.consumed, token);
    var a := AuthenticationTrail(c, tr, o.consumed, id, token, person);
    t := a.(issued := issued, consumed := o.consumed, granted := o.granted, decided := o.decided, capable := o.capable);
    TrailExtends(c, tr, a, t, id, token, person);
  }

  lemma {:induction false} TrailExtends(c: Config, tr: Trace, a: Trail, t: Trail, id: int, token: Token, person: Uuid)
    requires PasskeyAnswered(c, tr, a, id, token, person)
    requires t == a.(issued := t.issued, consumed := t.consumed, granted := t.granted, decided := t.decided,
            capable := t.capable)
    ensures PasskeyAnswered(c, tr, t, id, token, person)
  {
    var ceremony, passkey :| Answered(c, tr, a, id, token, person, ceremony, passkey);
    assert Answered(c, tr, t, id, token, person, ceremony, passkey);
  }

  // ----- one command per tap -----

  lemma {:induction false} ConsumeRemovesTap(c: Config, s: State, e: Event, token: Token)
    requires Ready(c) && e.ConsumeTap? && e.id in s.calls && s.calls[e.id].Authenticated?
            && s.calls[e.id].token == token
    ensures token !in Step(c, s, e).taps.items
  {
  }

  ghost predicate ConsumesTap(tr: Trace, n: nat, token: Token) {
    && n < |tr.events| < |tr.states|
    && tr.events[n].ConsumeTap? && tr.events[n].id in tr.states[n].calls
    && tr.states[n].calls[tr.events[n].id].Authenticated? && tr.states[n].calls[tr.events[n].id].token == token
    && Peeked(tr.states[n].taps, tr.events[n].now, token).Some?
  }

  lemma {:induction false} TapConsumedOnce(c: Config, tr: Trace, m: nat, n: nat, token: Token)
    requires IsRun(c, tr) && FreshTapTokens(tr) && m < n && ConsumesTap(tr, m, token)
    ensures !ConsumesTap(tr, n, token)
  {
    if ConsumesTap(tr, n, token) {
      var i := TapWasIssued(c, tr, m, token);
      assert StepAt(c, tr, m);
      ConsumeRemovesTap(c, tr.states[m], tr.events[m], token);
      assert token !in tr.states[m + 1].taps.items;
      var j := TapWasIssued(c, tr, n, token);
      assert false;
    }
  }

  lemma {:induction false} DispatchEnds(c: Config, tr: Trace, k: nat)
    requires IsRun(c, tr) && Dispatches(tr, k)
    ensures tr.events[k].id !in tr.states[k + 1].calls
  {
    assert StepAt(c, tr, k);
  }

  /** The token of the tap a command rests on. */
  ghost function TokenOf(tr: Trace, k: nat): Token
    requires Dispatches(tr, k)
  {
    tr.states[k].calls[tr.events[k].id].token
  }

  ghost function TapOf(tr: Trace, k: nat): TapSession
    requires Dispatches(tr, k)
  {
    tr.states[k].calls[tr.events[k].id].tap
  }

  lemma {:induction false} DispatchConsumed(c: Config, tr: Trace, k: nat) returns (n: nat)
    requires IsRun(c, tr) && Dispatches(tr, k)
    ensures n < k && ConsumesTap(tr, n, TokenOf(tr, k)) && tr.events[n].id == tr.events[k].id
    ensures forall j :: n < j <= k ==> tr.events[k].id in tr.states[j].calls
    ensures Peeked(tr.states[n].taps, tr.events[n].now, TokenOf(tr, k)) == Some(TapOf(tr, k))
  {
    var call := tr.states[k].calls[tr.events[k].id];
    var t := OperationTrail(c, tr, k, tr.events[k].id, call.token, call.tap, call.person);
    n := t.consumed;
  }

  /** A tap session leads to at most one command. */
  lemma {:induction false} OneDispatchPerTap(c: Config, tr: Trace, k: nat, l: nat)
    requires IsRun(c, tr) && FreshTapTokens(tr) && k < l && Dispatches(tr, k) && Dispatches(tr, l)
    ensures TokenOf(tr, k) != TokenOf(tr, l)
  {
    var m := DispatchConsumed(c, tr, k);
    var n := DispatchConsumed(c, tr, l);
    DispatchEnds(c, tr, k);
    assert m != n;
    if TokenOf(tr, k) == TokenOf(tr, l) {
      TapConsumedOnce(c, tr, if m < n then m else n, if m < n then n else m, TokenOf(tr, k));
      assert false;
    }
  }

  /** Every Door that is no roller Door gets its operation, and a roller Door does unless its state says nothing. */
  lemma {:induction false} TapIsIssuedIff(c: Config, s: State, e: Event)
    requires Ready(c) && e.IssueTap? && e.id in s.calls && Issuing(s.calls[e.id]) && e.token !in s.taps.items
    ensures e.token in Step(c, s, e).taps.items
            <==> e.target.Some?
                 && (e.target.value.profile in {LockProfile, ElectricStrike}
                     || (e.target.value.state.Some? && e.target.value.state != Some((OtherDoorState, OtherLockState))))
  {
  }

  /** What a tap announces, by the Door's profile and its two states. */
  lemma {:induction false} AnnouncedAction(r: Reading)
    requires OperationFor(r).Some?
    ensures var (operation, action) := OperationFor(r).value;
            var roller := r.profile in {GarageCover, GarageToggle};
            var open := r.state.Some? && (r.state.value.0 == DoorOpen || r.state.value.1 in {Unlocked, Unlocking});
            && (action == Close <==> roller && open)
            && (action == Unlock <==> !roller && !(r.profile == LockProfile && r.entryOpens))
            && (operation == LockDoor <==> action == Close)
            && (roller && !open ==> r.state.value.0 == DoorClosed || r.state.value.1 in {Locked, Locking})
  {
  }

  /**
   What is dispatched is what was announced, for the Door as it was read at its tap: a roller Door
   that read open is closed and one that read closed opened, a lock whose entry opens is opened, and
   any other Door is unlocked.
   */
  lemma {:induction false} DispatchMatchesAnnouncement(c: Config, tr: Trace, k: nat) returns (i: nat)
    requires IsRun(c, tr) && Dispatches(tr, k)
    ensures i < k && IssuesTap(tr, i, TokenOf(tr, k), TapOf(tr, k)) && tr.events[i].target.Some?
    ensures TapOf(tr, k).operation == LockDoor <==> TapOf(tr, k).action == Close
    ensures var r := tr.events[i].target.value;
            var roller := r.profile in {GarageCover, GarageToggle};
            var open := r.state.Some? && (r.state.value.0 == DoorOpen || r.state.value.1 in {Unlocked, Unlocking});
            && (TapOf(tr, k).action == Close <==> roller && open)
            && (TapOf(tr, k).action == Open <==> (roller && !open) || (r.profile == LockProfile && r.entryOpens))
            && (roller && !open ==>
                  r.state.Some? && (r.state.value.0 == DoorClosed || r.state.value.1 in {Locked, Locking}))
  {
    var n := DispatchConsumed(c, tr, k);
    i := TapWasIssued(c, tr, n, TokenOf(tr, k));
    AnnouncedAction(tr.events[i].target.value);
  }

  lemma {:induction false} RestartEmpties(c: Config, tr: Trace, n: nat)
    requires IsRun(c, tr) && n < |tr.events| && tr.events[n].Restart?
    ensures tr.states[n + 1] == State(tr.states[n].data, tr.states[n + 1].taps, tr.states[n + 1].ceremonies, map[])
    ensures tr.states[n + 1].taps.items == map[] && tr.states[n + 1].ceremonies.items == map[]
  {
    assert StepAt(c, tr, n);
  }

  /** Nothing under way survives a restart: a command sent after it rests on a tap made after it. */
  lemma {:induction false} RestartEndsTaps(c: Config, tr: Trace, n: nat, k: nat) returns (i: nat)
    requires IsRun(c, tr) && n < k && Dispatches(tr, k) && tr.events[n].Restart?
    ensures n < i < k && IssuesTap(tr, i, TokenOf(tr, k), TapOf(tr, k))
  {
    var consumed := DispatchConsumed(c, tr, k);
    i := TapWasIssued(c, tr, consumed, TokenOf(tr, k));
    RestartEmpties(c, tr, n);
    assert n != consumed && n != i;
  }

  // ----- revocation -----

  ghost predicate Undoes(e: Event, r: Revoked) {
    e.Admin? && Restores(e.m, r)
  }

  lemma {:induction false} KeysMatchThroughout(c: Config, tr: Trace, n: nat)
    requires IsRun(c, tr) && n < |tr.states| && GrantKeysMatch(tr.states[0].data.grants)
    ensures GrantKeysMatch(tr.states[n].data.grants)
  {
    if n > 0 {
      KeysMatchThroughout(c, tr, n - 1);
      assert StepAt(c, tr, n - 1);
      var m, saved := DataStep(c, tr.states[n - 1], tr.events[n - 1]);
      GrantsStep(tr.states[n - 1].data, m, saved);
    }
  }

  lemma {:induction false} BarredAt(c: Config, tr: Trace, n: nat, r: Revoked)
    requires IsRun(c, tr) && n < |tr.events| && Barred(tr.states[n].data, r) && !Undoes(tr.events[n], r)
    ensures Barred(tr.states[n + 1].data, r)
  {
    assert StepAt(c, tr, n);
    var m, saved := DataStep(c, tr.states[n], tr.events[n]);
    if saved { BarredStep(tr.states[n].data, m, saved, r); }
  }

  lemma {:induction false} StaysBarred(c: Config, tr: Trace, i: nat, n: nat, r: Revoked)
    requires IsRun(c, tr) && i <= n < |tr.states| && Barred(tr.states[i].data, r)
    requires forall j :: i <= j < n ==> !Undoes(tr.events[j], r)
    ensures Barred(tr.states[n].data, r)
    decreases n
  {
    if i < n {
      StaysBarred(c, tr, i, n - 1, r);
      BarredAt(c, tr, n - 1, r);
    }
  }

  lemma {:induction false} BarredAfter(c: Config, tr: Trace, n: nat, g: nat, r: Revoked)
    requires IsRun(c, tr) && GrantKeysMatch(tr.states[0].data.grants) && n < g < |tr.states|
    requires tr.events[n] == Admin(Revocation(r), true) && forall j :: n < j < g ==> !Undoes(tr.events[j], r)
    ensures Barred(tr.states[g].data, r)
  {
    KeysMatchThroughout(c, tr, n);
    assert StepAt(c, tr, n);
    RevocationBars(tr.states[n].data, r);
    StaysBarred(c, tr, n + 1, g, r);
  }

  /** The revocation concerns this operation: that Door, or that person at a registered tag. */
  predicate Concerns(r: Revoked, tap: TapSession, person: Uuid) {
    match r
    case RevokedPerson(p) => p == person && !tap.testMode
    case RevokedDoor(door) => door == tap.accessPoint
  }

  /**
   Revoking a person or a Door stops everything still under way: from then on, until something
   restores access, no operation it concerns passes its check, so a command sent later passed that
   check before.
   */
  lemma {:induction false} RevocationStopsOperations(c: Config, tr: Trace, n: nat, k: nat, r: Revoked) returns (g: nat)
    requires IsRun(c, tr) && GrantKeysMatch(tr.states[0].data.grants)
    requires n < k && Dispatches(tr, k) && tr.events[n] == Admin(Revocation(r), true)
    requires Concerns(r, TapOf(tr, k), tr.states[k].calls[tr.events[k].id].person)
    requires forall j :: n < j < k ==> !Undoes(tr.events[j], r)
    ensures g < n && tr.events[g].CheckGrant? && tr.events[g].id == tr.events[k].id
  {
    var call := tr.states[k].calls[tr.events[k].id];
    var t := OperationTrail(c, tr, k, tr.events[k].id, call.token, call.tap, call.person);
    g := t.granted;
    assert g != n;
    if n < g { BarredAfter(c, tr, n, g, r); }
  }

  // ----- counters -----

  /** The `n`th event claims the counter of a tag. */
  ghost predicate Claims(tr: Trace, n: nat, publicId: string, counter: nat) {
    && n < |tr.events| < |tr.states|
    && tr.events[n].ClaimTap? && tr.events[n].saved && tr.events[n].id in tr.states[n].calls
    && tr.states[n].calls[tr.events[n].id].TapVerified?
    && tr.states[n].calls[tr.events[n].id].publicId == publicId
    && tr.states[n].calls[tr.events[n].id].counter == counter
    && Apply(tr.states[n].data, ClaimCounter(publicId, counter)).Ok?
  }

  ghost predicate Forgets(tr: Trace, n: nat, publicId: string) {
    && n < |tr.events| < |tr.states|
    && tr.events[n].Admin? && Resets(tr.states[n].data, tr.events[n].m, publicId)
  }

  /** Steps change the store only by a mutation; taps and ceremonies only claim and record counters. */
  lemma {:induction false} DataStep(c: Config, s: State, e: Event) returns (m: Mutation, saved: bool)
    requires Ready(c)
    ensures Step(c, s, e).data == Committed(s.data, m, saved)
    ensures (e.Admin? && m == e.m && saved == e.saved) || !saved || m.ClaimCounter? || m.UpdateSignCount?
  {
    if e.Admin? {
      m, saved := e.m, e.saved;
    } else if e.ClaimTap? && e.id in s.calls && s.calls[e.id].TapVerified? {
      m, saved := ClaimCounter(s.calls[e.id].publicId, s.calls[e.id].counter), e.saved;
    } else if e.RecordSignCount? && e.id in s.calls && s.calls[e.id].PasskeyVerified? {
      m, saved := UpdateSignCount(s.calls[e.id].passkey.credentialId, s.calls[e.id].signCount), e.saved;
    } else {
      m, saved := ClaimCounter("", 0), false;
    }
  }

  lemma {:induction false} CounterStep(c: Config, tr: Trace, n: nat, publicId: string, counter: nat)
    requires IsRun(c, tr) && n < |tr.events| && CounterAtLeast(tr.states[n].data, publicId, counter)
    requires !Forgets(tr, n, publicId)
    ensures CounterAtLeast(tr.states[n + 1].data, publicId, counter)
  {
    assert StepAt(c, tr, n);
    var m, saved := DataStep(c, tr.states[n], tr.events[n]);
    if saved {
      CounterNeverDrops(tr.states[n].data, m, saved, publicId, counter);
    }
  }

  lemma {:induction false} CounterHolds(c: Config, tr: Trace, i: nat, n: nat, publicId: string, counter: nat)
    requires IsRun(c, tr) && i <= n < |tr.states| && CounterAtLeast(tr.states[i].data, publicId, counter)
    requires forall j :: i <= j < n ==> !Forgets(tr, j, publicId)
    ensures CounterAtLeast(tr.states[n].data, publicId, counter)
    decreases n
  {
    if i < n {
      CounterHolds(c, tr, i, n - 1, publicId, counter);
      CounterStep(c, tr, n - 1, publicId, counter);
    }
  }

  /** Without a reset between them, the counters a tag has accepted strictly increase. */
  lemma {:induction false} CountersIncrease(c: Config, tr: Trace, m: nat, n: nat, publicId: string, first: nat,
                                            second: nat)
    requires IsRun(c, tr) && m < n && Claims(tr, m, publicId, first) && Claims(tr, n, publicId, second)
    requires forall j :: m < j < n ==> !Forgets(tr, j, publicId)
    ensures first < second
  {
    assert StepAt(c, tr, m);
    ClaimAcceptedIff(tr.states[m].data, publicId, first);
    CounterHolds(c, tr, m + 1, n, publicId, first);
    ClaimAcceptedIff(tr.states[n].data, publicId, second);
  }

  /** The claim an issued tap session of a registered tag rests on. */
  lemma {:induction false} IssueClaimed(c: Config, tr: Trace, i: nat, token: Token, tap: TapSession) returns (m: nat)
    requires IsRun(c, tr) && IssuesTap(tr, i, token, tap) && !tap.testMode
    ensures m < i && tap.counter.Some? && Claims(tr, m, tap.publicId, tap.counter.value)
            && tr.events[m].id == tr.events[i].id
    ensures forall j :: m < j <= i ==> tr.events[i].id in tr.states[j].calls
  {
    var id := tr.events[i].id;
    var call := tr.states[i].calls[id];
    m := Entered(c, tr, i, id, call);
    assert tr.states[m].calls[id] == TapVerified(call.publicId, call.accessPoint, call.counter);
    forall j | m < j <= i ensures id in tr.states[j].calls {
      assert At(tr.states[j], id, call);
    }
  }

  lemma {:induction false} IssuesDifferInClaims(c: Config, tr: Trace, i: nat, j: nat, s: Token, t: Token,
                                                tap: TapSession, other: TapSession)
    requires IsRun(c, tr) && i < j && IssuesTap(tr, i, s, tap) && IssuesTap(tr, j, t, other)
    requires !tap.testMode && !other.testMode && tap.publicId == other.publicId
    requires forall n :: 0 <= n < j ==> !Forgets(tr, n, tap.publicId)
    ensures tap.counter != other.counter
  {
    var m := IssueClaimed(c, tr, i, s, tap);
    assert tr.events[i].id !in tr.states[i + 1].calls;
    var n := IssueClaimed(c, tr, j, t, other);
    assert m != n;
    if m < n {
      CountersIncrease(c, tr, m, n, tap.publicId, tap.counter.value, other.counter.value);
    } else {
      CountersIncrease(c, tr, n, m, tap.publicId, other.counter.value, tap.counter.value);
    }
  }

  /**
   While no counter is reset, each counter value of each tag leads to at most one command: two
   commands from registered tags never rest on the same (tag, counter).
   */
  lemma {:induction false} OneDispatchPerCounter(c: Config, tr: Trace, k: nat, l: nat)
    requires IsRun(c, tr) && FreshTapTokens(tr) && k < l && Dispatches(tr, k) && Dispatches(tr, l)
    requires !TapOf(tr, k).testMode && !TapOf(tr, l).testMode
    requires forall n :: 0 <= n < l ==> !Forgets(tr, n, TapOf(tr, k).publicId)
    ensures (TapOf(tr, k).publicId, TapOf(tr, k).counter) != (TapOf(tr, l).publicId, TapOf(tr, l).counter)
  {
    OneDispatchPerTap(c, tr, k, l);
    var m := DispatchConsumed(c, tr, k);
    var n := DispatchConsumed(c, tr, l);
    var i := TapWasIssued(c, tr, m, TokenOf(tr, k));
    var j := TapWasIssued(c, tr, n, TokenOf(tr, l));
    if TapOf(tr, k).publicId == TapOf(tr, l).publicId {
      if i < j {
        IssuesDifferInClaims(c, tr, i, j, TokenOf(tr, k), TokenOf(tr, l), TapOf(tr, k), TapOf(tr, l));
      } else {
        assert i != j;
        IssuesDifferInClaims(c, tr, j, i, TokenOf(tr, l), TokenOf(tr, k), TapOf(tr, l), TapOf(tr, k));
      }
    }
  }

  /** A registered tag's session was issued only after its message verified under its keys. */
  lemma {:induction false} IssuedTapWasVerified(c: Config, tr: Trace, i: nat, token: Token, tap: TapSession)
    returns (v: nat, r: nat)
    requires IsRun(c, tr) && IssuesTap(tr, i, token, tap) && !tap.testMode
    ensures r < v < i && tr.events[v].VerifyTap? && tr.events[v].supports
            && tr.events[r] == BeginTap(tr.events[i].id, tap.publicId)
    ensures tap.publicId in tr.states[r].data.tags && tr.states[r].data.tags[tap.publicId].enabled
    ensures tap.accessPoint == tr.states[r].data.tags[tap.publicId].accessPoint
    ensures tap.counter.Some? && TapVerifies(c, tr.events[v], tr.states[r].data.tags[tap.publicId], tap.counter.value)
  {
    var id := tr.events[i].id;
    var call := tr.states[i].calls[id];
    var m := Entered(c, tr, i, id, call);
    v := Entered(c, tr, m, id, TapVerified(call.publicId, call.accessPoint, call.counter));
    r := Entered(c, tr, v, id, tr.states[v].calls[id]);
  }
}
