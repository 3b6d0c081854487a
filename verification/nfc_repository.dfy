/**
 The NFC access store (nfc/repository.py, nfc/models.py): tags, test tags, passkeys, invitations,
 person-to-Door grants and the audit list. A mutation edits a copy, writes it, and only then makes
 it current, so a refused mutation or a failed write changes nothing.

 A grant's key is the text `person:door` of two fixed-width UUIDs; here it is the pair of them.
 */
module NfcRepository {
  import opened Results
  import Sun

  datatype NfcTag = NfcTag(
    publicId: string, uid: Sun.Bytes, accessPoint: Uuid, metaKey: Uuid, fileKey: Uuid, enabled: bool,
    lastCounter: Option<nat>, createdAt: int, adminKey: Option<Uuid>, writeProtected: bool)

  datatype NfcTestTag = NfcTestTag(tokenHash: string, accessPoint: Uuid, enabled: bool, expiresAt: int, createdAt: int)

  datatype Passkey = Passkey(
    credentialId: string, person: Uuid, publicKey: string, signCount: nat, deviceType: string,
    backedUp: bool, enabled: bool, createdAt: int)

  datatype Grant = Grant(person: Uuid, accessPoint: Uuid, createdAt: int, updatedAt: int)

  datatype GrantKey = GrantKey(person: Uuid, accessPoint: Uuid)

  datatype Invite = Invite(
    tokenHash: string, person: Uuid, personName: string, expiresAt: int, usedAt: Option<int>, createdAt: int)

  datatype Attempt = Attempt(
    occurredAt: int, outcome: string, accessPoint: Uuid, person: Option<Uuid>, reason: string,
    counter: Option<nat>, testMode: bool)

  datatype Data = Data(
    tags: map<string, NfcTag>, testTags: map<string, NfcTestTag>, credentials: map<string, Passkey>,
    invites: map<string, Invite>, grants: map<GrantKey, Grant>, audit: seq<Attempt>)

  datatype RepositoryError =
    | NotFound | WrongDoor | Disabled | Replayed | NoAdminKey | InvalidKey | BadRecord
    | Unusable | AlreadyEnrolled | MovedBackwards | WriteFailed

  const COUNTER_MAX := 0xFFFFFF
  const MAX_AUDIT_RECORDS := 500

  predicate TestTagActive(t: NfcTestTag, now: int) {
    t.enabled && t.expiresAt > now
  }

  predicate InviteActive(i: Invite, now: int) {
    i.usedAt.None? && i.expiresAt > now
  }

  function KeyOf(g: Grant): GrantKey {
    GrantKey(g.person, g.accessPoint)
  }

  predicate GrantKeysMatch(grants: map<GrantKey, Grant>) {
    forall k :: k in grants ==> k == KeyOf(grants[k])
  }

  datatype Mutation =
    | UpsertTag(tag: NfcTag)
    | SetTagEnabled(publicId: string, accessPoint: Uuid, enabled: bool)
    | DeleteTag(publicId: string, accessPoint: Uuid)
    | ClaimCounter(publicId: string, counter: nat)
    | SetTagAdminKey(publicId: string, accessPoint: Uuid, key: Uuid)
    | ConfirmTagWriteProtected(publicId: string, accessPoint: Uuid)
    | ReplaceTestTag(testTag: NfcTestTag)
    | RevokeTestTags(accessPoint: Uuid)
    | CreateInvite(invite: Invite)
    | CompleteEnrollment(tokenHash: string, passkey: Passkey, now: int)
    | ReplaceGrants(person: Uuid, doors: set<Uuid>, now: int)
    | DisablePerson(person: Uuid)
    | DisableDoor(accessPoint: Uuid)
    | UpdateSignCount(credentialId: string, signCount: nat)
    | AppendAudit(attempt: Attempt)

  /** Popping the records a predicate picks. */
  function Dropped<K, V>(records: map<K, V>, p: V -> bool): map<K, V> {
    map k | k in records && !p(records[k]) :: records[k]
  }

  /** Rewriting the records a predicate picks. */
  function Rewritten<K, V>(records: map<K, V>, p: V -> bool, f: V -> V): map<K, V> {
    map k | k in records :: if p(records[k]) then f(records[k]) else records[k]
  }

  /** The registered tag of this Door, or why there is none. */
  function TagAt(d: Data, publicId: string, accessPoint: Uuid): Result<NfcTag, RepositoryError> {
    if publicId !in d.tags then Err(NotFound)
    else if d.tags[publicId].accessPoint != accessPoint then Err(WrongDoor)
    else Ok(d.tags[publicId])
  }

  function PutTag(d: Data, publicId: string, tag: NfcTag): Data {
    d.(tags := d.tags[publicId := tag])
  }

  function OfPerson(person: Uuid): Grant -> bool {
    (g: Grant) => g.person == person
  }

  function AtDoor(accessPoint: Uuid): Grant -> bool {
    (g: Grant) => g.accessPoint == accessPoint
  }

  function InvitesPerson(person: Uuid): Invite -> bool {
    (i: Invite) => i.person == person
  }

  function TestsDoor(accessPoint: Uuid): NfcTestTag -> bool {
    (t: NfcTestTag) => t.accessPoint == accessPoint
  }

  function EnabledOf(person: Uuid): Passkey -> bool {
    (p: Passkey) => p.person == person && p.enabled
  }

  function EnabledAt(accessPoint: Uuid): NfcTag -> bool {
    (t: NfcTag) => t.accessPoint == accessPoint && t.enabled
  }

  function DisabledPasskey(p: Passkey): Passkey {
    p.(enabled := false)
  }

  function DisabledTag(t: NfcTag): NfcTag {
    t.(enabled := false)
  }

  function FirstGranted(grants: map<GrantKey, Grant>, key: GrantKey, now: int): int {
    if key in grants then grants[key].createdAt else now
  }

  function GrantsFor(grants: map<GrantKey, Grant>, person: Uuid, doors: set<Uuid>, now: int): map<GrantKey, Grant> {
    map a | a in doors :: GrantKey(person, a) := Grant(person, a, FirstGranted(grants, GrantKey(person, a), now), now)
  }

  /** A grant record may not be updated before it was created. */
  predicate ClockAllows(grants: map<GrantKey, Grant>, person: Uuid, doors: set<Uuid>, now: int) {
    forall a :: a in doors ==> FirstGranted(grants, GrantKey(person, a), now) <= now
  }

  function KeepLast<T>(s: seq<T>, n: nat): seq<T> {
    if |s| <= n then s else s[|s| - n..]
  }

  /** The data a mutation would make current, or why it is refused. */
  function Apply(d: Data, m: Mutation): Result<Data, RepositoryError> {
    match m
    case UpsertTag(tag) => Ok(PutTag(d, tag.publicId, tag))
    case SetTagEnabled(publicId, accessPoint, enabled) =>
      var tag := TagAt(d, publicId, accessPoint);
      if tag.Err? then Err(tag.error) else Ok(PutTag(d, publicId, tag.value.(enabled := enabled)))
    case DeleteTag(publicId, accessPoint) =>
      var tag := TagAt(d, publicId, accessPoint);
      if tag.Err? then Err(tag.error) else Ok(d.(tags := d.tags - {publicId}))
    case ClaimCounter(publicId, counter) =>
      if publicId !in d.tags then Err(NotFound)
      else
        var tag := d.tags[publicId];
        if !tag.enabled then Err(Disabled)
        else if tag.lastCounter.Some? && counter <= tag.lastCounter.value then Err(Replayed)
        else if counter > COUNTER_MAX then Err(BadRecord)
        else Ok(PutTag(d, publicId, tag.(lastCounter := Some(counter))))
    case SetTagAdminKey(publicId, accessPoint, key) =>
      var tag := TagAt(d, publicId, accessPoint);
      if tag.Err? then Err(tag.error) else Ok(PutTag(d, publicId, tag.value.(adminKey := Some(key))))
    case ConfirmTagWriteProtected(publicId, accessPoint) =>
      var tag := TagAt(d, publicId, accessPoint);
      if tag.Err? then Err(tag.error)
      else if tag.value.adminKey.None? then Err(NoAdminKey)
      else Ok(PutTag(d, publicId, tag.value.(lastCounter := None, writeProtected := true)))
    case ReplaceTestTag(t) =>
      Ok(d.(testTags := Dropped(d.testTags, TestsDoor(t.accessPoint))[t.tokenHash := t]))
    case RevokeTestTags(accessPoint) =>
      Ok(d.(testTags := Dropped(d.testTags, TestsDoor(accessPoint))))
    case CreateInvite(invite) => Ok(d.(invites := d.invites[invite.tokenHash := invite]))
    case CompleteEnrollment(tokenHash, passkey, now) =>
      if tokenHash !in d.invites then Err(NotFound)
      else
        var invite := d.invites[tokenHash];
        if !InviteActive(invite, now) || invite.person != passkey.person then Err(Unusable)
        else if passkey.credentialId in d.credentials then Err(AlreadyEnrolled)
        else Ok(d.(credentials := d.credentials[passkey.credentialId := passkey],
                   invites := d.invites[tokenHash := invite.(usedAt := Some(now))]))
    case ReplaceGrants(person, doors, now) =>
      if !GrantKeysMatch(d.grants) then Err(InvalidKey)
      else if !ClockAllows(d.grants, person, doors, now) then Err(BadRecord)
      else Ok(d.(grants := Dropped(d.grants, OfPerson(person)) + GrantsFor(d.grants, person, doors, now)))
    case DisablePerson(person) =>
      Ok(d.(credentials := Rewritten(d.credentials, EnabledOf(person), DisabledPasskey),
            invites := Dropped(d.invites, InvitesPerson(person)),
            grants := Dropped(d.grants, OfPerson(person))))
    case DisableDoor(accessPoint) =>
      Ok(d.(tags := Rewritten(d.tags, EnabledAt(accessPoint), DisabledTag),
            testTags := Dropped(d.testTags, TestsDoor(accessPoint)),
            grants := Dropped(d.grants, AtDoor(accessPoint))))
    case UpdateSignCount(credentialId, signCount) =>
      if credentialId !in d.credentials then Err(NotFound)
      else if signCount < d.credentials[credentialId].signCount then Err(MovedBackwards)
      else Ok(d.(credentials := d.credentials[credentialId := d.credentials[credentialId].(signCount := signCount)]))
    case AppendAudit(attempt) => Ok(d.(audit := KeepLast(d.audit + [attempt], MAX_AUDIT_RECORDS)))
  }

  /** What is current after a mutation whose write succeeds or fails. */
  function Committed(d: Data, m: Mutation, saved: bool): Data {
    var r := Apply(d, m);
    if saved && r.Ok? then r.value else d
  }

  predicate HasGrant(d: Data, person: Uuid, accessPoint: Uuid) {
    var key := GrantKey(person, accessPoint);
    key in d.grants && d.grants[key].person == person && d.grants[key].accessPoint == accessPoint
  }

  predicate TestTagLive(d: Data, tokenHash: string, accessPoint: Uuid, now: int) {
    tokenHash in d.testTags && d.testTags[tokenHash].accessPoint == accessPoint
        && TestTagActive(d.testTags[tokenHash], now)
  }

  // ----- runs -----

  datatype Commit = Commit(m: Mutation, saved: bool)

  function After(d: Data, commits: seq<Commit>, n: nat): Data
    requires n <= |commits|
  {
    if n == 0 then d else Committed(After(d, commits, n - 1), commits[n - 1].m, commits[n - 1].saved)
  }

  // ----- grants are a set of pairs -----

  /** The same mutations on nothing but a set of (person, Door) pairs. */
  ghost function PairsAfter(pairs: set<GrantKey>, m: Mutation, accepted: bool): set<GrantKey> {
    if !accepted then pairs
    else match m
    case ReplaceGrants(person, doors, _) =>
      (set k | k in pairs && k.person != person) + (set a | a in doors :: GrantKey(person, a))
    case DisablePerson(person) => set k | k in pairs && k.person != person
    case DisableDoor(accessPoint) => set k | k in pairs && k.accessPoint != accessPoint
    case _ => pairs
  }

  lemma {:induction false} ReplacedPairs(grants: map<GrantKey, Grant>, person: Uuid, doors: set<Uuid>, now: int)
    requires GrantKeysMatch(grants)
    ensures var after := Dropped(grants, OfPerson(person)) + GrantsFor(grants, person, doors, now);
            GrantKeysMatch(after)
            && after.Keys
                 == (set k | k in grants.Keys && k.person != person) + (set a | a in doors :: GrantKey(person, a))
  {
  }

  lemma {:induction false} GrantsStep(d: Data, m: Mutation, saved: bool)
    requires GrantKeysMatch(d.grants)
    ensures var after := Committed(d, m, saved);
            GrantKeysMatch(after.grants)
            && after.grants.Keys == PairsAfter(d.grants.Keys, m, saved && Apply(d, m).Ok?)
  {
    if saved && Apply(d, m).Ok? {
      match m
      case ReplaceGrants(person, doors, now) => ReplacedPairs(d.grants, person, doors, now);
      case _ =>
    }
  }

  ghost function PairsAfterRun(d: Data, commits: seq<Commit>, n: nat): set<GrantKey>
    requires n <= |commits|
  {
    if n == 0 then d.grants.Keys
    else
      var c := commits[n - 1];
      PairsAfter(PairsAfterRun(d, commits, n - 1), c.m, c.saved && Apply(After(d, commits, n - 1), c.m).Ok?)
  }

  /** Over every run the keyed dictionary is that set, and `has_access_grant` is membership. */
  lemma {:induction false} GrantsAreASetOfPairs(d: Data, commits: seq<Commit>, n: nat, person: Uuid, accessPoint: Uuid)
    requires n <= |commits| && GrantKeysMatch(d.grants)
    ensures GrantKeysMatch(After(d, commits, n).grants)
    ensures After(d, commits, n).grants.Keys == PairsAfterRun(d, commits, n)
    ensures HasGrant(After(d, commits, n), person, accessPoint)
            <==> GrantKey(person, accessPoint) in PairsAfterRun(d, commits, n)
    decreases n
  {
    if n > 0 {
      GrantsAreASetOfPairs(d, commits, n - 1, person, accessPoint);
      GrantsStep(After(d, commits, n - 1), commits[n - 1].m, commits[n - 1].saved);
    }
  }

  /** A pair that stays keeps the time it was first granted; other people's records are untouched. */
  lemma {:induction false} RetainedPairKeepsCreation(d: Data, m: Mutation, saved: bool, k: GrantKey)
    requires k in d.grants && k in Committed(d, m, saved).grants
    ensures Committed(d, m, saved).grants[k].createdAt == d.grants[k].createdAt
    ensures m.ReplaceGrants? && k.person != m.person && GrantKeysMatch(d.grants) ==>
            Committed(d, m, saved).grants[k] == d.grants[k]
  {
  }

  lemma {:induction false} CreationIsKept(d: Data, commits: seq<Commit>, i: nat, n: nat, k: GrantKey)
    requires i <= n <= |commits|
    requires forall j :: i <= j <= n ==> k in After(d, commits, j).grants
    ensures After(d, commits, n).grants[k].createdAt == After(d, commits, i).grants[k].createdAt
    decreases n
  {
    if i < n {
      CreationIsKept(d, commits, i, n - 1, k);
      assert k in After(d, commits, n - 1).grants && k in After(d, commits, n).grants;
      RetainedPairKeepsCreation(After(d, commits, n - 1), commits[n - 1].m, commits[n - 1].saved, k);
    }
  }

  /** Grants made no later than `now`, with the clock never running back. */
  ghost predicate GrantedBy(grants: map<GrantKey, Grant>, now: int) {
    forall k :: k in grants ==> grants[k].createdAt <= grants[k].updatedAt <= now
  }

  /** A replacement is refused exactly when keys are damaged or the clock is behind a grant it would keep. */
  lemma {:induction false} ReplaceRefusedIff(d: Data, person: Uuid, doors: set<Uuid>, now: int)
    ensures Apply(d, ReplaceGrants(person, doors, now)).Err?
            <==> !GrantKeysMatch(d.grants)
                 || exists a :: a in doors && GrantKey(person, a) in d.grants
                      && d.grants[GrantKey(person, a)].createdAt > now
  {
    if !ClockAllows(d.grants, person, doors, now) {
      var a :| a in doors && FirstGranted(d.grants, GrantKey(person, a), now) > now;
      assert GrantKey(person, a) in d.grants;
    }
    if a :| a in doors && GrantKey(person, a) in d.grants && d.grants[GrantKey(person, a)].createdAt > now {
      assert FirstGranted(d.grants, GrantKey(person, a), now) > now;
    }
  }

  lemma {:induction false} GrantTimesStep(d: Data, m: Mutation, saved: bool, past: int, now: int)
    requires GrantedBy(d.grants, past) && past <= now && (m.ReplaceGrants? ==> m.now == now)
    ensures GrantedBy(Committed(d, m, saved).grants, now)
  {
  }

  /** So with a clock that never runs back no replacement is ever refused. */
  lemma {:induction false} ReplaceNeverRefused(d: Data, commits: seq<Commit>, clock: seq<int>, n: nat)
    requires n < |commits| < |clock|
    requires GrantKeysMatch(d.grants) && GrantedBy(d.grants, clock[0])
    requires forall i :: 0 <= i < |clock| - 1 ==> clock[i] <= clock[i + 1]
    requires forall i :: 0 <= i < |commits| && commits[i].m.ReplaceGrants? ==> commits[i].m.now == clock[i + 1]
    ensures GrantKeysMatch(After(d, commits, n).grants) && GrantedBy(After(d, commits, n).grants, clock[n])
    ensures commits[n].m.ReplaceGrants? ==> Apply(After(d, commits, n), commits[n].m).Ok?
    decreases n
  {
    if n > 0 {
      ReplaceNeverRefused(d, commits, clock, n - 1);
      var before, c := After(d, commits, n - 1), commits[n - 1];
      GrantsStep(before, c.m, c.saved);
      assert clock[n - 1] <= clock[n - 1 + 1];
      GrantTimesStep(before, c.m, c.saved, clock[n - 1], clock[n]);
    }
    if commits[n].m.ReplaceGrants? {
      assert clock[n] <= clock[n + 1];
      var now := After(d, commits, n);
      ReplaceRefusedIff(now, commits[n].m.person, commits[n].m.doors, commits[n].m.now);
    }
  }

  // ----- counters -----

  /** The mutations that forget a tag's counter. */
  predicate Resets(d: Data, m: Mutation, publicId: string) {
    || (m.ConfirmTagWriteProtected? && m.publicId == publicId)
    || (m.DeleteTag? && m.publicId == publicId)
    || (m.UpsertTag? && m.tag.publicId == publicId && publicId in d.tags)
  }

  predicate CounterAtLeast(d: Data, publicId: string, counter: nat) {
    publicId in d.tags && d.tags[publicId].lastCounter.Some? && d.tags[publicId].lastCounter.value >= counter
  }

  /** Apart from those, no mutation lowers a counter. */
  lemma {:induction false} CounterNeverDrops(d: Data, m: Mutation, saved: bool, publicId: string, counter: nat)
    requires CounterAtLeast(d, publicId, counter) && !Resets(d, m, publicId)
    ensures CounterAtLeast(Committed(d, m, saved), publicId, counter)
  {
  }

  /** A claim is accepted exactly when the tag is registered, enabled and the counter is new and in range. */
  lemma {:induction false} ClaimAcceptedIff(d: Data, publicId: string, counter: nat)
    ensures Apply(d, ClaimCounter(publicId, counter)).Ok?
            <==> publicId in d.tags && d.tags[publicId].enabled && counter <= COUNTER_MAX
                 && !CounterAtLeast(d, publicId, counter)
    ensures Apply(d, ClaimCounter(publicId, counter)).Ok? ==>
              Apply(d, ClaimCounter(publicId, counter)).value.tags[publicId].lastCounter == Some(counter)
  {
  }

  /** A confirmed rewrite does forget: the very counter just claimed is accepted once more. */
  lemma {:induction false} ConfirmAllowsReplay(d: Data, publicId: string, counter: nat)
    requires Apply(d, ClaimCounter(publicId, counter)).Ok? && d.tags[publicId].adminKey.Some?
    ensures var claimed := Apply(d, ClaimCounter(publicId, counter)).value;
            Apply(claimed, ClaimCounter(publicId, counter)).Err?
            && Apply(Committed(claimed, ConfirmTagWriteProtected(publicId, d.tags[publicId].accessPoint), true),
                     ClaimCounter(publicId, counter)).Ok?
  {
  }

  // ----- passkeys and invitations -----

  /** A passkey stays its owner's, its signature counter never falls, and disabled it stays disabled. */
  lemma {:induction false} PasskeyStep(d: Data, m: Mutation, saved: bool, id: string)
    requires id in d.credentials
    ensures var after := Committed(d, m, saved);
            id in after.credentials
            && after.credentials[id].person == d.credentials[id].person
            && after.credentials[id].publicKey == d.credentials[id].publicKey
            && after.credentials[id].signCount >= d.credentials[id].signCount
            && (after.credentials[id].enabled ==> d.credentials[id].enabled)
  {
  }

  lemma {:induction false} PasskeysOnlyWeaken(d: Data, commits: seq<Commit>, i: nat, n: nat, id: string)
    requires i <= n <= |commits| && id in After(d, commits, i).credentials
    ensures id in After(d, commits, n).credentials
    ensures var now, then_ := After(d, commits, n).credentials[id], After(d, commits, i).credentials[id];
            now.person == then_.person && now.publicKey == then_.publicKey
            && now.signCount >= then_.signCount && (now.enabled ==> then_.enabled)
    decreases n
  {
    if i < n {
      PasskeysOnlyWeaken(d, commits, i, n - 1, id);
      PasskeyStep(After(d, commits, n - 1), commits[n - 1].m, commits[n - 1].saved, id);
    }
  }

  /** The invitation can no longer be used. */
  predicate Spent(d: Data, tokenHash: string) {
    tokenHash !in d.invites || d.invites[tokenHash].usedAt.Some?
  }

  lemma {:induction false} SpentStep(d: Data, m: Mutation, saved: bool, tokenHash: string)
    requires Spent(d, tokenHash) && !(m.CreateInvite? && m.invite.tokenHash == tokenHash)
    ensures Spent(Committed(d, m, saved), tokenHash)
  {
  }

  ghost predicate Enrols(d: Data, commits: seq<Commit>, n: nat, tokenHash: string)
    requires n < |commits|
  {
    && commits[n].saved && commits[n].m.CompleteEnrollment? && commits[n].m.tokenHash == tokenHash
    && Apply(After(d, commits, n), commits[n].m).Ok?
  }

  lemma {:induction false} StaysSpent(d: Data, commits: seq<Commit>, i: nat, n: nat, tokenHash: string)
    requires i <= n <= |commits| && Spent(After(d, commits, i), tokenHash)
    requires forall j :: i <= j < n ==> !(commits[j].m.CreateInvite? && commits[j].m.invite.tokenHash == tokenHash)
    ensures Spent(After(d, commits, n), tokenHash)
    decreases n
  {
    if i < n {
      StaysSpent(d, commits, i, n - 1, tokenHash);
      SpentStep(After(d, commits, n - 1), commits[n - 1].m, commits[n - 1].saved, tokenHash);
    }
  }

  /** One invitation enrols one passkey. */
  lemma {:induction false} InviteEnrolsOnce(d: Data, commits: seq<Commit>, i: nat, n: nat, tokenHash: string)
    requires i < n < |commits| && Enrols(d, commits, i, tokenHash)
    requires forall j :: i < j < n ==> !(commits[j].m.CreateInvite? && commits[j].m.invite.tokenHash == tokenHash)
    ensures !Enrols(d, commits, n, tokenHash)
  {
    assert Spent(After(d, commits, i + 1), tokenHash);
    StaysSpent(d, commits, i + 1, n, tokenHash);
  }

  /** Revoking a person takes effect at once: no grant, invitation or enabled passkey of theirs is left. */
  lemma {:induction false} PersonRevoked(d: Data, person: Uuid, door: Uuid, k: string)
    requires GrantKeysMatch(d.grants)
    ensures var after := Committed(d, DisablePerson(person), true);
            !HasGrant(after, person, door)
            && (k in after.credentials && after.credentials[k].person == person ==> !after.credentials[k].enabled)
            && (k in after.invites ==> after.invites[k].person != person)
  {
  }

  /** And so does revoking a Door: no grant, live test tag or claimable tag of it is left. */
  lemma {:induction false} DoorRevoked(d: Data, person: Uuid, door: Uuid, k: string, counter: nat, now: int)
    requires GrantKeysMatch(d.grants)
    ensures var after := Committed(d, DisableDoor(door), true);
            !HasGrant(after, person, door)
            && (k in after.tags && after.tags[k].accessPoint == door ==> Apply(after, ClaimCounter(k, counter)).Err?)
            && !TestTagLive(after, k, door, now)
  {
  }

  // ----- revocation holds until it is undone -----

  datatype Revoked = RevokedPerson(person: Uuid) | RevokedDoor(door: Uuid)

  function Revocation(r: Revoked): Mutation {
    match r
    case RevokedPerson(person) => DisablePerson(person)
    case RevokedDoor(door) => DisableDoor(door)
  }

  /** Mutations that can let the person in, or anyone into the Door, again. */
  predicate Restores(m: Mutation, r: Revoked) {
    match r
    case RevokedPerson(person) => m.ReplaceGrants? && m.person == person
    case RevokedDoor(door) =>
      (m.ReplaceGrants? && door in m.doors) || (m.ReplaceTestTag? && m.testTag.accessPoint == door)
  }

  /** No grant for the person; no grant and no test tag for the Door. */
  ghost predicate Barred(d: Data, r: Revoked) {
    GrantKeysMatch(d.grants)
    && match r
       case RevokedPerson(person) => forall k :: k in d.grants ==> k.person != person
       case RevokedDoor(door) =>
         (forall k :: k in d.grants ==> k.accessPoint != door)
         && (forall h :: h in d.testTags ==> d.testTags[h].accessPoint != door)
  }

  lemma {:induction false} RevocationBars(d: Data, r: Revoked)
    requires GrantKeysMatch(d.grants)
    ensures Barred(Committed(d, Revocation(r), true), r)
  {
    GrantsStep(d, Revocation(r), true);
  }

  lemma {:induction false} BarredStep(d: Data, m: Mutation, saved: bool, r: Revoked)
    requires Barred(d, r) && !Restores(m, r)
    ensures Barred(Committed(d, m, saved), r)
  {
    GrantsStep(d, m, saved);
  }

  // ----- test tags and the audit list -----

  /** No Door has two test tags. */
  ghost predicate OneTestTagPerDoor(d: Data) {
    forall h, k :: h in d.testTags && k in d.testTags && d.testTags[h].accessPoint == d.testTags[k].accessPoint ==>
        h == k
  }

  lemma {:induction false} TestTagStep(d: Data, m: Mutation, saved: bool)
    requires OneTestTagPerDoor(d)
    ensures OneTestTagPerDoor(Committed(d, m, saved))
  {
  }

  /** A new test tag replaces the Door's previous one, over every run. */
  lemma {:induction false} TestTagsStaySingle(d: Data, commits: seq<Commit>, n: nat)
    requires n <= |commits| && OneTestTagPerDoor(d)
    ensures OneTestTagPerDoor(After(d, commits, n))
    decreases n
  {
    if n > 0 {
      TestTagsStaySingle(d, commits, n - 1);
      TestTagStep(After(d, commits, n - 1), commits[n - 1].m, commits[n - 1].saved);
    }
  }

  /** The attempts whose record was written, in order. */
  function Attempts(commits: seq<Commit>, n: nat): seq<Attempt>
    requires n <= |commits|
  {
    if n == 0 then []
    else if commits[n - 1].saved && commits[n - 1].m.AppendAudit?
        then Attempts(commits, n - 1) + [commits[n - 1].m.attempt]
    else Attempts(commits, n - 1)
  }

  lemma {:induction false} KeepLastTwice<T>(s: seq<T>, x: T, n: nat)
    requires n > 0
    ensures KeepLast(KeepLast(s, n) + [x], n) == KeepLast(s + [x], n)
  {
  }

  lemma {:induction false} AuditStep(d: Data, m: Mutation, saved: bool)
    ensures Committed(d, m, saved).audit
            == if saved && m.AppendAudit? then KeepLast(d.audit + [m.attempt], MAX_AUDIT_RECORDS) else d.audit
  {
  }

  /** The audit list is always the last 500 attempts recorded, in order. */
  lemma {:induction false} AuditKeepsTheLatest(d: Data, commits: seq<Commit>, n: nat)
    requires n <= |commits| && |d.audit| <= MAX_AUDIT_RECORDS
    ensures var all := d.audit + Attempts(commits, n);
            After(d, commits, n).audit == all[|all| - Min(|all|, 500)..]
  {
    AuditIsKept(d, commits, n);
  }

  lemma {:induction false} AuditIsKept(d: Data, commits: seq<Commit>, n: nat)
    requires n <= |commits| && |d.audit| <= MAX_AUDIT_RECORDS
    ensures After(d, commits, n).audit == KeepLast(d.audit + Attempts(commits, n), MAX_AUDIT_RECORDS)
    decreases n
  {
    if n == 0 {
      AuditAtFirst(d, commits);
    } else {
      AuditIsKept(d, commits, n - 1);
      AuditNext(d, commits, n);
    }
  }

  lemma {:induction false} AuditAtFirst(d: Data, commits: seq<Commit>)
    requires |d.audit| <= MAX_AUDIT_RECORDS
    ensures After(d, commits, 0).audit == KeepLast(d.audit + Attempts(commits, 0), MAX_AUDIT_RECORDS)
  {
    assert d.audit + [] == d.audit;
  }

  lemma {:induction false} AuditNext(d: Data, commits: seq<Commit>, n: nat)
    requires 0 < n <= |commits|
    requires After(d, commits, n - 1).audit == KeepLast(d.audit + Attempts(commits, n - 1), MAX_AUDIT_RECORDS)
    ensures After(d, commits, n).audit == KeepLast(d.audit + Attempts(commits, n), MAX_AUDIT_RECORDS)
  {
    var c, before := commits[n - 1], d.audit + Attempts(commits, n - 1);
    AuditStep(After(d, commits, n - 1), c.m, c.saved);
    if c.saved && c.m.AppendAudit? {
      KeepLastTwice(before, c.m.attempt, MAX_AUDIT_RECORDS);
      AttemptsNext(d.audit, commits, n);
    }
  }

  lemma {:induction false} AttemptsNext(audit: seq<Attempt>, commits: seq<Commit>, n: nat)
    requires 0 < n <= |commits| && commits[n - 1].saved && commits[n - 1].m.AppendAudit?
    ensures audit + Attempts(commits, n) == audit + Attempts(commits, n - 1) + [commits[n - 1].m.attempt]
  {
  }

  // ----- the class -----

  /** The keys a loop over `tuple(records.items())` acts on. */
  function Picked<K, V>(records: map<K, V>, p: V -> bool): set<K> {
    PickedAmong(records.Keys, records, p)
  }

  function PickedAmong<K, V>(keys: set<K>, records: map<K, V>, p: V -> bool): set<K> {
    set k | k in keys && k in records && p(records[k])
  }

  lemma {:induction false} PickedOneMore<K, V>(keys: set<K>, records: map<K, V>, p: V -> bool, key: K)
    requires key in records && key !in keys
    ensures |PickedAmong(keys + {key}, records, p)|
            == |PickedAmong(keys, records, p)| + (if p(records[key]) then 1 else 0)
  {
    var before, after := PickedAmong(keys, records, p), PickedAmong(keys + {key}, records, p);
    if p(records[key]) {
      assert after == before + {key};
    } else {
      assert after == before;
    }
  }

  /** The records with those of `done` already popped. */
  ghost function PoppedSoFar<K, V>(records: map<K, V>, p: V -> bool, done: set<K>): map<K, V> {
    map k | k in records && !(k in done && p(records[k])) :: records[k]
  }

  /** `if p(raw): records.pop(key)`, for every record. */
  method PopWhere<K, V>(records: map<K, V>, p: V -> bool) returns (kept: map<K, V>, popped: nat)
    ensures kept == Dropped(records, p)
    ensures popped == |Picked(records, p)|
    ensures popped == 0 ==> kept == records
  {
    kept, popped := records, 0;
    var done: set<K> := {};
    while done != records.Keys
      invariant done <= records.Keys
      invariant kept == PoppedSoFar(records, p, done)
      invariant popped == |PickedAmong(done, records, p)|
      decreases records.Keys - done
    {
      assert records.Keys - done != {};
      var key :| key in records && key !in done;
      PickedOneMore(done, records, p, key);
      done := done + {key};
      if p(records[key]) { kept, popped := kept - {key}, popped + 1; }
    }
    if popped == 0 { NonePicked(records, p); }
  }

  lemma {:induction false} NonePicked<K, V>(records: map<K, V>, p: V -> bool)
    requires |Picked(records, p)| == 0
    ensures forall k :: k in records ==> !p(records[k])
  {
    assert Picked(records, p) == {};
    forall k | k in records ensures !p(records[k]) {
      assert k !in Picked(records, p);
    }
  }

  ghost function RewrittenSoFar<K, V>(records: map<K, V>, p: V -> bool, f: V -> V, done: set<K>): map<K, V> {
    map k | k in records :: if k in done && p(records[k]) then f(records[k]) else records[k]
  }

  lemma {:induction false} RewrittenOneMore<K, V>(records: map<K, V>, p: V -> bool, f: V -> V, done: set<K>, key: K)
    requires key in records && key !in done
    ensures RewrittenSoFar(records, p, f, done + {key})
            == if p(records[key]) then RewrittenSoFar(records, p, f, done)[key := f(records[key])]
               else RewrittenSoFar(records, p, f, done)
  {
  }

  /** `if p(raw): records[key] = f(raw)`, for every record. */
  method RewriteWhere<K, V>(records: map<K, V>, p: V -> bool, f: V -> V) returns (out: map<K, V>, changed: nat)
    ensures out == Rewritten(records, p, f)
    ensures changed == |Picked(records, p)|
    ensures changed == 0 ==> out == records
  {
    out, changed := records, 0;
    var done: set<K> := {};
    while done != records.Keys
      invariant done <= records.Keys
      invariant out == RewrittenSoFar(records, p, f, done)
      invariant changed == |PickedAmong(done, records, p)|
      decreases records.Keys - done
    {
      assert records.Keys - done != {};
      var key :| key in records && key !in done;
      PickedOneMore(done, records, p, key);
      RewrittenOneMore(records, p, f, done, key);
      done := done + {key};
      if p(records[key]) { out, changed := out[key := f(records[key])], changed + 1; }
    }
    if changed == 0 { NonePicked(records, p); }
  }

  predicate Ascending(s: seq<Uuid>) {
    forall i, j :: 0 <= i < j < |s| ==> s[i] < s[j]
  }

  method Least(doors: set<Uuid>) returns (least: Uuid)
    requires doors != {}
    ensures least in doors && forall a :: a in doors ==> least <= a
  {
    least :| least in doors;
    var rest := doors - {least};
    while rest != {}
      invariant rest <= doors && least in doors
      invariant forall a :: a in doors && a !in rest ==> least <= a
      decreases |rest|
    {
      var a :| a in rest;
      rest := rest - {a};
      if a < least { least := a; }
    }
  }

  method Sorted(doors: set<Uuid>) returns (s: seq<Uuid>)
    ensures Ascending(s) && forall a :: a in s <==> a in doors
  {
    s := [];
    var todo := doors;
    while todo != {}
      invariant todo <= doors && Ascending(s)
      invariant forall a :: a in doors <==> a in s || a in todo
      invariant forall a, b :: a in s && b in todo ==> a < b
      decreases |todo|
    {
      var least := Least(todo);
      forall i | 0 <= i < |s| ensures s[i] < least {
        assert s[i] in s;
      }
      s := s + [least];
      todo := todo - {least};
    }
  }

  class NfcAccessRepository {
    var data: Data
    ghost var writes: nat  // how often the store was asked to write

    constructor (loaded: Data)
      ensures data == loaded && writes == 0
    {
      data, writes := loaded, 0;
    }

    /** `await store.async_save(data)`, which may raise, then `self._data = data`. */
    method Save(updated: Data, saved: bool) returns (r: Result<(), RepositoryError>)
      modifies this
      ensures data == if saved then updated else old(data)
      ensures r == if saved then Ok(()) else Err(WriteFailed)
      ensures writes == old(writes) + 1
    {
      writes := writes + 1;
      if !saved { return Err(WriteFailed); }
      data := updated;
      r := Ok(());
    }

    method GetTag(publicId: string) returns (r: Result<NfcTag, RepositoryError>)
      ensures r == if publicId in data.tags then Ok(data.tags[publicId]) else Err(NotFound)
    {
      r := if publicId in data.tags then Ok(data.tags[publicId]) else Err(NotFound);
    }

    method ClaimCounter(publicId: string, counter: nat, saved: bool) returns (r: Result<NfcTag, RepositoryError>)
      modifies this
      ensures data == Committed(old(data), Mutation.ClaimCounter(publicId, counter), saved)
      ensures r.Ok? <==> saved && Apply(old(data), Mutation.ClaimCounter(publicId, counter)).Ok?
      ensures r.Ok? ==> r.value == data.tags[publicId] == old(data).tags[publicId].(lastCounter := Some(counter))
    {
      if publicId !in data.tags { return Err(NotFound); }
      var tag := data.tags[publicId];
      if !tag.enabled { return Err(Disabled); }
      if tag.lastCounter.Some? && counter <= tag.lastCounter.value { return Err(Replayed); }
      if counter > COUNTER_MAX { return Err(BadRecord); }
      var updated := tag.(lastCounter := Some(counter));
      var write := Save(PutTag(data, publicId, updated), saved);
      r := if write.Ok? then Ok(updated) else Err(write.error);
    }

    method SetTagEnabled(publicId: string, accessPoint: Uuid, enabled: bool, saved: bool)
      returns (r: Result<NfcTag, RepositoryError>)
      modifies this
      ensures data == Committed(old(data), Mutation.SetTagEnabled(publicId, accessPoint, enabled), saved)
      ensures r.Ok? <==> saved && Apply(old(data), Mutation.SetTagEnabled(publicId, accessPoint, enabled)).Ok?
      ensures r.Ok? ==> r.value == data.tags[publicId] == old(data).tags[publicId].(enabled := enabled)
    {
      var tag := TagAt(data, publicId, accessPoint);
      if tag.Err? { return tag; }
      var updated := tag.value.(enabled := enabled);
      var write := Save(PutTag(data, publicId, updated), saved);
      r := if write.Ok? then Ok(updated) else Err(write.error);
    }

    method ConfirmTagWriteProtected(publicId: string, accessPoint: Uuid, saved: bool)
      returns (r: Result<NfcTag, RepositoryError>)
      modifies this
      ensures data == Committed(old(data), Mutation.ConfirmTagWriteProtected(publicId, accessPoint), saved)
      ensures r.Ok? <==> saved && Apply(old(data), Mutation.ConfirmTagWriteProtected(publicId, accessPoint)).Ok?
      ensures r.Ok? ==> r.value == data.tags[publicId]
      ensures r.Ok? ==> r.value == old(data).tags[publicId].(lastCounter := None, writeProtected := true)
    {
      var tag := TagAt(data, publicId, accessPoint);
      if tag.Err? { return tag; }
      if tag.value.adminKey.None? { return Err(NoAdminKey); }
      var updated := tag.value.(lastCounter := None, writeProtected := true);
      var write := Save(PutTag(data, publicId, updated), saved);
      r := if write.Ok? then Ok(updated) else Err(write.error);
    }

    method CompleteEnrollment(tokenHash: string, passkey: Passkey, now: int, saved: bool)
      returns (r: Result<(), RepositoryError>)
      modifies this
      ensures data == Committed(old(data), Mutation.CompleteEnrollment(tokenHash, passkey, now), saved)
      ensures r.Ok? <==> saved && Apply(old(data), Mutation.CompleteEnrollment(tokenHash, passkey, now)).Ok?
    {
      if tokenHash !in data.invites { return Err(NotFound); }
      var invite := data.invites[tokenHash];
      if !InviteActive(invite, now) || invite.person != passkey.person { return Err(Unusable); }
      if passkey.credentialId in data.credentials { return Err(AlreadyEnrolled); }
      var updated := data.(credentials := data.credentials[passkey.credentialId := passkey]);
      r := Save(updated.(invites := data.invites[tokenHash := invite.(usedAt := Some(now))]), saved);
    }

    method GetCredential(credentialId: string) returns (r: Result<Passkey, RepositoryError>)
      ensures r == if credentialId !in data.credentials then Err(NotFound)
                   else if !data.credentials[credentialId].enabled then Err(Disabled)
                   else Ok(data.credentials[credentialId])
    {
      if credentialId !in data.credentials { return Err(NotFound); }
      if !data.credentials[credentialId].enabled { return Err(Disabled); }
      r := Ok(data.credentials[credentialId]);
    }

    method UpdateSignCount(credentialId: string, signCount: nat, saved: bool) returns (r: Result<(), RepositoryError>)
      modifies this
      ensures data == Committed(old(data), Mutation.UpdateSignCount(credentialId, signCount), saved)
      ensures r.Ok? <==> saved && Apply(old(data), Mutation.UpdateSignCount(credentialId, signCount)).Ok?
    {
      if credentialId !in data.credentials { return Err(NotFound); }
      var item := data.credentials[credentialId];
      if signCount < item.signCount { return Err(MovedBackwards); }
      r := Save(data.(credentials := data.credentials[credentialId := item.(signCount := signCount)]), saved);
    }

    method HasAccessGrant(person: Uuid, accessPoint: Uuid) returns (granted: bool)
      ensures granted <==> HasGrant(data, person, accessPoint)
    {
      var key := GrantKey(person, accessPoint);
      if key !in data.grants { return false; }
      var grant := data.grants[key];
      granted := grant.person == person && grant.accessPoint == accessPoint;
    }

    method TestTagHashIsActive(tokenHash: string, accessPoint: Uuid, now: int) returns (active: bool)
      ensures active <==> TestTagLive(data, tokenHash, accessPoint, now)
    {
      if tokenHash !in data.testTags { return false; }
      var tag := data.testTags[tokenHash];
      active := tag.accessPoint == accessPoint && TestTagActive(tag, now);
    }

    /** The person's own grants are popped, then one is written for each Door, in order of id. */
    method ReplaceAccessGrantsForPerson(person: Uuid, doors: set<Uuid>, now: int, saved: bool)
      returns (r: Result<seq<Grant>, RepositoryError>)
      modifies this
      ensures data == Committed(old(data), ReplaceGrants(person, doors, now), saved)
      ensures r.Ok? <==> saved && Apply(old(data), ReplaceGrants(person, doors, now)).Ok?
      ensures r.Ok? ==> Ascending(DoorsOf(r.value)) && ByKey(r.value) == GrantsFor(old(data).grants, person, doors, now)
    {
      var built := BuildReplacement(data.grants, person, doors, now);
      if built.Err? { return Err(built.error); }
      var write := Save(data.(grants := built.value.0), saved);
      r := if write.Ok? then Ok(built.value.1) else Err(write.error);
    }

    /** Nothing is written when nothing changed. */
    method DisableCredentialsForPerson(person: Uuid, saved: bool) returns (r: Result<nat, RepositoryError>)
      modifies this
      ensures data == Committed(old(data), DisablePerson(person), saved)
      ensures var picked := |Picked(old(data).credentials, EnabledOf(person))|
                    + |Picked(old(data).invites, InvitesPerson(person))| + |Picked(old(data).grants, OfPerson(person))|;
              writes == old(writes) + (if picked == 0 then 0 else 1)
              && r == (if picked == 0 || saved then Ok(picked) else Err(WriteFailed))
      ensures r.Ok? ==> data == Apply(old(data), DisablePerson(person)).value
    {
      var credentials, disabled := RewriteWhere(data.credentials, EnabledOf(person), DisabledPasskey);
      var invites, dropped := PopWhere(data.invites, InvitesPerson(person));
      var grants, revoked := PopWhere(data.grants, OfPerson(person));
      var changed := disabled + dropped + revoked;
      if changed == 0 { return Ok(0); }
      var write := Save(data.(credentials := credentials, invites := invites, grants := grants), saved);
      r := if write.Ok? then Ok(changed) else Err(write.error);
    }

    method DisableTagsForAccessPoint(accessPoint: Uuid, saved: bool) returns (r: Result<nat, RepositoryError>)
      modifies this
      ensures data == Committed(old(data), DisableDoor(accessPoint), saved)
      ensures var picked := |Picked(old(data).tags, EnabledAt(accessPoint))|
                    + |Picked(old(data).testTags, TestsDoor(accessPoint))|
                        + |Picked(old(data).grants, AtDoor(accessPoint))|;
              writes == old(writes) + (if picked == 0 then 0 else 1)
              && r == (if picked == 0 || saved then Ok(picked) else Err(WriteFailed))
      ensures r.Ok? ==> data == Apply(old(data), DisableDoor(accessPoint)).value
    {
      var tags, disabled := RewriteWhere(data.tags, EnabledAt(accessPoint), DisabledTag);
      var testTags, dropped := PopWhere(data.testTags, TestsDoor(accessPoint));
      var grants, revoked := PopWhere(data.grants, AtDoor(accessPoint));
      var changed := disabled + dropped + revoked;
      if changed == 0 { return Ok(0); }
      var write := Save(data.(tags := tags, testTags := testTags, grants := grants), saved);
      r := if write.Ok? then Ok(changed) else Err(write.error);
    }

    method ReplaceTestTag(tag: NfcTestTag, saved: bool) returns (r: Result<(), RepositoryError>)
      modifies this
      ensures data == Committed(old(data), Mutation.ReplaceTestTag(tag), saved)
      ensures r.Ok? <==> saved
    {
      var testTags, dropped := PopWhere(data.testTags, TestsDoor(tag.accessPoint));
      r := Save(data.(testTags := testTags[tag.tokenHash := tag]), saved);
    }

    method AppendAudit(attempt: Attempt, saved: bool) returns (r: Result<(), RepositoryError>)
      modifies this
      ensures data == Committed(old(data), Mutation.AppendAudit(attempt), saved)
      ensures r.Ok? <==> saved
    {
      var audit := data.audit + [attempt];
      if |audit| > MAX_AUDIT_RECORDS { audit := audit[|audit| - MAX_AUDIT_RECORDS..]; }
      r := Save(data.(audit := audit), saved);
    }
  }

  function DoorsOf(grants: seq<Grant>): seq<Uuid> {
    seq(|grants|, i requires 0 <= i < |grants| => grants[i].accessPoint)
  }

  /** The first loop: every key is checked, and the person's records come out. */
  method PopGrants(before: map<GrantKey, Grant>, person: Uuid)
    returns (r: Result<(map<GrantKey, Grant>, map<Uuid, Grant>), RepositoryError>)
    ensures r.Ok? <==> GrantKeysMatch(before)
    ensures r.Err? ==> r.error == InvalidKey
    ensures r.Ok? ==> r.value.0 == Dropped(before, OfPerson(person))
    ensures r.Ok? ==> ExistingOf(before, person, r.value.1)
  {
    var records := before;
    var existing: map<Uuid, Grant> := map[];
    var todo := before.Keys;
    while todo != {}
      invariant todo <= before.Keys
      invariant forall k :: k in before && k !in todo ==> k == KeyOf(before[k])
      invariant records == map k | k in before && (k in todo || before[k].person != person) :: before[k]
      invariant forall a :: a in existing <==> GrantKey(person, a) in before.Keys - todo
      invariant forall a :: a in existing ==> existing[a] == before[GrantKey(person, a)]
      decreases |todo|
    {
      var key :| key in todo;
      var grant := before[key];
      if key != KeyOf(grant) { return Err(InvalidKey); }
      todo := todo - {key};
      if grant.person == person {
        existing := existing[grant.accessPoint := grant];
        records := records - {key};
      }
    }
    r := Ok((records, existing));
  }

  ghost predicate ExistingOf(before: map<GrantKey, Grant>, person: Uuid, existing: map<Uuid, Grant>) {
    && (forall a :: a in existing <==> GrantKey(person, a) in before)
    && (forall a :: a in existing ==> existing[a] == before[GrantKey(person, a)])
  }

  ghost predicate BuiltFor(before: map<GrantKey, Grant>, person: Uuid, order: seq<Uuid>, now: int, grants: seq<Grant>) {
    && |grants| <= |order|
    && forall j :: 0 <= j < |grants| ==>
         grants[j] == Grant(person, order[j], FirstGranted(before, GrantKey(person, order[j]), now), now)
         && grants[j].createdAt <= now
  }

  /** The second loop: one record for each Door, keeping the creation time of a retained one. */
  method BuildGrants(ghost before: map<GrantKey, Grant>, existing: map<Uuid, Grant>, person: Uuid, order: seq<Uuid>,
                     now: int)
    returns (r: Result<seq<Grant>, RepositoryError>)
    requires ExistingOf(before, person, existing)
    ensures r.Ok? ==> |r.value| == |order| && BuiltFor(before, person, order, now, r.value)
    ensures r.Err? ==> exists i :: 0 <= i < |order| && FirstGranted(before, GrantKey(person, order[i]), now) > now
  {
    var updated: seq<Grant> := [];
    for i := 0 to |order|
      invariant |updated| == i && BuiltFor(before, person, order, now, updated)
    {
      var created := if order[i] in existing then existing[order[i]].createdAt else now;
      if now < created { return Err(BadRecord); }
      updated := updated + [Grant(person, order[i], created, now)];
    }
    r := Ok(updated);
  }

  method BuildReplacement(before: map<GrantKey, Grant>, person: Uuid, doors: set<Uuid>, now: int)
    returns (r: Result<(map<GrantKey, Grant>, seq<Grant>), RepositoryError>)
    ensures r.Ok? <==> GrantKeysMatch(before) && ClockAllows(before, person, doors, now)
    ensures r.Ok? ==> r.value.0 == Dropped(before, OfPerson(person)) + GrantsFor(before, person, doors, now)
    ensures r.Ok? ==> Ascending(DoorsOf(r.value.1)) && ByKey(r.value.1) == GrantsFor(before, person, doors, now)
  {
    var popped := PopGrants(before, person);
    if popped.Err? { return Err(popped.error); }
    var (records, existing) := popped.value;
    var order := Sorted(doors);
    var updated := BuildGrants(before, existing, person, order, now);
    if updated.Err? {
      BuildRefused(before, person, doors, order, now);
      return Err(updated.error);
    }
    GrantsWritten(before, person, doors, now, order, updated.value);
    var all := WriteGrants(records, updated.value);
    r := Ok((all, updated.value));
  }

  lemma {:induction false} BuildRefused(before: map<GrantKey, Grant>, person: Uuid, doors: set<Uuid>, order: seq<Uuid>,
                                        now: int)
    requires forall a :: a in order <==> a in doors
    requires exists i :: 0 <= i < |order| && FirstGranted(before, GrantKey(person, order[i]), now) > now
    ensures !ClockAllows(before, person, doors, now)
  {
    var i :| 0 <= i < |order| && FirstGranted(before, GrantKey(person, order[i]), now) > now;
    assert order[i] in doors;
  }

  /** The last loop: each updated grant is written under its key. */
  method WriteGrants(records: map<GrantKey, Grant>, updated: seq<Grant>) returns (all: map<GrantKey, Grant>)
    ensures all == records + ByKey(updated)
  {
    all := records;
    for i := 0 to |updated|
      invariant all == records + ByKey(updated[..i])
    {
      assert updated[..i + 1][..i] == updated[..i];
      all := all[KeyOf(updated[i]) := updated[i]];
    }
    assert updated[..|updated|] == updated;
  }

  function ByKey(grants: seq<Grant>): map<GrantKey, Grant> {
    if grants == [] then map[]
    else ByKey(grants[..|grants| - 1])[KeyOf(grants[|grants| - 1]) := grants[|grants| - 1]]
  }

  lemma {:induction false} ByKeyFacts(grants: seq<Grant>)
    requires forall i, j :: 0 <= i < j < |grants| ==> KeyOf(grants[i]) != KeyOf(grants[j])
    ensures forall k :: k in ByKey(grants) ==> ByKey(grants)[k] in grants && KeyOf(ByKey(grants)[k]) == k
    ensures forall g :: g in grants ==> KeyOf(g) in ByKey(grants) && ByKey(grants)[KeyOf(g)] == g
    decreases |grants|
  {
    if grants != [] {
      var front, last := grants[..|grants| - 1], grants[|grants| - 1];
      assert grants == front + [last];
      ByKeyFacts(front);
      forall g | g in front ensures KeyOf(g) != KeyOf(last) {
        var i :| 0 <= i < |front| && front[i] == g;
      }
    }
  }

  /** One Door's record, and which of the written ones it is. */
  lemma {:induction false} GrantWrittenFor(before: map<GrantKey, Grant>, person: Uuid, doors: set<Uuid>, now: int,
                                           order: seq<Uuid>, updated: seq<Grant>, door: Uuid)
    requires Ascending(order) && (forall a :: a in order <==> a in doors) && door in doors
    requires |updated| == |order| && BuiltFor(before, person, order, now, updated)
    ensures FirstGranted(before, GrantKey(person, door), now) <= now
    ensures GrantKey(person, door) in ByKey(updated)
    ensures ByKey(updated)[GrantKey(person, door)]
            == Grant(person, door, FirstGranted(before, GrantKey(person, door), now), now)
  {
    var j :| 0 <= j < |order| && order[j] == door;
    KeysDiffer(before, person, order, now, updated);
    ByKeyFacts(updated);
    assert updated[j] in updated;
  }

  lemma {:induction false} KeysDiffer(before: map<GrantKey, Grant>, person: Uuid, order: seq<Uuid>, now: int,
                                      updated: seq<Grant>)
    requires Ascending(order) && |updated| == |order| && BuiltFor(before, person, order, now, updated)
    ensures forall i, j :: 0 <= i < j < |updated| ==> KeyOf(updated[i]) != KeyOf(updated[j])
  {
  }

  lemma {:induction false} NothingElseWritten(before: map<GrantKey, Grant>, person: Uuid, doors: set<Uuid>, now: int,
                                              order: seq<Uuid>, updated: seq<Grant>, k: GrantKey)
    requires Ascending(order) && (forall a :: a in order <==> a in doors)
    requires |updated| == |order| && BuiltFor(before, person, order, now, updated) && k in ByKey(updated)
    ensures k.person == person && k.accessPoint in doors
  {
    KeysDiffer(before, person, order, now, updated);
    ByKeyFacts(updated);
    var j :| 0 <= j < |updated| && updated[j] == ByKey(updated)[k];
    assert order[j] in doors;
  }

  lemma {:induction false} GrantsWritten(before: map<GrantKey, Grant>, person: Uuid, doors: set<Uuid>, now: int,
                                         order: seq<Uuid>, updated: seq<Grant>)
    requires Ascending(order) && (forall a :: a in order <==> a in doors)
    requires |updated| == |order| && BuiltFor(before, person, order, now, updated)
    ensures ClockAllows(before, person, doors, now)
    ensures ByKey(updated) == GrantsFor(before, person, doors, now)
    ensures DoorsOf(updated) == order
  {
    var written, wanted := ByKey(updated), GrantsFor(before, person, doors, now);
    forall a | a in doors
      ensures FirstGranted(before, GrantKey(person, a), now) <= now
      ensures GrantKey(person, a) in written && written[GrantKey(person, a)] == wanted[GrantKey(person, a)]
    {
      GrantWrittenFor(before, person, doors, now, order, updated, a);
    }
    forall k | k in written ensures k in wanted {
      NothingElseWritten(before, person, doors, now, order, updated, k);
    }
  }
}
