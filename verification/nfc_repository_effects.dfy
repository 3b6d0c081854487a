/**
 What each mutation of the NFC store (nfc/repository.py) does to each record, told from the record's
 side: which mutations change a field and to what, everything else staying as it was. Where the
 module NfcRepository proves bounds, these are exact.
 */
module NfcRepositoryEffects {
  import opened Results
  import opened NfcRepository

  // ----- counters -----

  /** Once `used` is accepted, exactly the higher counters in range are: no tag is worn out by a tap. */
  lemma {:induction false} ClaimMovesTheBound(d: Data, publicId: string, used: nat, counter: nat)
    requires Apply(d, ClaimCounter(publicId, used)).Ok?
    ensures var after := Apply(d, ClaimCounter(publicId, used)).value;
            (Apply(after, ClaimCounter(publicId, counter)).Ok? <==> used < counter <= COUNTER_MAX)
            && (Apply(after, ClaimCounter(publicId, counter)) == Err(Replayed) <==> counter <= used)
  {
  }

  /** Why a claim is refused, in the order in which it is checked. */
  lemma {:induction false} ClaimRefusedBecause(d: Data, publicId: string, counter: nat)
    ensures var r := Apply(d, ClaimCounter(publicId, counter));
            && (r == Err(NotFound) <==> publicId !in d.tags)
            && (r == Err(Disabled) <==> publicId in d.tags && !d.tags[publicId].enabled)
            && (r == Err(Replayed) <==>
                  publicId in d.tags && d.tags[publicId].enabled && CounterAtLeast(d, publicId, counter))
            && (r.Err? ==> r.error in {NotFound, Disabled, Replayed, BadRecord})
  {
  }

  /** The commit claims this counter of the tag, or a higher one. */
  ghost predicate ClaimsAtLeast(d: Data, commits: seq<Commit>, j: nat, publicId: string, counter: nat)
    requires j < |commits|
  {
    && commits[j].saved && commits[j].m.ClaimCounter? && commits[j].m.publicId == publicId
    && counter <= commits[j].m.counter
    && Apply(After(d, commits, j), commits[j].m).Ok?
  }

  ghost predicate ResetsAt(d: Data, commits: seq<Commit>, j: nat, publicId: string)
    requires j < |commits|
  {
    commits[j].saved && Resets(After(d, commits, j), commits[j].m, publicId)
  }

  ghost predicate ClaimedSince(d: Data, commits: seq<Commit>, n: nat, publicId: string, counter: nat)
    requires n <= |commits|
  {
    exists j :: 0 <= j < n && ClaimsAtLeast(d, commits, j, publicId, counter)
  }

  lemma {:induction false} CounterStepExact(d: Data, m: Mutation, saved: bool, publicId: string, counter: nat)
    requires publicId in d.tags && !(saved && Resets(d, m, publicId))
    ensures publicId in Committed(d, m, saved).tags
    ensures CounterAtLeast(Committed(d, m, saved), publicId, counter)
            <==> CounterAtLeast(d, publicId, counter)
                 || (saved && m.ClaimCounter? && m.publicId == publicId && counter <= m.counter && Apply(d, m).Ok?)
  {
  }

  /** While a tag is not reset, what it remembers is what it started with and what it has accepted since. */
  lemma {:induction false} RememberedIffClaimed(d: Data, commits: seq<Commit>, n: nat, publicId: string, counter: nat)
    requires n <= |commits| && publicId in d.tags
    requires forall j :: 0 <= j < n ==> !ResetsAt(d, commits, j, publicId)
    ensures publicId in After(d, commits, n).tags
    ensures CounterAtLeast(After(d, commits, n), publicId, counter)
            <==> CounterAtLeast(d, publicId, counter) || ClaimedSince(d, commits, n, publicId, counter)
    decreases n
  {
    if n > 0 {
      RememberedIffClaimed(d, commits, n - 1, publicId, counter);
      assert !ResetsAt(d, commits, n - 1, publicId);
      CounterStepExact(After(d, commits, n - 1), commits[n - 1].m, commits[n - 1].saved, publicId, counter);
      assert ClaimedSince(d, commits, n, publicId, counter)
        <==> ClaimedSince(d, commits, n - 1, publicId, counter)
             || ClaimsAtLeast(d, commits, n - 1, publicId, counter);
    }
  }

  /**
   So over any run without a reset a counter in range is refused as a replay exactly when it, or a
   higher one, was remembered at the start or has been accepted since; otherwise it is accepted.
   */
  lemma {:induction false} ReplayedIffClaimed(d: Data, commits: seq<Commit>, n: nat, publicId: string, counter: nat)
    requires n <= |commits| && publicId in d.tags && counter <= COUNTER_MAX
    requires forall j :: 0 <= j < n ==> !ResetsAt(d, commits, j, publicId)
    ensures publicId in After(d, commits, n).tags
    ensures var r := Apply(After(d, commits, n), ClaimCounter(publicId, counter));
            var used := CounterAtLeast(d, publicId, counter) || ClaimedSince(d, commits, n, publicId, counter);
            After(d, commits, n).tags[publicId].enabled ==> (r == Err(Replayed) <==> used) && (r.Ok? <==> !used)
  {
    RememberedIffClaimed(d, commits, n, publicId, counter);
  }

  // ----- tags -----

  /** An accepted claim of this tag, in terms of the tag itself. */
  predicate Claimed(tag: NfcTag, m: Mutation, saved: bool, id: string) {
    && saved && m.ClaimCounter? && m.publicId == id && tag.enabled && m.counter <= COUNTER_MAX
    && (tag.lastCounter.None? || tag.lastCounter.value < m.counter)
  }

  /** A tag leaves the store only by a deletion for its own Door. */
  lemma {:induction false} TagLeaves(d: Data, m: Mutation, saved: bool, id: string)
    requires id in d.tags
    ensures id !in Committed(d, m, saved).tags <==> saved && m == DeleteTag(id, d.tags[id].accessPoint)
  {
  }

  /** While it is not registered anew, only four of its fields change. */
  lemma {:induction false} TagKept(d: Data, m: Mutation, saved: bool, id: string)
    requires id in d.tags && id in Committed(d, m, saved).tags && !(m.UpsertTag? && m.tag.publicId == id)
    ensures SameButState(d.tags[id], Committed(d, m, saved).tags[id])
  {
  }

  predicate SameButState(was: NfcTag, now: NfcTag) {
    now == was.(enabled := now.enabled, adminKey := now.adminKey, writeProtected := now.writeProtected,
                lastCounter := now.lastCounter)
  }

  /** It is switched on and off by name, and off with its Door. */
  lemma {:induction false} TagSwitched(d: Data, m: Mutation, saved: bool, id: string)
    requires id in d.tags && id in Committed(d, m, saved).tags && !(m.UpsertTag? && m.tag.publicId == id)
    ensures var was := d.tags[id];
            Committed(d, m, saved).tags[id].enabled <==>
              if saved && m.SetTagEnabled? && m.publicId == id && m.accessPoint == was.accessPoint then m.enabled
              else was.enabled && !(saved && m == DisableDoor(was.accessPoint))
  {
  }

  /** Its administrator key is the last one attached. */
  lemma {:induction false} TagKeyed(d: Data, m: Mutation, saved: bool, id: string)
    requires id in d.tags && id in Committed(d, m, saved).tags && !(m.UpsertTag? && m.tag.publicId == id)
    ensures var was := d.tags[id];
            Committed(d, m, saved).tags[id].adminKey ==
              if saved && m.SetTagAdminKey? && m.publicId == id && m.accessPoint == was.accessPoint then Some(m.key)
              else was.adminKey
  {
  }

  /** It is write-protected from the first confirmation on, which needs such a key. */
  lemma {:induction false} TagProtected(d: Data, m: Mutation, saved: bool, id: string)
    requires id in d.tags && id in Committed(d, m, saved).tags && !(m.UpsertTag? && m.tag.publicId == id)
    ensures Committed(d, m, saved).tags[id].writeProtected
            <==> d.tags[id].writeProtected || Confirmed(d.tags[id], m, saved, id)
  {
  }

  predicate Confirmed(tag: NfcTag, m: Mutation, saved: bool, id: string) {
    saved && m == ConfirmTagWriteProtected(id, tag.accessPoint) && tag.adminKey.Some?
  }

  /** Its counter is the last one accepted since its last confirmation. */
  lemma {:induction false} TagCounted(d: Data, m: Mutation, saved: bool, id: string)
    requires id in d.tags && id in Committed(d, m, saved).tags && !(m.UpsertTag? && m.tag.publicId == id)
    ensures var was := d.tags[id];
            Committed(d, m, saved).tags[id].lastCounter ==
              if Confirmed(was, m, saved, id) then None
              else if Claimed(was, m, saved, id) then Some(m.counter)
              else was.lastCounter
  {
  }

  lemma {:induction false} TagRegistered(d: Data, m: Mutation, saved: bool, id: string)
    requires id !in d.tags || (m.UpsertTag? && m.tag.publicId == id)
    ensures var after := Committed(d, m, saved);
            if saved && m.UpsertTag? && m.tag.publicId == id then id in after.tags && after.tags[id] == m.tag
            else (id in after.tags <==> id in d.tags) && (id in d.tags ==> after.tags[id] == d.tags[id])
  {
  }

  /** Why an administrative change of a tag is refused. */
  lemma {:induction false} TagRefusedBecause(d: Data, m: Mutation)
    requires m.SetTagEnabled? || m.DeleteTag? || m.SetTagAdminKey? || m.ConfirmTagWriteProtected?
    ensures var r := Apply(d, m);
            && (r == Err(NotFound) <==> m.publicId !in d.tags)
            && (r == Err(WrongDoor) <==> m.publicId in d.tags && d.tags[m.publicId].accessPoint != m.accessPoint)
            && (r == Err(NoAdminKey) <==>
                  m.ConfirmTagWriteProtected? && m.publicId in d.tags
                  && d.tags[m.publicId].accessPoint == m.accessPoint && d.tags[m.publicId].adminKey.None?)
            && (r.Err? ==> r.error in {NotFound, WrongDoor, NoAdminKey})
  {
  }

  // ----- test tags -----

  /** Which token opens a Door in test mode: the last one made for it, unexpired and not revoked. */
  lemma {:induction false} TestTagStepExact(d: Data, m: Mutation, saved: bool, h: string, door: Uuid, now: int)
    ensures TestTagLive(Committed(d, m, saved), h, door, now) <==>
              if saved && m.ReplaceTestTag? && m.testTag.tokenHash == h
              then m.testTag.accessPoint == door && m.testTag.enabled && now < m.testTag.expiresAt
              else TestTagLive(d, h, door, now)
                   && !(saved && m.ReplaceTestTag? && m.testTag.accessPoint == door)
                   && !(saved && (m == RevokeTestTags(door) || m == DisableDoor(door)))
  {
  }

  // ----- invitations and passkeys -----

  /** The invitation is unused, unexpired and this person's. */
  predicate Invites(d: Data, h: string, person: Uuid, now: int) {
    h in d.invites && d.invites[h].usedAt == None && now < d.invites[h].expiresAt && d.invites[h].person == person
  }

  /** Enrolment takes a live invitation of the same person and a credential id not yet in use. */
  lemma {:induction false} EnrolmentAcceptedIff(d: Data, h: string, passkey: Passkey, now: int)
    ensures var r := Apply(d, CompleteEnrollment(h, passkey, now));
            && (r.Ok? <==> Invites(d, h, passkey.person, now) && passkey.credentialId !in d.credentials)
            && (r == Err(NotFound) <==> h !in d.invites)
            && (r == Err(AlreadyEnrolled) <==>
                  Invites(d, h, passkey.person, now) && passkey.credentialId in d.credentials)
            && (r.Err? ==> r.error in {NotFound, Unusable, AlreadyEnrolled})
  {
  }

  /** When an invitation can be used: from its creation until it is used, expires or its person is revoked. */
  lemma {:induction false} InviteStepExact(d: Data, m: Mutation, saved: bool, h: string, person: Uuid, now: int)
    ensures Invites(Committed(d, m, saved), h, person, now) <==>
              if saved && m.CreateInvite? && m.invite.tokenHash == h
              then m.invite.usedAt == None && now < m.invite.expiresAt && m.invite.person == person
              else Invites(d, h, person, now) && !(saved && m == DisablePerson(person))
                   && !(saved && m.CompleteEnrollment? && m.tokenHash == h && Apply(d, m).Ok?)
  {
  }

  /** An invitation goes with its person's revocation, and otherwise changes only by being used. */
  lemma {:induction false} InviteLeaves(d: Data, m: Mutation, saved: bool, h: string)
    requires h in d.invites && !(m.CreateInvite? && m.invite.tokenHash == h)
    ensures h !in Committed(d, m, saved).invites <==> saved && m == DisablePerson(d.invites[h].person)
  {
  }

  lemma {:induction false} InviteKept(d: Data, m: Mutation, saved: bool, h: string)
    requires h in d.invites && h in Committed(d, m, saved).invites && !(m.CreateInvite? && m.invite.tokenHash == h)
    ensures Committed(d, m, saved).invites[h] ==
              if saved && m.CompleteEnrollment? && m.tokenHash == h && Apply(d, m).Ok?
              then d.invites[h].(usedAt := Some(m.now)) else d.invites[h]
  {
  }

  /** A passkey comes only from its enrolment, and stays. */
  lemma {:induction false} PasskeyEnrolled(d: Data, m: Mutation, saved: bool, k: string)
    ensures var after := Committed(d, m, saved);
            var enrols := saved && m.CompleteEnrollment? && m.passkey.credentialId == k && Apply(d, m).Ok?;
            && (k in after.credentials <==> k in d.credentials || enrols)
            && (enrols ==> k !in d.credentials && after.credentials[k] == m.passkey)
  {
  }

  /** Then it changes in its counter and by its owner's revocation only. */
  lemma {:induction false} PasskeyKept(d: Data, m: Mutation, saved: bool, k: string)
    requires k in d.credentials && k in Committed(d, m, saved).credentials
    ensures var was := d.credentials[k];
            Committed(d, m, saved).credentials[k] ==
              was.(enabled := was.enabled && !(saved && m == DisablePerson(was.person)),
                   signCount := if saved && m.UpdateSignCount? && m.credentialId == k && was.signCount <= m.signCount
                                then m.signCount else was.signCount)
  {
  }

  /** A signature counter is refused exactly when it moves backwards; staying equal is allowed. */
  lemma {:induction false} SignCountRefusedBecause(d: Data, id: string, signCount: nat)
    ensures var r := Apply(d, UpdateSignCount(id, signCount));
            && (r == Err(NotFound) <==> id !in d.credentials)
            && (r == Err(MovedBackwards) <==> id in d.credentials && signCount < d.credentials[id].signCount)
            && (r.Err? ==> r.error in {NotFound, MovedBackwards})
  {
  }

  // ----- grants -----

  /**
   A replacement dates the pairs it keeps by their first grant and the new ones by now, and updates
   all; every other record that stays is untouched by every mutation.
   */
  lemma {:induction false} GrantStepExact(d: Data, m: Mutation, saved: bool, k: GrantKey)
    requires GrantKeysMatch(d.grants) && k in Committed(d, m, saved).grants
    ensures var record := Committed(d, m, saved).grants[k];
            if saved && m.ReplaceGrants? && m.person == k.person && Apply(d, m).Ok?
            then record.person == k.person && record.accessPoint == k.accessPoint && record.updatedAt == m.now
                 && record.createdAt == (if k in d.grants then d.grants[k].createdAt else m.now)
            else k in d.grants && record == d.grants[k]
  {
  }
}
