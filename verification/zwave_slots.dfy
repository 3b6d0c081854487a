/**
 User Code slot reservation for Z-Wave locks (drivers/zwave_lock.py, _reserve_user_code_slot,
 _first_free_user_code_slot, set_pin). A reservation lives in `_pending_user_code_slots` until
 set_pin programs the slot. Lock responses are parameters; malformed entries are skipped as the
 driver skips them.
 */
module ZwaveSlots {
  import opened Results

  type LockId = string

  /** Optional fields are None when absent or of the wrong type. */
  datatype Credential = NotAMapping | Credential(pinCode: bool, slot: Option<int>)
  datatype User = Unreadable | User(userId: Option<int>, credentials: Option<seq<Credential>>)

  datatype Capabilities = Capabilities(maxUsers: Option<int>, pinSlots: Option<int>)

  datatype SlotError = BadCapabilities | BadUsers | NoSlotLeft

  predicate PinIn(credentials: seq<Credential>, slot: int) {
    exists j :: 0 <= j < |credentials| && credentials[j].Credential? && credentials[j].pinCode
        && credentials[j].slot == Some(slot)
  }

  /** A slot is taken by a user of that number or by a PIN stored in it. */
  predicate TakenBy(u: User, slot: int) {
    u.User? && (u.userId == Some(slot) || (u.credentials.Some? && PinIn(u.credentials.value, slot)))
  }

  predicate Taken(users: seq<User>, slot: int) {
    exists i :: 0 <= i < |users| && TakenBy(users[i], slot)
  }

  function Usable(c: Capabilities): int {
    if c.maxUsers.Some? && c.pinSlots.Some? then Min(c.maxUsers.value, c.pinSlots.value) else 0
  }

  predicate ReportsSlots(c: Capabilities) {
    c.maxUsers.Some? && c.maxUsers.value > 0 && c.pinSlots.Some? && c.pinSlots.value > 0
  }

  predicate Free(c: Capabilities, users: seq<User>, reserved: set<int>, slot: int) {
    1 <= slot <= Usable(c) && slot !in reserved && !Taken(users, slot)
  }

  /** A free slot is within both of the lock's limits, unreserved, no user's number and no PIN's slot. */
  lemma {:induction false} FreeMeans(c: Capabilities, users: seq<User>, reserved: set<int>, slot: int)
    ensures Free(c, users, reserved, slot) ==> ReportsSlots(c)
    ensures Free(c, users, reserved, slot) <==>
              && c.maxUsers.Some? && c.pinSlots.Some?
              && 1 <= slot <= c.maxUsers.value && slot <= c.pinSlots.value
              && slot !in reserved
              && (forall i :: 0 <= i < |users| && users[i].User? ==> users[i].userId != Some(slot))
              && (forall i, j :: 0 <= i < |users| && users[i].User? && users[i].credentials.Some?
                                 && 0 <= j < |users[i].credentials.value| ==>
                    var credential := users[i].credentials.value[j];
                    !(credential.Credential? && credential.pinCode && credential.slot == Some(slot)))
  {
    if Taken(users, slot) {
      var i :| 0 <= i < |users| && TakenBy(users[i], slot);
    } else {
      assert forall i :: 0 <= i < |users| ==> !TakenBy(users[i], slot);
    }
  }

  method PinSlots(credentials: seq<Credential>) returns (slots: set<int>)
    ensures forall s :: s in slots <==> PinIn(credentials, s)
  {
    slots := {};
    for j := 0 to |credentials|
      invariant forall s :: s in slots <==> PinIn(credentials[..j], s)
    {
      var c := credentials[j];
      assert credentials[..j + 1] == credentials[..j] + [c];
      ghost var before := slots;
      if c.Credential? && c.pinCode && c.slot.Some? { slots := slots + {c.slot.value}; }
      forall s ensures s in slots <==> PinIn(credentials[..j + 1], s) {
        assert s in before <==> PinIn(credentials[..j], s);
        if PinIn(credentials[..j], s) {
          var k :| 0 <= k < j && credentials[..j][k].Credential? && credentials[..j][k].pinCode
              && credentials[..j][k].slot == Some(s);
          assert credentials[..j + 1][k] == credentials[..j][k];
        }
        assert credentials[..j + 1][j] == c;
      }
    }
    assert credentials[..|credentials|] == credentials;
  }

  /** All slots the users take, together with those already reserved. */
  method OccupiedSlots(users: seq<User>, reserved: set<int>) returns (occupied: set<int>)
    ensures forall s :: s in occupied <==> s in reserved || Taken(users, s)
  {
    occupied := reserved;
    for i := 0 to |users|
      invariant forall s :: s in occupied <==> s in reserved || exists k :: 0 <= k < i && TakenBy(users[k], s)
    {
      var u := users[i];
      if u.User? {
        if u.userId.Some? { occupied := occupied + {u.userId.value}; }
        if u.credentials.Some? {
          var pins := PinSlots(u.credentials.value);
          occupied := occupied + pins;
        }
      }
    }
  }

  /** The least free slot, or an error exactly when the lock reports no slots or none is free. */
  method FirstFreeUserCodeSlot(c: Capabilities, users: Option<seq<User>>, reserved: set<int>)
    returns (r: Result<int, SlotError>)
    ensures r.Ok? ==> users.Some? && ReportsSlots(c) && Free(c, users.value, reserved, r.value)
    ensures r.Ok? ==> 1 <= r.value <= c.maxUsers.value && r.value <= c.pinSlots.value
    ensures r.Ok? ==> forall s :: s < r.value ==> !Free(c, users.value, reserved, s)
    ensures r.Err? <==> !ReportsSlots(c) || users.None? || forall s :: !Free(c, users.value, reserved, s)
    ensures r == Err(BadCapabilities)
            <==> !(c.maxUsers.Some? && c.maxUsers.value > 0 && c.pinSlots.Some? && c.pinSlots.value > 0)
    ensures r == Err(BadUsers) <==> ReportsSlots(c) && users.None?
  {
    if !ReportsSlots(c) { return Err(BadCapabilities); }
    if users.None? { return Err(BadUsers); }
    var occupied := OccupiedSlots(users.value, reserved);
    for value := 1 to Usable(c) + 1
      invariant forall s :: s < value ==> !Free(c, users.value, reserved, s)
    {
      if value !in occupied {
        assert Free(c, users.value, reserved, value);
        return Ok(value);
      }
    }
    return Err(NoSlotLeft);
  }

  class ZWaveLockDriver {
    var pending: set<(LockId, int)>
    ghost var outstanding: seq<(LockId, int)>  // reservations handed out and not yet programmed

    /** Pending slots are exactly the outstanding reservations, and no slot is handed out twice. */
    ghost predicate Valid()
      reads this
    {
      && (forall p :: p in pending <==> p in outstanding)
      && (forall i, j :: 0 <= i < j < |outstanding| ==> outstanding[i] != outstanding[j])
    }

    constructor ()
      ensures Valid() && outstanding == []
    {
      pending, outstanding := {}, [];
    }

    function Reserved(lock: LockId): set<int>
      reads this
    {
      set p | p in pending && p.0 == lock :: p.1
    }

    method ReserveUserCodeSlot(lock: LockId, c: Capabilities, users: Option<seq<User>>)
      returns (r: Result<int, SlotError>)
      requires Valid()
      modifies this
      ensures Valid()
      ensures r.Ok? ==> users.Some? && Free(c, users.value, old(Reserved(lock)), r.value)
      ensures r.Ok? ==> forall s :: s < r.value ==> !Free(c, users.value, old(Reserved(lock)), s)
      ensures r.Ok? ==> outstanding == old(outstanding) + [(lock, r.value)]
      ensures r.Ok? ==> pending == old(pending) + {(lock, r.value)}
      ensures r.Err? <==> !ReportsSlots(c) || users.None? || forall s :: !Free(c, users.value, old(Reserved(lock)), s)
      ensures r.Err? ==> pending == old(pending) && outstanding == old(outstanding)
    {
      r := FirstFreeUserCodeSlot(c, users, Reserved(lock));
      if r.Ok? {
        ghost var slot := r.value;
        assert (lock, slot) in pending ==> slot in Reserved(lock);
        pending := pending + {(lock, r.value)};
        outstanding := outstanding + [(lock, r.value)];
      }
    }

    /** Programming a reserved slot ends its reservation; any other number takes the credential path. */
    method SetPin(lock: LockId, userId: int) returns (userCode: bool)
      requires Valid()
      modifies this
      ensures Valid()
      ensures userCode <==> (lock, userId) in old(pending)
      ensures pending == old(pending) - {(lock, userId)}
      ensures forall p :: p in outstanding <==> p in old(outstanding) && p != (lock, userId)
    {
      userCode := (lock, userId) in pending;
      if userCode {
        pending := pending - {(lock, userId)};
        ghost var i :| 0 <= i < |outstanding| && outstanding[i] == (lock, userId);
        ghost var was := outstanding;
        outstanding := was[..i] + was[i + 1..];
        forall p ensures p in outstanding <==> p in was && p != (lock, userId) {
          if p in was && p != (lock, userId) {
            var k :| 0 <= k < |was| && was[k] == p;
            assert outstanding[if k < i then k else k - 1] == p;
          }
        }
      }
    }
  }

  // ----- successive reservations on an unchanged lock -----

  function FreeSlots(c: Capabilities, users: seq<User>, reserved: set<int>): set<int> {
    set s | 1 <= s <= Usable(c) && Free(c, users, reserved, s)
  }

  function LeastFree(c: Capabilities, users: seq<User>, reserved: set<int>, from: int): Option<int>
    decreases Usable(c) + 1 - from
  {
    if from > Usable(c) then None
    else if Free(c, users, reserved, from) then Some(from)
    else LeastFree(c, users, reserved, from + 1)
  }

  lemma {:induction false} LeastFreeFacts(c: Capabilities, users: seq<User>, reserved: set<int>, from: int)
    ensures var r := LeastFree(c, users, reserved, from);
            (r.Some? ==> from <= r.value && Free(c, users, reserved, r.value))
            && forall s :: from <= s && (r.Some? ==> s < r.value) ==> !Free(c, users, reserved, s)
    decreases Usable(c) + 1 - from
  {
    if from <= Usable(c) && !Free(c, users, reserved, from) { LeastFreeFacts(c, users, reserved, from + 1); }
  }

  /** The slots `n` reservations in a row are given, as long as there are any. */
  function Successive(c: Capabilities, users: seq<User>, reserved: set<int>, n: nat): seq<int>
    decreases n
  {
    var slot := LeastFree(c, users, reserved, 1);
    if n == 0 || slot.None? then []
    else [slot.value] + Successive(c, users, reserved + {slot.value}, n - 1)
  }

  /** Reservations in a row get strictly increasing free slots until every free slot is given out. */
  lemma {:induction false} SuccessiveSlots(c: Capabilities, users: seq<User>, reserved: set<int>, n: nat)
    ensures var slots := Successive(c, users, reserved, n);
            |slots| == Min(n, |FreeSlots(c, users, reserved)|)
            && (forall i :: 0 <= i < |slots| ==> Free(c, users, reserved, slots[i]))
            && (forall i, j :: 0 <= i < j < |slots| ==> slots[i] < slots[j])
    decreases n
  {
    LeastFreeFacts(c, users, reserved, 1);
    var free := FreeSlots(c, users, reserved);
    var least := LeastFree(c, users, reserved, 1);
    if least.None? {
      assert free == {};
    } else if n > 0 {
      var slot := least.value;
      assert slot in free;
      assert FreeSlots(c, users, reserved + {slot}) == free - {slot};
      SuccessiveSlots(c, users, reserved + {slot}, n - 1);
      var rest := Successive(c, users, reserved + {slot}, n - 1);
      forall i | 0 <= i < |rest| ensures slot < rest[i] && Free(c, users, reserved, rest[i]) {
        assert Free(c, users, reserved + {slot}, rest[i]);
        assert rest[i] !in reserved + {slot};
        assert rest[i] != slot && Free(c, users, reserved, rest[i]);
      }
    }
  }
}
