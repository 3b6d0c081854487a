/**
 The versioned store (storage.py, _validate_domain_snapshot's settings and HomePassStorageManager).

 The domain collections are one value; their checks and the upgrade of older schemas are
 parameters. Times when a read, a write or a mutator fails are part of each operation. A write is
 atomic: it happens or it does not.
 */
module StorageManager {
  import opened Results
  import opened Json
  import opened NotificationPreferences

  type Collections = map<string, Json>

  /** Notification preferences, the backup made when they could not be read, and all other settings. */
  datatype Settings = Settings(preferences: Option<Raw>, backup: Option<Raw>, others: map<string, Json>)

  datatype Payload = Payload(version: int, data: Collections, settings: Settings)

  const SCHEMA_VERSION := 19

  /**
   `sound` is every check of the collections and the other settings; `upgrade` is the chain of
   migrations of an older payload, up to where the result is validated.
   */
  datatype Rules = Rules(
    catalogue: Catalogue,
    sound: (Collections, map<string, Json>) -> bool,
    upgrade: Payload -> Option<Payload>,
    empty: Payload)

  // ----- validation -----

  predicate StoresPreferences(s: Settings) {
    s.preferences.Some? && s.preferences != Some(NotAnObject(JNull))
  }

  /** Preferences are rewritten in canonical form; unreadable ones are replaced by the defaults and backed up once. */
  function Canonical(c: Catalogue, s: Settings): Settings
    requires WellFormed(c)
  {
    if !StoresPreferences(s) then s
    else
      var read := Migrate(c, s.preferences.value);
      if read.Some? then s.(preferences := Some(ToDict(read.value)))
      else s.(preferences := Some(ToDict(Defaults(c))), backup := if s.backup.Some? then s.backup else s.preferences)
  }

  function Validate(r: Rules, p: Payload): Option<Payload>
    requires WellFormed(r.catalogue)
  {
    if p.version != SCHEMA_VERSION || !r.sound(p.data, p.settings.others) then None
    else Some(p.(settings := Canonical(r.catalogue, p.settings)))
  }

  function MigratePayload(r: Rules, p: Payload): Option<Payload>
    requires WellFormed(r.catalogue)
  {
    if p.version == SCHEMA_VERSION then Validate(r, p)
    else if 1 <= p.version < SCHEMA_VERSION then
      var upgraded := r.upgrade(p);
      if upgraded.None? then None else Validate(r, upgraded.value)
    else None
  }

  lemma {:induction false} CanonicalIsStable(c: Catalogue, s: Settings)
    requires WellFormed(c)
    ensures Canonical(c, Canonical(c, s)) == Canonical(c, s)
  {
    if StoresPreferences(s) {
      var read := Migrate(c, s.preferences.value);
      if read.Some? {
        MigratedIsValid(c, s.preferences.value);
        RoundTrip(c, read.value);
      } else {
        DefaultsAreValid(c);
        RoundTrip(c, Defaults(c));
      }
    }
  }

  /** Validation is idempotent: what it returns it returns again unchanged. */
  lemma {:induction false} ValidationIsIdempotent(r: Rules, p: Payload)
    requires WellFormed(r.catalogue) && Validate(r, p).Some?
    ensures Validate(r, Validate(r, p).value) == Validate(r, p)
    ensures MigratePayload(r, Validate(r, p).value) == Validate(r, p)
  {
    CanonicalIsStable(r.catalogue, p.settings);
  }

  /**
   Preferences never make a payload invalid. What cannot be read is kept: the first unreadable
   object is in the backup, and no later one replaces it.
   */
  lemma {:induction false} RecoveryLosesNothing(r: Rules, p: Payload)
    requires WellFormed(r.catalogue)
    ensures Validate(r, p).Some? <==> p.version == SCHEMA_VERSION && r.sound(p.data, p.settings.others)
    ensures Validate(r, p).Some? ==>
              var q := Validate(r, p).value;
              && q.data == p.data && q.settings.others == p.settings.others
              && (p.settings.backup.Some? ==> q.settings.backup == p.settings.backup)
              && (q.settings.backup != p.settings.backup <==>
                    p.settings.backup.None? && StoresPreferences(p.settings)
                        && Migrate(r.catalogue, p.settings.preferences.value).None?)
              && (q.settings.backup != p.settings.backup ==> q.settings.backup == p.settings.preferences)
  {
  }

  /**
   Preferences that can be read come back as they were read, in the form the strict reader takes;
   unreadable ones come back as the defaults, and none stay none.
   */
  lemma {:induction false} ReadablePreferencesKept(r: Rules, p: Payload)
    requires WellFormed(r.catalogue) && Validate(r, p).Some?
    ensures var was, now := p.settings.preferences, Validate(r, p).value.settings.preferences;
            if was.None? || was.value == NotAnObject(JNull) then now == was
            else
              var read := Migrate(r.catalogue, was.value);
              now.Some? && FromDict(r.catalogue, now.value)
                           == (if read.Some? then read else Some(Preferences(true, [], r.catalogue.defaults)))
  {
    if StoresPreferences(p.settings) {
      var read := Migrate(r.catalogue, p.settings.preferences.value);
      DefaultsAreValid(r.catalogue);
      if read.Some? { MigratedIsValid(r.catalogue, p.settings.preferences.value); }
      RoundTrip(r.catalogue, if read.Some? then read.value else Defaults(r.catalogue));
    }
  }

  /** A payload of the current schema, or an older one that can be upgraded, migrates to what that validates to. */
  lemma {:induction false} MigratesIff(r: Rules, p: Payload)
    requires WellFormed(r.catalogue)
    ensures p.version == 19 ==> MigratePayload(r, p) == Validate(r, p)
    ensures p.version != 19 ==>
              (MigratePayload(r, p).Some? <==>
                 0 < p.version < 19 && r.upgrade(p).Some? && Validate(r, r.upgrade(p).value).Some?)
    ensures MigratePayload(r, p).Some? ==>
              var q := MigratePayload(r, p).value;
              q.version == 19 && r.sound(q.data, q.settings.others)
              && (p.version != 19 ==> Some(q) == Validate(r, r.upgrade(p).value))
  {
  }

  // ----- the manager as a state machine -----

  datatype State = State(disk: Option<Payload>, loaded: Option<Payload>)

  /** What a mutator does with the working copy. */
  datatype Mutated = Raises | Awaitable | Returns(working: Payload)

  datatype Operation =
    | Load(readable: bool)
    | Save(payload: Payload, readable: bool, writable: bool)
    | Transaction(mutator: Payload -> Mutated, nested: bool, readable: bool, writable: bool)
    | Restart

  datatype StorageError = ReadFailed | Invalid | Nested | MutatorRaised | NotSynchronous | WriteFailed

  function EnsureLoaded(r: Rules, s: State, readable: bool): Result<Payload, StorageError>
    requires WellFormed(r.catalogue)
  {
    if s.loaded.Some? then Ok(s.loaded.value)
    else if !readable then Err(ReadFailed)
    else if s.disk.None? then Ok(r.empty)
    else
      var migrated := MigratePayload(r, s.disk.value);
      if migrated.None? then Err(Invalid) else Ok(migrated.value)
  }

  /** The state after loading if that succeeds. */
  function Loaded(r: Rules, s: State, readable: bool): State
    requires WellFormed(r.catalogue)
  {
    var current := EnsureLoaded(r, s, readable);
    if current.Ok? then s.(loaded := Some(current.value)) else s
  }

  /** The value to write, or why there is none. */
  function ToWrite(r: Rules, s: State, o: Operation): Result<Payload, StorageError>
    requires WellFormed(r.catalogue) && (o.Save? || o.Transaction?)
  {
    match o
    case Save(payload, readable, _) =>
      var migrated := MigratePayload(r, payload);
      if migrated.None? || Validate(r, migrated.value).None? then Err(Invalid)
      else
        var current := EnsureLoaded(r, s, readable);
        if current.Err? then Err(current.error) else Ok(Validate(r, migrated.value).value)
    case Transaction(mutator, nested, readable, _) =>
      if nested then Err(Nested)
      else
        var current := EnsureLoaded(r, s, readable);
        if current.Err? then Err(current.error)
        else
          var mutated := mutator(current.value);
          if mutated.Raises? then Err(MutatorRaised)
          else if mutated.Awaitable? then Err(NotSynchronous)
          else
            var validated := Validate(r, mutated.working);
            if validated.None? then Err(Invalid) else Ok(validated.value)
  }

  function Outcome(r: Rules, s: State, o: Operation): Result<Payload, StorageError>
    requires WellFormed(r.catalogue) && !o.Restart?
  {
    if o.Load? then EnsureLoaded(r, s, o.readable)
    else
      var written := ToWrite(r, s, o);
      if written.Ok? && !o.writable then Err(WriteFailed) else written
  }

  /** Operations that fail before loading leave even the loaded copy alone. */
  predicate ReachesLoading(r: Rules, o: Operation)
    requires WellFormed(r.catalogue)
  {
    match o
    case Load(_) => true
    case Save(payload, _, _) =>
      var migrated := MigratePayload(r, payload);
      migrated.Some? && Validate(r, migrated.value).Some?
    case Transaction(_, nested, _, _) => !nested
    case Restart => false
  }

  function Step(r: Rules, s: State, o: Operation): State
    requires WellFormed(r.catalogue)
  {
    if o.Restart? then s.(loaded := None)
    else
      var t := if ReachesLoading(r, o) then Loaded(r, s, o.readable) else s;
      var result := Outcome(r, s, o);
      if result.Ok? && !o.Load? then State(Some(result.value), Some(result.value)) else t
  }

  /** A new installation starts from a payload that validates to itself. */
  ghost predicate EmptyIsValid(r: Rules) {
    WellFormed(r.catalogue) && Validate(r, r.empty) == Some(r.empty)
  }

  /** What is in memory is valid, and is what loading the file would give. */
  ghost predicate Agrees(r: Rules, s: State)
    requires WellFormed(r.catalogue)
  {
    s.loaded.Some? ==>
      && Validate(r, s.loaded.value) == s.loaded
      && (s.disk.None? ==> s.loaded == Some(r.empty))
      && (s.disk.Some? ==> s.loaded == MigratePayload(r, s.disk.value))
  }

  lemma {:induction false} LoadingAgrees(r: Rules, s: State, readable: bool)
    requires EmptyIsValid(r) && Agrees(r, s)
    ensures Agrees(r, Loaded(r, s, readable))
  {
    if s.loaded.None? && s.disk.Some? && MigratePayload(r, s.disk.value).Some? {
      var p := s.disk.value;
      ValidationIsIdempotent(r, if p.version == SCHEMA_VERSION then p else r.upgrade(p).value);
    }
  }

  /** Everything written validates to itself. */
  lemma {:induction false} WrittenIsStable(r: Rules, s: State, o: Operation)
    requires WellFormed(r.catalogue) && (o.Save? || o.Transaction?) && ToWrite(r, s, o).Ok?
    ensures Validate(r, ToWrite(r, s, o).value) == Some(ToWrite(r, s, o).value)
    ensures MigratePayload(r, ToWrite(r, s, o).value) == Some(ToWrite(r, s, o).value)
  {
    match o
    case Save(payload, _, _) => ValidationIsIdempotent(r, MigratePayload(r, payload).value);
    case Transaction(mutator, _, readable, _) =>
      ValidationIsIdempotent(r, mutator(EnsureLoaded(r, s, readable).value).working);
  }

  lemma {:induction false} StepAgrees(r: Rules, s: State, o: Operation)
    requires EmptyIsValid(r) && Agrees(r, s)
    ensures Agrees(r, Step(r, s, o))
  {
    if !o.Restart? {
      LoadingAgrees(r, s, o.readable);
      if (o.Save? || o.Transaction?) && ToWrite(r, s, o).Ok? {
        WrittenIsStable(r, s, o);
      }
    }
  }

  function After(r: Rules, s: State, operations: seq<Operation>, n: nat): State
    requires WellFormed(r.catalogue) && n <= |operations|
  {
    if n == 0 then s else Step(r, After(r, s, operations, n - 1), operations[n - 1])
  }

  /**
   Starting with nothing loaded, after any loads, saves, transactions and restarts, with reads,
   writes and mutators failing anywhere, memory is valid and equal to the migration of the file.
   */
  lemma {:induction false} MemoryAgreesWithDisk(r: Rules, disk: Option<Payload>, operations: seq<Operation>, n: nat)
    requires EmptyIsValid(r) && n <= |operations|
    ensures Agrees(r, After(r, State(disk, None), operations, n))
    decreases n
  {
    if n > 0 {
      MemoryAgreesWithDisk(r, disk, operations, n - 1);
      StepAgrees(r, After(r, State(disk, None), operations, n - 1), operations[n - 1]);
    }
  }

  /** An operation that fails writes nothing, and at most loads what was there. */
  lemma {:induction false} FailuresChangeNothing(r: Rules, s: State, o: Operation)
    requires WellFormed(r.catalogue) && !o.Restart? && Outcome(r, s, o).Err?
    ensures Step(r, s, o).disk == s.disk
    ensures s.loaded.Some? ==> Step(r, s, o) == s
    ensures s.loaded.None? ==> Step(r, s, o) == s || Step(r, s, o) == Loaded(r, s, o.readable)
  {
  }

  /** A restart loses nothing: the next load gives what was in memory, whatever ran before. */
  lemma {:induction false} RestartRecovers(r: Rules, disk: Option<Payload>, operations: seq<Operation>, n: nat)
    requires EmptyIsValid(r) && n <= |operations|
    requires After(r, State(disk, None), operations, n).loaded.Some?
    ensures var s := After(r, State(disk, None), operations, n);
            Outcome(r, Step(r, s, Restart), Load(true)) == Ok(s.loaded.value)
  {
    MemoryAgreesWithDisk(r, disk, operations, n);
  }

  /** Loading fails exactly when nothing is loaded and the file cannot be read or does not migrate. */
  lemma {:induction false} LoadFailsIff(r: Rules, s: State, readable: bool)
    requires WellFormed(r.catalogue)
    ensures var unmigratable := s.disk.Some? && MigratePayload(r, s.disk.value).None?;
            && (Outcome(r, s, Load(readable)).Err? <==> s.loaded.None? && (!readable || unmigratable))
            && (Outcome(r, s, Load(readable)) == Err(ReadFailed) <==> s.loaded.None? && !readable)
            && (Outcome(r, s, Load(readable)).Ok? ==>
                  Step(r, s, Load(readable)) == s.(loaded := Some(Outcome(r, s, Load(readable)).value)))
  {
  }

  /**
   A transaction commits exactly when it is not nested, the store loads, its mutator returns a
   payload that validates, and the write succeeds; then it publishes that payload, on disk and in
   memory.
   */
  lemma {:induction false} TransactionsPublish(r: Rules, s: State, mutator: Payload -> Mutated, nested: bool,
                                               readable: bool, writable: bool)
    requires EmptyIsValid(r) && Agrees(r, s)
    ensures var o := Transaction(mutator, nested, readable, writable);
            var current := Outcome(r, s, Load(readable));
            var mutated := if current.Ok? then mutator(current.value) else Raises;
            var valid := mutated.Returns? && Validate(r, mutated.working).Some?;
            && (Outcome(r, s, o).Ok? <==> !nested && valid && writable)
            && (Outcome(r, s, o).Ok? ==>
                  Step(r, s, o) == State(Validate(r, mutated.working), Validate(r, mutated.working)))
            && (Outcome(r, s, o) == Err(Nested) <==> nested)
            && (!nested && current.Ok? ==>
                  (Outcome(r, s, o) == Err(MutatorRaised) <==> mutated.Raises?)
                  && (Outcome(r, s, o) == Err(NotSynchronous) <==> mutated.Awaitable?)
                  && (Outcome(r, s, o) == Err(Invalid) <==> mutated.Returns? && !valid)
                  && (Outcome(r, s, o) == Err(WriteFailed) <==> valid && !writable))
  {
  }

  /**
   A save commits exactly when its payload migrates, the store loads and the write succeeds; then it
   publishes the migrated payload.
   */
  lemma {:induction false} SavesPublish(r: Rules, s: State, payload: Payload, readable: bool, writable: bool)
    requires EmptyIsValid(r) && Agrees(r, s)
    ensures var o, migrated := Save(payload, readable, writable), MigratePayload(r, payload);
            && (Outcome(r, s, o).Ok? <==> migrated.Some? && Outcome(r, s, Load(readable)).Ok? && writable)
            && (Outcome(r, s, o).Ok? ==> Step(r, s, o) == State(migrated, migrated))
            && (Outcome(r, s, o) == Err(WriteFailed) <==>
                  migrated.Some? && Outcome(r, s, Load(readable)).Ok? && !writable)
  {
    MigratesIff(r, payload);
    if MigratePayload(r, payload).Some? {
      ValidationIsIdempotent(r, if payload.version == SCHEMA_VERSION then payload else r.upgrade(payload).value);
    }
  }

  /** No migration touches the recovery backup. */
  ghost predicate UpgradesKeepBackup(r: Rules) {
    forall p :: r.upgrade(p).Some? ==> r.upgrade(p).value.settings.backup == p.settings.backup
  }

  /** Callers that leave the recovery backup as they found it: in the payload they save, or in the copy they mutate. */
  ghost predicate LeavesBackup(r: Rules, s: State, o: Operation, backup: Raw)
    requires WellFormed(r.catalogue)
  {
    match o
    case Save(payload, _, _) => payload.settings.backup == Some(backup)
    case Transaction(mutator, _, readable, _) =>
      EnsureLoaded(r, s, readable).Ok? && mutator(EnsureLoaded(r, s, readable).value).Returns? ==>
        mutator(EnsureLoaded(r, s, readable).value).working.settings.backup
        == EnsureLoaded(r, s, readable).value.settings.backup
    case _ => true
  }

  /** The payload in use, or that the next load would bring into use, holds this backup. */
  ghost predicate HoldsBackup(r: Rules, s: State, backup: Raw)
    requires WellFormed(r.catalogue)
  {
    && Agrees(r, s)
    && EnsureLoaded(r, s, true).Ok?
    && EnsureLoaded(r, s, true).value.settings.backup == Some(backup)
  }

  lemma {:induction false} MigrationKeepsBackup(r: Rules, p: Payload, backup: Raw)
    requires WellFormed(r.catalogue) && UpgradesKeepBackup(r) && p.settings.backup == Some(backup)
    ensures MigratePayload(r, p).Some? ==> MigratePayload(r, p).value.settings.backup == Some(backup)
  {
    if 1 <= p.version < SCHEMA_VERSION && r.upgrade(p).Some? {
      RecoveryLosesNothing(r, r.upgrade(p).value);
    }
  }

  lemma {:induction false} StepKeepsBackup(r: Rules, s: State, o: Operation, backup: Raw)
    requires EmptyIsValid(r) && UpgradesKeepBackup(r) && HoldsBackup(r, s, backup) && LeavesBackup(r, s, o, backup)
    ensures HoldsBackup(r, Step(r, s, o), backup)
  {
    StepAgrees(r, s, o);
    if o.Save? { MigrationKeepsBackup(r, o.payload, backup); }
  }

  ghost predicate LeftBackup(r: Rules, s: State, operations: seq<Operation>, i: nat, backup: Raw)
    requires WellFormed(r.catalogue) && i < |operations|
  {
    LeavesBackup(r, After(r, s, operations, i), operations[i], backup)
  }

  /**
   Once made, the backup of unreadable preferences stays what it is, over any number of later
   recoveries and restarts.
   */
  lemma {:induction false} BackupIsWriteOnce(r: Rules, s: State, operations: seq<Operation>, n: nat, backup: Raw)
    requires EmptyIsValid(r) && UpgradesKeepBackup(r) && HoldsBackup(r, s, backup) && n <= |operations|
    requires forall i :: 0 <= i < n ==> LeftBackup(r, s, operations, i, backup)
    ensures HoldsBackup(r, After(r, s, operations, n), backup)
    decreases n
  {
    if n > 0 {
      BackupIsWriteOnce(r, s, operations, n - 1, backup);
      assert LeftBackup(r, s, operations, n - 1, backup);
      StepKeepsBackup(r, After(r, s, operations, n - 1), operations[n - 1], backup);
    }
  }

  // ----- the class -----

  class HomePassStorageManager {
    const rules: Rules
    var file: Option<Payload>       // what the store holds on disk
    var data: Option<Payload>       // `_data`
    var transactionActive: bool     // the context variable guarding against nesting

    ghost predicate Valid()
      reads this
    {
      EmptyIsValid(rules) && Agrees(rules, Abstraction())
    }

    ghost function Abstraction(): State
      reads this
    {
      State(file, data)
    }

    constructor (rules: Rules, file: Option<Payload>)
      requires EmptyIsValid(rules)
      ensures Valid() && Abstraction() == State(file, None) && !transactionActive && this.rules == rules
    {
      this.rules, this.file, data, transactionActive := rules, file, None, false;
    }

    method AsyncEnsureLoaded(readable: bool) returns (current: Result<Payload, StorageError>)
      requires Valid()
      modifies this`data
      ensures Valid() && Abstraction() == Loaded(rules, old(Abstraction()), readable)
      ensures current == EnsureLoaded(rules, old(Abstraction()), readable)
    {
      LoadingAgrees(rules, Abstraction(), readable);
      if data.None? {
        if !readable { return Err(ReadFailed); }
        if file.None? {
          data := Some(rules.empty);
        } else {
          var migrated := MigratePayload(rules, file.value);
          if migrated.None? { return Err(Invalid); }
          data := migrated;
        }
      }
      current := Ok(data.value);
    }

    /** `await self._store.async_save(validated)`, then `self._data = deepcopy(validated)`. */
    method Write(validated: Payload, writable: bool) returns (r: Result<Payload, StorageError>)
      modifies this`file, this`data
      ensures r == if writable then Ok(validated) else Err(WriteFailed)
      ensures Abstraction() == if writable then State(Some(validated), Some(validated)) else old(Abstraction())
    {
      if !writable { return Err(WriteFailed); }
      file := Some(validated);
      data := Some(validated);
      r := Ok(validated);
    }

    method AsyncLoad(readable: bool) returns (r: Result<Payload, StorageError>)
      requires Valid()
      modifies this`data
      ensures Valid() && Abstraction() == Step(rules, old(Abstraction()), Load(readable))
      ensures r == Outcome(rules, old(Abstraction()), Load(readable))
    {
      r := AsyncEnsureLoaded(readable);
    }

    method AsyncSave(payload: Payload, readable: bool, writable: bool) returns (r: Result<Payload, StorageError>)
      requires Valid()
      modifies this`file, this`data
      ensures Valid() && Abstraction() == Step(rules, old(Abstraction()), Save(payload, readable, writable))
      ensures r == Outcome(rules, old(Abstraction()), Save(payload, readable, writable))
    {
      StepAgrees(rules, Abstraction(), Save(payload, readable, writable));
      var migrated := MigratePayload(rules, payload);
      if migrated.None? { return Err(Invalid); }
      var validated := Validate(rules, migrated.value);
      if validated.None? { return Err(Invalid); }
      var current := AsyncEnsureLoaded(readable);
      if current.Err? { return current; }
      r := Write(validated.value, writable);
    }

    /** The flag is reset on every way out. */
    method AsyncTransaction(mutator: Payload -> Mutated, readable: bool, writable: bool)
      returns (r: Result<Payload, StorageError>)
      requires Valid()
      modifies this
      ensures Valid()
      ensures Abstraction()
              == Step(rules, old(Abstraction()), Transaction(mutator, old(transactionActive), readable, writable))
      ensures r == Outcome(rules, old(Abstraction()), Transaction(mutator, old(transactionActive), readable, writable))
      ensures transactionActive == old(transactionActive)
    {
      StepAgrees(rules, Abstraction(), Transaction(mutator, transactionActive, readable, writable));
      if transactionActive { return Err(Nested); }
      transactionActive := true;
      r := Mutate(mutator, readable, writable);
      transactionActive := false;
    }

    method Mutate(mutator: Payload -> Mutated, readable: bool, writable: bool)
      returns (r: Result<Payload, StorageError>)
      requires Valid()
      modifies this`file, this`data
      ensures Valid()
      ensures Abstraction() == Step(rules, old(Abstraction()), Transaction(mutator, false, readable, writable))
      ensures r == Outcome(rules, old(Abstraction()), Transaction(mutator, false, readable, writable))
    {
      StepAgrees(rules, Abstraction(), Transaction(mutator, false, readable, writable));
      var current := AsyncEnsureLoaded(readable);
      if current.Err? { return current; }
      var mutated := mutator(current.value);
      match mutated {
        case Raises => r := Err(MutatorRaised);
        case Awaitable => r := Err(NotSynchronous);
        case Returns(working) =>
          var validated := Validate(rules, working);
          if validated.None? { return Err(Invalid); }
          r := Write(validated.value, writable);
      }
    }
  }
}
