/**
 Durable notification preferences (models/notification_preferences.py): the strict reader, the
 lenient migration, and the writer.

 The registry of events is a parameter: its identifiers, the three unlock events that replaced
 `door_unlocked`, and the defaults. A stored object is given by its four known fields and the set of
 its other keys.
 */
module NotificationPreferences {
  import opened Results
  import opened Json

  datatype Catalogue = Catalogue(events: set<string>, unlocks: set<string>, defaults: map<string, bool>)

  const LEGACY_DOOR_UNLOCKED := "door_unlocked"
  const VERSION := 2
  const MAX_DEVICES := 128

  predicate WellFormed(c: Catalogue) {
    c.unlocks <= c.events && LEGACY_DOOR_UNLOCKED !in c.events && c.defaults.Keys == c.events
  }

  function LegacyEvents(c: Catalogue): set<string> {
    (c.events - c.unlocks) + {LEGACY_DOOR_UNLOCKED}
  }

  datatype Preferences = Preferences(enabled: bool, devices: seq<string>, events: map<string, bool>)

  datatype Raw =
    | NotAnObject(value: Json)
    | Object(version: Option<Json>, enabled: Option<Json>, devices: Option<Json>, events: Option<Json>,
        unexpected: set<string>)

  predicate IdCharacter(ch: char) {
    'a' <= ch <= 'z' || 'A' <= ch <= 'Z' || '0' <= ch <= '9' || ch == '_' || ch == '-'
  }

  predicate DeviceId(s: string) {
    |s| >= 11 && s[..11] == "mobile_app:" && 1 <= |s| - 11 <= 128 && forall i :: 11 <= i < |s| ==> IdCharacter(s[i])
  }

  predicate DevicesAllowed(devices: seq<string>) {
    && |devices| <= MAX_DEVICES
    && (forall i, j :: 0 <= i < j < |devices| ==> devices[i] != devices[j])
    && (forall i :: 0 <= i < |devices| ==> DeviceId(devices[i]))
  }

  /** What `__post_init__` demands. */
  predicate Valid(c: Catalogue, p: Preferences) {
    DevicesAllowed(p.devices) && p.events.Keys == c.events
  }

  predicate AllStrings(items: seq<Json>) {
    forall i :: 0 <= i < |items| ==> items[i].JString?
  }

  function Strings(items: seq<Json>): seq<string>
    requires AllStrings(items)
  {
    seq(|items|, i requires 0 <= i < |items| => items[i].s)
  }

  function Quoted(devices: seq<string>): seq<Json> {
    seq(|devices|, i requires 0 <= i < |devices| => JString(devices[i]))
  }

  predicate AllBooleans(m: map<string, Json>) {
    forall k :: k in m ==> m[k].JBool?
  }

  function Booleans(m: map<string, Json>): map<string, bool>
    requires AllBooleans(m)
  {
    map k | k in m :: m[k].b
  }

  function Fetch(field: Option<Json>, default: Json): Json {
    if field.Some? then field.value else default
  }

  /** The choice stored for each event once legacy choices are spread and gaps filled. */
  function Choices(c: Catalogue, version: int, raw: map<string, Json>): map<string, Json>
    requires WellFormed(c)
  {
    var legacy := if LEGACY_DOOR_UNLOCKED in raw then raw[LEGACY_DOOR_UNLOCKED] else JBool(true);
    map e | e in c.events ::
      if version == 1 && e in c.unlocks then legacy
      else if e in raw then raw[e]
      else JBool(c.defaults[e])
  }

  function Migrate(c: Catalogue, data: Raw): Option<Preferences>
    requires WellFormed(c)
  {
    if data.NotAnObject? || data.unexpected != {} then None
    else
      var version, enabled := Fetch(data.version, JInt(1)), Fetch(data.enabled, JBool(true));
      var devices, events := Fetch(data.devices, JList([])), Fetch(data.events, JObject(map[]));
      if !version.JInt? || !enabled.JBool? || !devices.JList? || !AllStrings(devices.items) || !events.JObject?
         || (version.i != 1 && version.i != VERSION) then None
      else if !(events.fields.Keys <= (if version.i == 1 then LegacyEvents(c) else c.events)) then None
      else
        var legacy := if LEGACY_DOOR_UNLOCKED in events.fields then events.fields[LEGACY_DOOR_UNLOCKED]
            else JBool(true);
        var choices := Choices(c, version.i, events.fields);
        if version.i == 1 && !legacy.JBool? then None
        else if !AllBooleans(choices) then None
        else if !DevicesAllowed(Strings(devices.items)) then None
        else Some(Preferences(enabled.b, Strings(devices.items), Booleans(choices)))
  }

  /** The strict reader: exactly the four fields, the current version, every event. */
  function FromDict(c: Catalogue, data: Raw): Option<Preferences>
    requires WellFormed(c)
  {
    if data.NotAnObject? || data.unexpected != {} || data.version.None? || data.enabled.None?
       || data.devices.None? || data.events.None?
    then None
    else
      var version, enabled, devices, events := data.version.value, data.enabled.value, data.devices.value,
          data.events.value;
      if !version.JInt? || !enabled.JBool? || !devices.JList? || !AllStrings(devices.items)
         || !events.JObject? then None
      else if events.fields.Keys != c.events || version.i != VERSION || !AllBooleans(events.fields) then None
      else if !DevicesAllowed(Strings(devices.items)) then None
      else Some(Preferences(enabled.b, Strings(devices.items), Booleans(events.fields)))
  }

  function ToDict(p: Preferences): Raw {
    Object(Some(JInt(VERSION)), Some(JBool(p.enabled)), Some(JList(Quoted(p.devices))),
           Some(JObject(map e | e in p.events :: JBool(p.events[e]))), {})
  }

  function Defaults(c: Catalogue): Preferences {
    Preferences(true, [], c.defaults)
  }

  // ----- what the migration reads -----

  /** A stored object by its parts, any of which may be missing. */
  datatype Stored = Stored(version: Option<int>, enabled: Option<bool>, devices: Option<seq<string>>,
                           events: Option<map<string, bool>>)

  function AsRaw(s: Stored): Raw {
    Object(if s.version.Some? then Some(JInt(s.version.value)) else None,
           if s.enabled.Some? then Some(JBool(s.enabled.value)) else None,
           if s.devices.Some? then Some(JList(Quoted(s.devices.value))) else None,
           if s.events.Some? then Some(JObject(map e | e in s.events.value :: JBool(s.events.value[e]))) else None,
           {})
  }

  /** The first version may choose for `door_unlocked`, the second for the events that replaced it. */
  predicate Acceptable(c: Catalogue, s: Stored) {
    && s.version in {None, Some(1), Some(2)}
    && (s.devices.Some? ==> DevicesAllowed(s.devices.value))
    && (s.events.Some? ==> forall e :: e in s.events.value ==>
          if s.version == Some(2) then e in c.events
          else e == LEGACY_DOOR_UNLOCKED || (e in c.events && e !in c.unlocks))
  }

  /** What choice a stored object makes for an event. */
  function Choice(c: Catalogue, s: Stored, event: string): bool
    requires event in c.defaults
  {
    var stored := if s.events.Some? then s.events.value else map[];
    if s.version != Some(2) && event in c.unlocks then
      (if LEGACY_DOOR_UNLOCKED in stored then stored[LEGACY_DOOR_UNLOCKED] else true)
    else if event in stored then stored[event]
    else c.defaults[event]
  }

  lemma {:induction false} StoredChoices(c: Catalogue, s: Stored)
    requires WellFormed(c) && Acceptable(c, s)
    ensures var fields, version := Fetch(AsRaw(s).events, JObject(map[])).fields, Fetch(AsRaw(s).version, JInt(1)).i;
            && AllBooleans(fields)
            && AllBooleans(Choices(c, version, fields))
            && Booleans(Choices(c, version, fields)) == map e | e in c.events :: Choice(c, s, e)
  {
    var fields, version := Fetch(AsRaw(s).events, JObject(map[])).fields, Fetch(AsRaw(s).version, JInt(1)).i;
    assert forall e :: e in c.events ==> Choices(c, version, fields)[e] == JBool(Choice(c, s, e));
  }

  lemma {:induction false} StoredDevices(s: Stored)
    ensures var devices := Fetch(AsRaw(s).devices, JList([]));
            devices.JList? && AllStrings(devices.items)
            && Strings(devices.items) == if s.devices.Some? then s.devices.value else []
  {
  }

  lemma {:induction false} MigrateReadsStored(c: Catalogue, s: Stored)
    requires WellFormed(c) && Acceptable(c, s)
    ensures Migrate(c, AsRaw(s)) ==
              Some(Preferences(s.enabled != Some(false), if s.devices.Some? then s.devices.value else [],
                               map e | e in c.events :: Choice(c, s, e)))
  {
    StoredChoices(c, s);
    StoredDevices(s);
  }

  /** The parts of an object the migration accepts. */
  function PartsOf(data: Raw): Stored
    requires data.Object?
  {
    Stored(if data.version.Some? && data.version.value.JInt? then Some(data.version.value.i) else None,
           if data.enabled.Some? && data.enabled.value.JBool? then Some(data.enabled.value.b) else None,
           if data.devices.Some? && data.devices.value.JList? && AllStrings(data.devices.value.items)
           then Some(Strings(data.devices.value.items)) else None,
           if data.events.Some? && data.events.value.JObject? && AllBooleans(data.events.value.fields)
           then Some(Booleans(data.events.value.fields)) else None)
  }

  lemma {:induction false} AcceptedIsStored(c: Catalogue, data: Raw)
    requires WellFormed(c) && Migrate(c, data).Some?
    ensures data.Object? && Acceptable(c, PartsOf(data)) && data == AsRaw(PartsOf(data))
  {
    if data.devices.Some? {
      assert Quoted(Strings(data.devices.value.items)) == data.devices.value.items;
    }
    if data.events.Some? {
      var fields := data.events.value.fields;
      var version := Fetch(data.version, JInt(1)).i;
      forall e | e in fields ensures fields[e].JBool? {
        if e != LEGACY_DOOR_UNLOCKED { assert Choices(c, version, fields)[e] == fields[e]; }
      }
      assert (map e | e in fields :: JBool(Booleans(fields)[e])) == fields;
    }
  }

  /**
   The migration reads exactly the objects with none but the four known fields, each missing or of
   its type, a known version, allowed devices and choices for that version's events only; and every
   part is kept, with the legacy choice spread and gaps filled.
   */
  lemma {:induction false} MigrateReadsExactly(c: Catalogue, data: Raw)
    requires WellFormed(c)
    ensures Migrate(c, data).Some? <==> exists s :: Acceptable(c, s) && data == AsRaw(s)
    ensures forall s :: Acceptable(c, s) && data == AsRaw(s) ==>
              Migrate(c, data) == Some(Preferences(s.enabled != Some(false),
                                                   if s.devices.Some? then s.devices.value else [],
                                                   map e | e in c.events :: Choice(c, s, e)))
  {
    if Migrate(c, data).Some? { AcceptedIsStored(c, data); }
    forall s | Acceptable(c, s) && data == AsRaw(s)
      ensures Migrate(c, data) == Some(Preferences(s.enabled != Some(false),
                                                   if s.devices.Some? then s.devices.value else [],
                                                   map e | e in c.events :: Choice(c, s, e)))
    {
      MigrateReadsStored(c, s);
    }
  }

  /** The strict reader accepts exactly what is written for valid preferences. */
  lemma {:induction false} FromDictReadsExactly(c: Catalogue, data: Raw)
    requires WellFormed(c) && FromDict(c, data).Some?
    ensures Valid(c, FromDict(c, data).value) && data == ToDict(FromDict(c, data).value)
  {
    var fields := data.events.value.fields;
    assert Quoted(Strings(data.devices.value.items)) == data.devices.value.items;
    assert (map e | e in Booleans(fields) :: JBool(Booleans(fields)[e])) == fields;
  }

  // ----- devices -----

  /** A device id is its prefix and 1 to 128 letters, digits, underscores and hyphens. */
  lemma {:induction false} DeviceIdIff(s: string)
    ensures DeviceId(s) <==>
              "mobile_app:" <= s && 1 <= |s| - 11 <= 128
              && forall ch :: ch in s[11..] ==>
                   'a' <= ch <= 'z' || 'A' <= ch <= 'Z' || '0' <= ch <= '9' || ch == '_' || ch == '-'
  {
    if |s| >= 11 {
      var id := s[11..];
      assert forall i :: 11 <= i < |s| ==> s[i] == id[i - 11] && id[i - 11] in id;
    }
  }

  function SetOf(devices: seq<string>): set<string> {
    set d | d in devices
  }

  lemma {:induction false} CountDistinct(devices: seq<string>)
    ensures |SetOf(devices)| <= |devices|
    ensures |SetOf(devices)| == |devices| <==> forall i, j :: 0 <= i < j < |devices| ==> devices[i] != devices[j]
  {
    if devices != [] {
      var front, last := devices[..|devices| - 1], devices[|devices| - 1];
      CountDistinct(front);
      assert devices == front + [last];
      assert SetOf(devices) == SetOf(front) + {last};
      if last in front {
        assert SetOf(devices) == SetOf(front);
        var i :| 0 <= i < |front| && front[i] == last;
        assert devices[i] == devices[|devices| - 1];
      } else {
        assert forall i :: 0 <= i < |front| ==> front[i] in front;
      }
    }
  }

  /** At most 128 devices, none named twice, each a device id. */
  lemma {:induction false} DevicesAllowedIff(devices: seq<string>)
    ensures DevicesAllowed(devices)
            <==> |SetOf(devices)| == |devices| <= 128 && forall d :: d in devices ==> DeviceId(d)
  {
    CountDistinct(devices);
  }

  /** What is read is always a complete, valid record. */
  lemma {:induction false} MigratedIsValid(c: Catalogue, data: Raw)
    requires WellFormed(c) && Migrate(c, data).Some?
    ensures Valid(c, Migrate(c, data).value)
  {
  }

  lemma {:induction false} DefaultsAreValid(c: Catalogue)
    requires WellFormed(c)
    ensures Valid(c, Defaults(c))
  {
  }

  /** What is written reads back as itself, strictly and through the migration. */
  lemma {:induction false} RoundTrip(c: Catalogue, p: Preferences)
    requires WellFormed(c) && Valid(c, p)
    ensures FromDict(c, ToDict(p)) == Some(p)
    ensures Migrate(c, ToDict(p)) == Some(p)
  {
    assert Strings(Quoted(p.devices)) == p.devices;
    var written := map e | e in p.events :: JBool(p.events[e]);
    assert Choices(c, VERSION, written) == written;
    assert Booleans(written) == p.events;
  }

  /** The migration extends the strict reader: whatever that accepts, it reads the same. */
  lemma {:induction false} MigrateExtendsFromDict(c: Catalogue, data: Raw)
    requires WellFormed(c) && FromDict(c, data).Some?
    ensures Migrate(c, data) == FromDict(c, data)
  {
    assert Choices(c, VERSION, data.events.value.fields) == data.events.value.fields;
  }

  /** The legacy choice for unlocking becomes the choice for each kind of unlocking, and no other choice changes. */
  lemma {:induction false} LegacyChoicesSurvive(c: Catalogue, data: Raw, event: string)
    requires WellFormed(c) && Migrate(c, data).Some? && event in c.events && data.version != Some(JInt(VERSION))
    ensures var stored := Fetch(data.events, JObject(map[])).fields;
            var chosen := Migrate(c, data).value.events[event];
            if event in c.unlocks
            then chosen == (LEGACY_DOOR_UNLOCKED in stored ==> stored[LEGACY_DOOR_UNLOCKED] == JBool(true))
            else chosen == (if event in stored then stored[event] == JBool(true) else c.defaults[event])
  {
  }
}
