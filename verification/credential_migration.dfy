/**
 The step from storage schema 13 to 14 that gives people a credential of their own (storage.py,
 _migrate_schema_v13), against the checks every later load makes of the result
 (_validate_domain_snapshot). Records are already parsed; a record that does not parse fails the
 migration before anything here.
 */
module CredentialMigration {
  import opened Results

  type Credential = Uuid

  datatype Grant = Grant(person: Uuid, accessPoint: Uuid, credential: Credential)

  datatype Metadata = Metadata(person: Uuid, accessPoint: Uuid, credential: Option<Credential>, createdAt: int,
                                updatedAt: int)

  datatype Record = Record(credential: Credential, person: Uuid, enabled: bool, createdAt: int, updatedAt: int)

  datatype Relations = Relations(people: set<Uuid>, grants: seq<Grant>, metadata: seq<Metadata>)

  /** A parsed AccessMetadata is never updated before it was created. */
  ghost predicate Parsed(x: Relations) {
    forall i :: 0 <= i < |x.metadata| ==> x.metadata[i].createdAt <= x.metadata[i].updatedAt
  }

  // ----- what a legitimate person-level credential is -----

  /** Person `p` has a grant carrying `c` among the first `n`. */
  ghost predicate GrantCarries(grants: seq<Grant>, n: nat, p: Uuid, c: Credential)
    requires n <= |grants|
  {
    exists i :: 0 <= i < n && grants[i].person == p && grants[i].credential == c
  }

  ghost predicate GrantAt(grants: seq<Grant>, n: nat, p: Uuid, a: Uuid)
    requires n <= |grants|
  {
    exists i :: 0 <= i < n && grants[i].person == p && grants[i].accessPoint == a
  }

  ghost predicate MetadataCarries(metadata: seq<Metadata>, n: nat, p: Uuid, c: Option<Credential>)
    requires n <= |metadata|
  {
    exists i :: 0 <= i < n && metadata[i].person == p && metadata[i].credential == c
  }

  ghost predicate MetadataAt(metadata: seq<Metadata>, n: nat, p: Uuid, a: Uuid)
    requires n <= |metadata|
  {
    exists i :: 0 <= i < n && metadata[i].person == p && metadata[i].accessPoint == a
  }

  /** Anyone, also a person who no longer exists, referring to `c` anywhere. */
  ghost predicate Refers(x: Relations, p: Uuid, c: Credential) {
    GrantCarries(x.grants, |x.grants|, p, c) || MetadataCarries(x.metadata, |x.metadata|, p, Some(c))
  }

  /** Every relationship is on both sides: a grant and metadata for the same Doors. */
  ghost predicate TwoSided(x: Relations, p: Uuid) {
    forall a :: GrantAt(x.grants, |x.grants|, p, a) <==> MetadataAt(x.metadata, |x.metadata|, p, a)
  }

  /**
   `c` is unmistakably the one credential of person `p`: they exist, have relationships, all of
   them two-sided and all carrying `c`, and nobody else refers to it.
   */
  ghost predicate Authority(x: Relations, p: Uuid, c: Credential) {
    && p in x.people
    && TwoSided(x, p)
    && MetadataCarries(x.metadata, |x.metadata|, p, Some(c))
    && !MetadataCarries(x.metadata, |x.metadata|, p, None)
    && (forall d :: Refers(x, p, d) ==> d == c)
    && (forall q :: Refers(x, q, c) ==> q == p)
  }

  // ----- the dictionaries the migration builds -----

  function Of(m: map<Uuid, set<Uuid>>, k: Uuid): set<Uuid> {
    if k in m then m[k] else {}
  }

  function Added(m: map<Uuid, set<Uuid>>, k: Uuid, v: Uuid): map<Uuid, set<Uuid>> {
    m[k := Of(m, k) + {v}]
  }

  /** The dictionary of owners of each credential, and of each person's references. */
  ghost predicate OwnersFiled(grants: seq<Grant>, n: nat, metadata: seq<Metadata>, m: nat,
                              owners: map<Credential, set<Uuid>>)
    requires n <= |grants| && m <= |metadata|
  {
    forall p: Uuid, c: Credential ::
      p in Of(owners, c) <==> GrantCarries(grants, n, p, c) || MetadataCarries(metadata, m, p, Some(c))
  }

  ghost predicate ReferencesFiled(people: set<Uuid>, grants: seq<Grant>, n: nat, metadata: seq<Metadata>, m: nat,
                                  references: map<Uuid, set<Credential>>)
    requires n <= |grants| && m <= |metadata|
  {
    forall p: Uuid, c: Credential ::
      c in Of(references, p) <==>
      GrantCarries(grants, n, p, c) || (p in people && MetadataCarries(metadata, m, p, Some(c)))
  }

  lemma {:induction false} GrantCarriesNext(grants: seq<Grant>, i: nat, p: Uuid, c: Credential)
    requires i < |grants|
    ensures GrantCarries(grants, i + 1, p, c)
            <==> GrantCarries(grants, i, p, c) || (grants[i].person == p && grants[i].credential == c)
  {
  }

  lemma {:induction false} GrantAtNext(grants: seq<Grant>, i: nat, p: Uuid, a: Uuid)
    requires i < |grants|
    ensures GrantAt(grants, i + 1, p, a)
            <==> GrantAt(grants, i, p, a) || (grants[i].person == p && grants[i].accessPoint == a)
  {
  }

  lemma {:induction false} MetadataCarriesNext(metadata: seq<Metadata>, i: nat, p: Uuid, c: Option<Credential>)
    requires i < |metadata|
    ensures MetadataCarries(metadata, i + 1, p, c)
            <==> MetadataCarries(metadata, i, p, c) || (metadata[i].person == p && metadata[i].credential == c)
  {
  }

  lemma {:induction false} MetadataAtNext(metadata: seq<Metadata>, i: nat, p: Uuid, a: Uuid)
    requires i < |metadata|
    ensures MetadataAt(metadata, i + 1, p, a)
            <==> MetadataAt(metadata, i, p, a) || (metadata[i].person == p && metadata[i].accessPoint == a)
  {
  }

  lemma {:induction false} FileOwner(grants: seq<Grant>, i: nat, metadata: seq<Metadata>,
                                     owners: map<Credential, set<Uuid>>)
    requires i < |grants| && OwnersFiled(grants, i, metadata, 0, owners)
    ensures OwnersFiled(grants, i + 1, metadata, 0, Added(owners, grants[i].credential, grants[i].person))
  {
    forall p: Uuid, c: Credential
      ensures p in Of(Added(owners, grants[i].credential, grants[i].person), c)
              <==> GrantCarries(grants, i + 1, p, c) || MetadataCarries(metadata, 0, p, Some(c))
    {
      GrantCarriesNext(grants, i, p, c);
    }
  }

  lemma {:induction false} FileReference(people: set<Uuid>, grants: seq<Grant>, i: nat, metadata: seq<Metadata>,
                                         references: map<Uuid, set<Credential>>)
    requires i < |grants| && ReferencesFiled(people, grants, i, metadata, 0, references)
    ensures ReferencesFiled(people, grants, i + 1, metadata, 0,
                            Added(references, grants[i].person, grants[i].credential))
  {
    var after := Added(references, grants[i].person, grants[i].credential);
    var next := i + 1;
    forall p: Uuid, c: Credential
      ensures c in Of(after, p)
              <==> GrantCarries(grants, next, p, c) || (p in people && MetadataCarries(metadata, 0, p, Some(c)))
    {
      GrantCarriesNext(grants, i, p, c);
    }
  }

  /** A person's grants by Door; where there are several, one of them. */
  ghost predicate GrantsFiled(grants: seq<Grant>, n: nat, byPerson: map<Uuid, map<Uuid, Grant>>)
    requires n <= |grants|
  {
    && (forall p, a :: p in byPerson && a in byPerson[p] ==> GrantCarries(grants, n, p, byPerson[p][a].credential))
    && (forall p: Uuid, a: Uuid :: GrantAt(grants, n, p, a) <==> p in byPerson && a in byPerson[p])
  }

  function Filed(byPerson: map<Uuid, map<Uuid, Grant>>, g: Grant): map<Uuid, map<Uuid, Grant>> {
    var own := if g.person in byPerson then byPerson[g.person] else map[];
    byPerson[g.person := own[g.accessPoint := g]]
  }

  lemma {:induction false} FileGrant(grants: seq<Grant>, i: nat, byPerson: map<Uuid, map<Uuid, Grant>>)
    requires i < |grants| && GrantsFiled(grants, i, byPerson)
    ensures GrantsFiled(grants, i + 1, Filed(byPerson, grants[i]))
  {
    var after: map<Uuid, map<Uuid, Grant>> := Filed(byPerson, grants[i]);
    forall p: Uuid, a: Uuid | p in after && a in after[p]
      ensures GrantCarries(grants, i + 1, p, after[p][a].credential)
    {
      GrantCarriesNext(grants, i, p, after[p][a].credential);
    }
    var next := i + 1;
    forall p: Uuid, a: Uuid ensures GrantAt(grants, next, p, a) <==> p in after && a in after[p] {
      GrantAtNext(grants, i, p, a);
    }
  }

  method ScanGrants(grants: seq<Grant>, ghost people: set<Uuid>, ghost metadata: seq<Metadata>)
    returns (byPerson: map<Uuid, map<Uuid, Grant>>, owners: map<Credential, set<Uuid>>,
             references: map<Uuid, set<Credential>>)
    ensures OwnersFiled(grants, |grants|, metadata, 0, owners)
    ensures ReferencesFiled(people, grants, |grants|, metadata, 0, references)
    ensures GrantsFiled(grants, |grants|, byPerson)
  {
    byPerson, owners, references := map[], map[], map[];
    for i := 0 to |grants|
      invariant OwnersFiled(grants, i, metadata, 0, owners)
      invariant ReferencesFiled(people, grants, i, metadata, 0, references)
      invariant GrantsFiled(grants, i, byPerson)
    {
      var g := grants[i];
      FileGrant(grants, i, byPerson);
      FileOwner(grants, i, metadata, owners);
      FileReference(people, grants, i, metadata, references);
      byPerson := Filed(byPerson, g);
      owners := Added(owners, g.credential, g.person);
      references := Added(references, g.person, g.credential);
    }
  }

  /** The metadata with a credential of one person, in stored order. */
  function RecordsOf(metadata: seq<Metadata>, n: nat, p: Uuid): seq<Metadata>
    requires n <= |metadata|
  {
    if n == 0 then []
    else if metadata[n - 1].person == p && metadata[n - 1].credential.Some?
    then RecordsOf(metadata, n - 1, p) + [metadata[n - 1]]
    else RecordsOf(metadata, n - 1, p)
  }

  ghost predicate CandidatesFiled(people: set<Uuid>, metadata: seq<Metadata>, n: nat,
                                  candidates: map<Uuid, seq<Metadata>>)
    requires n <= |metadata|
  {
    && (forall p :: p in candidates ==>
         p in people && candidates[p] == RecordsOf(metadata, n, p) && candidates[p] != [])
    && (forall p :: p in people && RecordsOf(metadata, n, p) != [] ==> p in candidates)
  }

  ghost predicate IncompleteFiled(people: set<Uuid>, metadata: seq<Metadata>, n: nat, incomplete: set<Uuid>)
    requires n <= |metadata|
  {
    forall p: Uuid :: p in incomplete <==> p in people && MetadataCarries(metadata, n, p, None)
  }

  function Appended(candidates: map<Uuid, seq<Metadata>>, m: Metadata): map<Uuid, seq<Metadata>> {
    candidates[m.person := (if m.person in candidates then candidates[m.person] else []) + [m]]
  }

  /** What one metadata record adds: nothing to the person's own dictionaries when they no longer exist. */
  lemma {:induction false} FileMetadata(people: set<Uuid>, grants: seq<Grant>, metadata: seq<Metadata>, i: nat,
                                        owners: map<Credential, set<Uuid>>, references: map<Uuid, set<Credential>>)
    requires i < |metadata|
    requires OwnersFiled(grants, |grants|, metadata, i, owners)
    requires ReferencesFiled(people, grants, |grants|, metadata, i, references)
    ensures var m := metadata[i];
            OwnersFiled(grants, |grants|, metadata, i + 1,
                        if m.credential.Some? then Added(owners, m.credential.value, m.person) else owners)
            && ReferencesFiled(people, grants, |grants|, metadata, i + 1,
                               if m.credential.Some? && m.person in people
                               then Added(references, m.person, m.credential.value) else references)
  {
    var m := metadata[i];
    var owners' := if m.credential.Some? then Added(owners, m.credential.value, m.person) else owners;
    var references' := if m.credential.Some? && m.person in people
                       then Added(references, m.person, m.credential.value) else references;
    forall p: Uuid, c: Credential
      ensures p in Of(owners', c)
              <==> GrantCarries(grants, |grants|, p, c) || MetadataCarries(metadata, i + 1, p, Some(c))
      ensures c in Of(references', p)
              <==> GrantCarries(grants, |grants|, p, c) || (p in people && MetadataCarries(metadata, i + 1, p, Some(c)))
    {
      MetadataCarriesNext(metadata, i, p, Some(c));
    }
  }

  lemma {:induction false} FileCandidate(people: set<Uuid>, metadata: seq<Metadata>, i: nat,
                                         candidates: map<Uuid, seq<Metadata>>, incomplete: set<Uuid>)
    requires i < |metadata| && CandidatesFiled(people, metadata, i, candidates)
    requires IncompleteFiled(people, metadata, i, incomplete)
    ensures var m := metadata[i];
            CandidatesFiled(people, metadata, i + 1,
                            if m.person in people && m.credential.Some? then Appended(candidates, m) else candidates)
            && IncompleteFiled(people, metadata, i + 1,
                               if m.person in people && m.credential.None? then incomplete + {m.person} else incomplete)
  {
    forall p: Uuid ensures MetadataCarries(metadata, i + 1, p, None)
                           <==> MetadataCarries(metadata, i, p, None)
                                || (metadata[i].person == p && metadata[i].credential == None)
    {
      MetadataCarriesNext(metadata, i, p, None);
    }
  }

  method ScanMetadata(people: set<Uuid>, ghost grants: seq<Grant>, metadata: seq<Metadata>,
                      owners0: map<Credential, set<Uuid>>, references0: map<Uuid, set<Credential>>)
    returns (candidates: map<Uuid, seq<Metadata>>, incomplete: set<Uuid>,
             owners: map<Credential, set<Uuid>>, references: map<Uuid, set<Credential>>)
    requires OwnersFiled(grants, |grants|, metadata, 0, owners0)
    requires ReferencesFiled(people, grants, |grants|, metadata, 0, references0)
    ensures CandidatesFiled(people, metadata, |metadata|, candidates)
    ensures IncompleteFiled(people, metadata, |metadata|, incomplete)
    ensures OwnersFiled(grants, |grants|, metadata, |metadata|, owners)
    ensures ReferencesFiled(people, grants, |grants|, metadata, |metadata|, references)
  {
    candidates, incomplete, owners, references := map[], {}, owners0, references0;
    for i := 0 to |metadata|
      invariant CandidatesFiled(people, metadata, i, candidates)
      invariant IncompleteFiled(people, metadata, i, incomplete)
      invariant OwnersFiled(grants, |grants|, metadata, i, owners)
      invariant ReferencesFiled(people, grants, |grants|, metadata, i, references)
    {
      var m := metadata[i];
      FileMetadata(people, grants, metadata, i, owners, references);
      FileCandidate(people, metadata, i, candidates, incomplete);
      if m.person !in people {
        if m.credential.Some? { owners := Added(owners, m.credential.value, m.person); }
        continue;
      }
      if m.credential.None? {
        incomplete := incomplete + {m.person};
        continue;
      }
      candidates := Appended(candidates, m);
      owners := Added(owners, m.credential.value, m.person);
      references := Added(references, m.person, m.credential.value);
    }
  }

  // ----- the decision for one person -----

  function DoorsOf(records: seq<Metadata>): set<Uuid> {
    set i | 0 <= i < |records| :: records[i].accessPoint
  }

  /** Compare a person's metadata with their grants, Door by Door. */
  method PairsAgree(records: seq<Metadata>, grants: map<Uuid, Grant>) returns (agree: bool)
    ensures agree ==> DoorsOf(records) == grants.Keys
    ensures !agree ==> DoorsOf(records) != grants.Keys
                       || exists a, i :: a in grants && 0 <= i < |records|
                            && records[i].credential != Some(grants[a].credential)
  {
    var byDoor: map<Uuid, Metadata> := map[];
    for i := 0 to |records|
      invariant byDoor.Keys == set j | 0 <= j < i :: records[j].accessPoint
      invariant forall a :: a in byDoor ==> exists j :: 0 <= j < i && records[j] == byDoor[a]
    {
      byDoor := byDoor[records[i].accessPoint := records[i]];
    }
    agree := byDoor.Keys == grants.Keys;
    if agree {
      var todo := grants.Keys;
      while todo != {}
        invariant todo <= grants.Keys
        decreases |todo|
      {
        var a :| a in todo;
        todo := todo - {a};
        if byDoor[a].credential != Some(grants[a].credential) { return false; }
      }
    }
  }

  /** The credential a person's relationships agree on, if they do. */
  method Consistent(records: seq<Metadata>, incomplete: bool, grants: map<Uuid, Grant>, references: set<Credential>)
    returns (r: Option<Credential>)
    requires forall i :: 0 <= i < |records| ==> records[i].credential.Some? && records[i].credential.value in references
    requires forall a :: a in grants ==> grants[a].credential in references
    ensures forall c :: r == Some(c) <==> !incomplete && references == {c} && DoorsOf(records) == grants.Keys
  {
    if incomplete { return None; }
    var agree := PairsAgree(records, grants);
    if !agree {
      forall c | references == {c} ensures DoorsOf(records) != grants.Keys {
        assert forall i :: 0 <= i < |records| ==> records[i].credential.value in references;
      }
      return None;
    }
    if |references| != 1 {
      assert forall c :: references == {c} ==> |references| == |{c}|;
      return None;
    }
    var c :| c in references;
    assert references == {c} by {
      assert |references - {c}| == 0;
    }
    r := Some(c);
  }

  // ----- times -----

  function MinCreated(records: seq<Metadata>): (t: int)
    requires records != []
    ensures forall i :: 0 <= i < |records| ==> t <= records[i].createdAt
    ensures exists i :: 0 <= i < |records| && records[i].createdAt == t
  {
    var last := records[|records| - 1];
    if |records| == 1 then assert records[0].createdAt == last.createdAt; last.createdAt
    else
      var rest := records[..|records| - 1];
      assert forall i :: 0 <= i < |rest| ==> rest[i] == records[i];
      Min(MinCreated(rest), last.createdAt)
  }

  function MaxUpdated(records: seq<Metadata>): (t: int)
    requires records != []
    ensures forall i :: 0 <= i < |records| ==> records[i].updatedAt <= t
    ensures exists i :: 0 <= i < |records| && records[i].updatedAt == t
  {
    var last := records[|records| - 1];
    if |records| == 1 then assert records[0].updatedAt == last.updatedAt; last.updatedAt
    else
      var rest := records[..|records| - 1];
      assert forall i :: 0 <= i < |rest| ==> rest[i] == records[i];
      Max(MaxUpdated(rest), last.updatedAt)
  }

  // ----- the migration -----

  /** A record is the person's own authority, dated by the metadata that supports it. */
  ghost predicate RecordRight(x: Relations, p: Uuid, r: Record) {
    var own := RecordsOf(x.metadata, |x.metadata|, p);
    && Authority(x, p, r.credential) && r.person == p && r.enabled
    && own != [] && r.createdAt == MinCreated(own) && r.updatedAt == MaxUpdated(own)
  }

  /** Exactly the people with an authority get a record. */
  ghost predicate Migrated(x: Relations, records: map<Uuid, Record>) {
    && (forall p :: p in records ==> RecordRight(x, p, records[p]))
    && (forall p: Uuid, c: Credential :: Authority(x, p, c) ==> p in records)
  }

  /** The same for the people decided so far. */
  ghost predicate Progress(x: Relations, records: map<Uuid, Record>, decided: set<Uuid>) {
    && (forall p :: p in records ==> p in decided && RecordRight(x, p, records[p]))
    && (forall p: Uuid, c: Credential :: p in decided && Authority(x, p, c) ==> p in records)
  }

  /** One turn of the last two loops: whether a candidate gets a record, and which. */
  method DecidePerson(x: Relations, p: Uuid, records: seq<Metadata>, incomplete: bool, grants: map<Uuid, Grant>,
                      references: set<Credential>, owners: map<Credential, set<Uuid>>)
    returns (r: Option<Record>)
    requires p in x.people && records == RecordsOf(x.metadata, |x.metadata|, p) && records != []
    requires incomplete <==> MetadataCarries(x.metadata, |x.metadata|, p, None)
    requires forall a: Uuid :: GrantAt(x.grants, |x.grants|, p, a) <==> a in grants
    requires forall a :: a in grants ==> GrantCarries(x.grants, |x.grants|, p, grants[a].credential)
    requires forall c: Credential :: c in references <==> Refers(x, p, c)
    requires forall q: Uuid, c: Credential :: q in Of(owners, c) <==> Refers(x, q, c)
    ensures r.Some? ==> RecordRight(x, p, r.value)
    ensures r.None? ==> forall c: Credential :: !Authority(x, p, c)
  {
    RecordsFacts(x.metadata, |x.metadata|, p);
    var agreed := Consistent(records, incomplete, grants, references);
    if agreed.None? || Of(owners, agreed.value) != {p} {
      forall c: Credential ensures !Authority(x, p, c) {
        if Authority(x, p, c) { AuthorityDecides(x, p, c, records, grants, references, owners); }
      }
      return None;
    }
    DecisionIsAuthority(x, p, agreed.value, records, grants, references, owners);
    r := Some(Record(agreed.value, records[0].person, true, MinCreated(records), MaxUpdated(records)));
  }

  method MigrateCredentials(x: Relations) returns (records: map<Uuid, Record>)
    ensures Migrated(x, records)
  {
    var byPerson, owners0, references0 := ScanGrants(x.grants, x.people, x.metadata);
    var candidates, incomplete, owners, references :=
      ScanMetadata(x.people, x.grants, x.metadata, owners0, references0);
    records := map[];
    var todo := candidates.Keys;
    while todo != {}
      invariant todo <= candidates.Keys
      invariant Progress(x, records, candidates.Keys - todo)
      decreases |todo|
    {
      var p :| p in todo;
      todo := todo - {p};
      var grants := if p in byPerson then byPerson[p] else map[];
      var r := DecidePerson(x, p, candidates[p], p in incomplete, grants, Of(references, p), owners);
      if r.Some? { records := records[p := r.value]; }
    }
    forall p: Uuid, c: Credential | Authority(x, p, c) ensures p in records {
      RecordsFacts(x.metadata, |x.metadata|, p);
      assert p in candidates;
    }
  }

  lemma {:induction false} RecordsFacts(metadata: seq<Metadata>, n: nat, p: Uuid)
    requires n <= |metadata|
    ensures forall i :: 0 <= i < |RecordsOf(metadata, n, p)| ==>
              RecordsOf(metadata, n, p)[i].person == p && RecordsOf(metadata, n, p)[i].credential.Some?
              && MetadataCarries(metadata, n, p, RecordsOf(metadata, n, p)[i].credential)
    ensures forall c: Credential :: MetadataCarries(metadata, n, p, Some(c)) ==> RecordsOf(metadata, n, p) != []
    ensures !MetadataCarries(metadata, n, p, None) ==>
              forall a: Uuid :: a in DoorsOf(RecordsOf(metadata, n, p)) <==> MetadataAt(metadata, n, p, a)
  {
    if n > 0 {
      RecordsFacts(metadata, n - 1, p);
      forall c: Option<Credential>
        ensures MetadataCarries(metadata, n, p, c)
                <==> MetadataCarries(metadata, n - 1, p, c)
                     || (metadata[n - 1].person == p && metadata[n - 1].credential == c)
      {
        MetadataCarriesNext(metadata, n - 1, p, c);
      }
      forall a: Uuid
        ensures MetadataAt(metadata, n, p, a)
                <==> MetadataAt(metadata, n - 1, p, a)
                     || (metadata[n - 1].person == p && metadata[n - 1].accessPoint == a)
      {
        MetadataAtNext(metadata, n - 1, p, a);
      }
      var front, records := RecordsOf(metadata, n - 1, p), RecordsOf(metadata, n, p);
      if metadata[n - 1].person == p && metadata[n - 1].credential.Some? {
        assert DoorsOf(records) == DoorsOf(front) + {metadata[n - 1].accessPoint} by {
          assert records[|front|] == metadata[n - 1];
          assert forall i :: 0 <= i < |front| ==> records[i] == front[i];
        }
      }
    }
  }

  /** The tests the migration makes establish the authority. */
  lemma {:induction false} DecisionIsAuthority(x: Relations, p: Uuid, c: Credential, records: seq<Metadata>,
                                               grants: map<Uuid, Grant>,
                                               references: set<Credential>, owners: map<Credential, set<Uuid>>)
    requires p in x.people && records == RecordsOf(x.metadata, |x.metadata|, p) && records != []
    requires !MetadataCarries(x.metadata, |x.metadata|, p, None)
    requires forall a: Uuid :: GrantAt(x.grants, |x.grants|, p, a) <==> a in grants
    requires forall d: Credential :: d in references <==> Refers(x, p, d)
    requires forall q: Uuid, d: Credential :: q in Of(owners, d) <==> Refers(x, q, d)
    requires references == {c} && DoorsOf(records) == grants.Keys && Of(owners, c) == {p}
    ensures Authority(x, p, c)
  {
    RecordsFacts(x.metadata, |x.metadata|, p);
    var d := records[0].credential.value;
    assert records[0].credential == Some(d) && MetadataCarries(x.metadata, |x.metadata|, p, Some(d));
    assert Refers(x, p, d);
    assert d in references;
    assert forall q: Uuid :: Refers(x, q, c) ==> q in Of(owners, c);
    assert forall e: Credential :: Refers(x, p, e) ==> e in references;
  }

  /** And an authority passes them. */
  lemma {:induction false} AuthorityDecides(x: Relations, p: Uuid, c: Credential, records: seq<Metadata>,
                                            grants: map<Uuid, Grant>,
                                            references: set<Credential>, owners: map<Credential, set<Uuid>>)
    requires Authority(x, p, c) && records == RecordsOf(x.metadata, |x.metadata|, p)
    requires forall a: Uuid :: GrantAt(x.grants, |x.grants|, p, a) <==> a in grants
    requires forall d: Credential :: d in references <==> Refers(x, p, d)
    requires forall q: Uuid, d: Credential :: q in Of(owners, d) <==> Refers(x, q, d)
    ensures references == {c} && DoorsOf(records) == grants.Keys && Of(owners, c) == {p}
  {
    RecordsFacts(x.metadata, |x.metadata|, p);
    assert Refers(x, p, c);
    forall d: Credential ensures d in references <==> d == c {
    }
    forall q: Uuid ensures q in Of(owners, c) <==> q == p {
    }
    forall a: Uuid ensures a in DoorsOf(records) <==> a in grants {
      assert MetadataAt(x.metadata, |x.metadata|, p, a) <==> GrantAt(x.grants, |x.grants|, p, a);
    }
  }

  // ----- the validator -----

  /**
   Everything `_validate_domain_snapshot` asks of credential records, on the people, grants and
   metadata beside them.
   */
  ghost predicate CredentialChecks(x: Relations, records: map<Uuid, Record>) {
    && (forall p :: p in records ==> records[p].person == p && p in x.people)
    && (forall p, q :: p in records && q in records && p != q ==> records[p].credential != records[q].credential)
    && (forall p :: p in records ==> OwnersAgree(x, p, records[p].credential))
    && (forall p :: p in records ==> records[p].createdAt <= records[p].updatedAt)
  }

  ghost predicate OwnersAgree(x: Relations, p: Uuid, c: Credential) {
    && (forall i :: 0 <= i < |x.grants| && x.grants[i].person == p ==> x.grants[i].credential == c)
    && (forall i :: 0 <= i < |x.grants| && x.grants[i].person != p ==> x.grants[i].credential != c)
    && (forall i :: 0 <= i < |x.metadata| && x.metadata[i].person == p ==> x.metadata[i].credential == Some(c))
    && (forall i :: 0 <= i < |x.metadata| && x.metadata[i].person != p ==> x.metadata[i].credential != Some(c))
  }

  /** An authority is what the validator demands, plus evidence on both sides. */
  lemma {:induction false} AuthorityIff(x: Relations, p: Uuid, c: Credential)
    ensures Authority(x, p, c) <==>
              p in x.people && OwnersAgree(x, p, c) && TwoSided(x, p)
                  && (exists i :: 0 <= i < |x.metadata| && x.metadata[i].person == p)
  {
    if Authority(x, p, c) {
      forall i | 0 <= i < |x.grants| ensures x.grants[i].person == p <==> x.grants[i].credential == c {
        assert Refers(x, x.grants[i].person, x.grants[i].credential);
      }
      forall i | 0 <= i < |x.metadata| ensures x.metadata[i].person == p <==> x.metadata[i].credential == Some(c) {
        assert MetadataCarries(x.metadata, |x.metadata|, x.metadata[i].person, x.metadata[i].credential);
        if x.metadata[i].credential.Some? {
          assert Refers(x, x.metadata[i].person, x.metadata[i].credential.value);
        }
      }
    }
  }

  /** Whatever schema 13 held, what the migration writes passes every credential check of the validator. */
  lemma {:induction false} MigrationPassesValidation(x: Relations, records: map<Uuid, Record>)
    requires Parsed(x) && Migrated(x, records)
    ensures CredentialChecks(x, records)
  {
    forall p | p in records ensures OwnersAgree(x, p, records[p].credential) {
      AuthorityIff(x, p, records[p].credential);
    }
    forall p, q | p in records && q in records && records[p].credential == records[q].credential ensures p == q {
      assert Refers(x, p, records[p].credential);
      assert Refers(x, q, records[q].credential);
    }
    forall p | p in records ensures records[p].createdAt <= records[p].updatedAt {
      var own := RecordsOf(x.metadata, |x.metadata|, p);
      RecordsAreMetadata(x.metadata, |x.metadata|, p);
      assert own[0] in x.metadata;
    }
  }

  lemma {:induction false} RecordsAreMetadata(metadata: seq<Metadata>, n: nat, p: Uuid)
    requires n <= |metadata|
    ensures forall m :: m in RecordsOf(metadata, n, p) ==> m in metadata
  {
    if n > 0 { RecordsAreMetadata(metadata, n - 1, p); }
  }

  /**
   And nobody is left out who could be given one: if some set of records the validator accepts
   has one for a person with two-sided relationships, the migration has the same credential for them.
   */
  lemma {:induction false} MigrationIsMaximal(x: Relations, records: map<Uuid, Record>, others: map<Uuid, Record>,
                                              p: Uuid)
    requires Migrated(x, records) && CredentialChecks(x, others) && p in others
    requires TwoSided(x, p) && exists i :: 0 <= i < |x.metadata| && x.metadata[i].person == p
    ensures p in records && records[p].credential == others[p].credential
  {
    AuthorityIff(x, p, others[p].credential);
    AuthorityIff(x, p, records[p].credential);
    var i :| 0 <= i < |x.metadata| && x.metadata[i].person == p;
  }
}
