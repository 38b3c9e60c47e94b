/** What one HR record makes of a user. */
module HrProjection {
  import opened Wrappers
  import opened Directory

  datatype LifecycleEvent = Joiner | Mover | Leaver

  datatype HrRecord = HrRecord(
    externalId: string,
    userName: string,
    email: Option<string>,
    displayName: Option<string>,
    department: Option<string>,
    managerExternalId: Option<string>,
    event: LifecycleEvent)

  /** A mover without a value clears the attribute; other events keep it. */
  function HrAttribute(m: map<Key, Json>, key: Key, value: Option<Json>, event: LifecycleEvent): map<Key, Json> {
    if value.Some? || event.Mover? then Put(m, key, value) else m
  }

  function HrFields(m: map<Key, Json>, r: HrRecord): map<Key, Json> {
    var m1 := HrAttribute(m, Department, OptionalStr(r.department), r.event);
    var m2 := HrAttribute(m1, Manager, ManagerJson(r.managerExternalId), r.event);
    m2[Source := Str(HR_SOURCE_SCHEMA)][EmploymentState := EmploymentJson(!r.event.Leaver?)]
  }

  function MarkHrSource(u: User, r: HrRecord): User {
    u.(enterprise := Obj(HrFields(Fields(u.enterprise), r)))
  }

  function ApplyHrRecord(u: User, r: HrRecord): User {
    var v := ClearDeprovisioned(u.(externalId := Some(r.externalId), userName := r.userName, active := true));
    MarkHrSource(v.(name := NameJson(r.displayName), emails := EmailsJson(r.email)), r)
  }

  function ApplyLeaver(u: User, r: HrRecord, now: nat): User {
    MarkDeprovisioned(MarkHrSource(u.(active := false), r), now)
  }

  /** The blank record a new HR user is projected onto. */
  function BlankHrUser(id: string, realm: string, r: HrRecord): User {
    User(id, realm, Some(r.externalId), r.userName, Obj(map[]), Arr([]), Obj(map[]), None, None, true)
  }

  function UserFromHrRecord(id: string, realm: string, r: HrRecord): User {
    ApplyHrRecord(BlankHrUser(id, realm, r), r)
  }

  /** Each `enterprise` attribute after a joiner or mover record. */
  function HrProjected(before: User, r: HrRecord, key: Key): Option<Json> {
    match key
    case Source => Some(Str(HR_SOURCE_SCHEMA))
    case EmploymentState => Some(EmploymentJson(!r.event.Leaver?))
    case Department => if r.department.Some? || r.event.Mover? then OptionalStr(r.department)
                       else Attribute(before, key)
    case Manager => if r.managerExternalId.Some? || r.event.Mover? then ManagerJson(r.managerExternalId)
                    else Attribute(before, key)
    case DeprovisionedAt => None
    case _ => Attribute(before, key)
  }

  lemma HrFieldsAt(m: map<Key, Json>, r: HrRecord, key: Key)
    ensures Lookup(HrFields(m, r), key) ==
            match key
            case Source => Some(Str(HR_SOURCE_SCHEMA))
            case EmploymentState => Some(EmploymentJson(!r.event.Leaver?))
            case Department => if r.department.Some? || r.event.Mover? then OptionalStr(r.department)
                               else Lookup(m, key)
            case Manager => if r.managerExternalId.Some? || r.event.Mover? then ManagerJson(r.managerExternalId)
                            else Lookup(m, key)
            case _ => Lookup(m, key)
  {
    var m1 := HrAttribute(m, Department, OptionalStr(r.department), r.event);
    var m2 := HrAttribute(m1, Manager, ManagerJson(r.managerExternalId), r.event);
    assert key != Department ==> Lookup(m1, key) == Lookup(m, key);
    assert key != Manager ==> Lookup(m2, key) == Lookup(m1, key);
  }

  /** A joiner or mover record sets the user active without a timestamp, sets
      or clears exactly its own attributes, and touches no other. */
  lemma ApplyHrRecordProjects(u: User, r: HrRecord)
    ensures var v := ApplyHrRecord(u, r);
            && v.id == u.id && v.realmId == u.realmId && v.directoryProviderId == u.directoryProviderId
            && v.externalId == Some(r.externalId) && v.userName == r.userName
            && v.active && v.deprovisionedAt == None
            && v.name == Obj(if r.displayName.Some? then map[Formatted := Str(r.displayName.value)] else map[])
            && v.emails == Arr(if r.email.Some? then [Obj(map[Value := Str(r.email.value), Primary := Bool(true)])]
                               else [])
            && v.enterprise.Obj? && forall key :: Attribute(v, key) == HrProjected(u, r, key)
  {
    forall key ensures Attribute(ApplyHrRecord(u, r), key) == HrProjected(u, r, key) {
      HrFieldsAt(Fields(u.enterprise) - {DeprovisionedAt}, r, key);
    }
  }

  /** A leaver record deactivates and stamps the user, and keeps what else the
      record does not set. */
  lemma ApplyLeaverProjects(u: User, r: HrRecord, now: nat)
    requires r.event.Leaver?
    ensures var v := ApplyLeaver(u, r, now);
            && v == u.(active := false, deprovisionedAt := Some(now), enterprise := v.enterprise)
            && Attribute(v, DeprovisionedAt) == Some(Num(now))
            && Attribute(v, LifecycleSource) == Some(Str(LIFECYCLE_SCHEMA))
            && forall key | key !in {DeprovisionedAt, LifecycleSource} :: Attribute(v, key) == HrProjected(u, r, key)
  {
    var v := ApplyLeaver(u, r, now);
    forall key | key !in {DeprovisionedAt, LifecycleSource} ensures Attribute(v, key) == HrProjected(u, r, key) {
      HrFieldsAt(Fields(u.enterprise), r, key);
    }
  }

  lemma HrAttributesRead(u: User, v: User, r: HrRecord)
    requires forall key | key in {Department, Manager, EmploymentState} :: Attribute(v, key) == HrProjected(u, r, key)
    ensures DepartmentOf(v) == if r.department.Some? || r.event.Mover? then r.department else DepartmentOf(u)
    ensures ManagerId(v) == if r.managerExternalId.Some? || r.event.Mover? then r.managerExternalId else ManagerId(u)
    ensures EmploymentOf(v) == Some(if r.event.Leaver? then Inactive else Active)
  {
    assert Attribute(v, Department) == HrProjected(u, r, Department);
    assert Attribute(v, Manager) == HrProjected(u, r, Manager);
    assert Attribute(v, EmploymentState) == HrProjected(u, r, EmploymentState);
    EmploymentOfIff(v, if r.event.Leaver? then Inactive else Active);
  }

  /** What reads back after a record: its department and manager, or without one
      the old value unless a mover clears it, and the employment it tells of. */
  lemma HrRecordReadsBack(u: User, r: HrRecord, now: nat)
    ensures var v := if r.event.Leaver? then ApplyLeaver(u, r, now) else ApplyHrRecord(u, r);
            && DepartmentOf(v) == (if r.department.Some? || r.event.Mover? then r.department else DepartmentOf(u))
            && ManagerId(v) == (if r.managerExternalId.Some? || r.event.Mover? then r.managerExternalId
                                else ManagerId(u))
            && EmploymentOf(v) == Some(if r.event.Leaver? then Inactive else Active)
  {
    if r.event.Leaver? {
      ApplyLeaverProjects(u, r, now);
      HrAttributesRead(u, ApplyLeaver(u, r, now), r);
    } else {
      ApplyHrRecordProjects(u, r);
      HrAttributesRead(u, ApplyHrRecord(u, r), r);
    }
  }

  /** Applying a joiner or mover record twice is the same as applying it once. */
  lemma ApplyHrRecordIdempotent(u: User, r: HrRecord)
    ensures ApplyHrRecord(ApplyHrRecord(u, r), r) == ApplyHrRecord(u, r)
  {
    var v := ApplyHrRecord(u, r);
    var w := ApplyHrRecord(v, r);
    ApplyHrRecordProjects(u, r);
    ApplyHrRecordProjects(v, r);
    forall key ensures Attribute(w, key) == Attribute(v, key) {
      assert Attribute(v, key) == HrProjected(u, r, key);
      assert Attribute(w, key) == HrProjected(v, r, key);
    }
    SameAttributes(v, w);
  }
}
