/** The directory's user records and the attribute projections that LDAP
    snapshots and HR records write into them. */
module Directory {
  import opened Wrappers

  /** Attribute names: the ones the code reads or writes, and all others. */
  datatype Key =
    | Source
    | LdapDn
    | LdapSyncedAt
    | Department
    | Manager
    | EmploymentState
    | LifecycleSource
    | DeprovisionedAt
    | BreakGlass
    | ExternalId
    | Formatted
    | Value
    | Primary
    | Other(text: string)

  datatype Json =
    | Null
    | Bool(b: bool)
    | Num(n: int)
    | Str(s: string)
    | Arr(items: seq<Json>)
    | Obj(fields: map<Key, Json>)

  datatype User = User(
    id: string,
    realmId: string,
    externalId: Option<string>,
    userName: string,
    name: Json,
    emails: Json,
    enterprise: Json,
    directoryProviderId: Option<string>,
    deprovisionedAt: Option<nat>,
    active: bool)

  datatype LdapEntry = LdapEntry(
    dn: string,
    uid: string,
    mail: Option<string>,
    displayName: Option<string>,
    department: Option<string>,
    managerDn: Option<string>,
    enabled: bool)

  const HR_SOURCE_SCHEMA := "urn:qid:directory:hr"
  const LIFECYCLE_SCHEMA := "urn:qid:directory:lifecycle"
  const BREAK_GLASS_SCHEMA := "urn:qid:directory:break_glass"
  const LDAP_SOURCE_SCHEMA := "urn:qid:directory:ldap"

  function Fields(j: Json): map<Key, Json> {
    match j
    case Obj(m) => m
    case _ => map[]
  }

  function Lookup(m: map<Key, Json>, key: Key): Option<Json> {
    if key in m then Some(m[key]) else None
  }

  /** One attribute of the `enterprise` object. */
  function Attribute(u: User, key: Key): Option<Json> {
    Lookup(Fields(u.enterprise), key)
  }

  function Put(m: map<Key, Json>, key: Key, value: Option<Json>): map<Key, Json> {
    match value
    case Some(v) => m[key := v]
    case None => m - {key}
  }

  function OptionalStr(s: Option<string>): Option<Json> {
    match s
    case Some(v) => Some(Str(v))
    case None => None
  }

  function ManagerJson(externalId: Option<string>): Option<Json> {
    match externalId
    case Some(v) => Some(Obj(map[ExternalId := Str(v)]))
    case None => None
  }

  function NameJson(displayName: Option<string>): Json {
    match displayName
    case Some(v) => Obj(map[Formatted := Str(v)])
    case None => Obj(map[])
  }

  function EmailsJson(mail: Option<string>): Json {
    match mail
    case Some(v) => Arr([Obj(map[Value := Str(v), Primary := Bool(true)])])
    case None => Arr([])
  }

  datatype Employment = Active | Inactive | LeavePending

  function EmploymentText(e: Employment): string {
    match e
    case Active => "active"
    case Inactive => "inactive"
    case LeavePending => "leave_pending"
  }

  function EmploymentJson(active: bool): Json {
    Str(EmploymentText(if active then Active else Inactive))
  }

  // ----- Lifecycle stamps -----------------------------------------------

  function StampFields(m: map<Key, Json>, at: nat): map<Key, Json> {
    m[LifecycleSource := Str(LIFECYCLE_SCHEMA)][DeprovisionedAt := Num(at)]
     [EmploymentState := EmploymentJson(false)]
  }

  /** The unconditional stamp of a missing user or an HR leaver. */
  function MarkDeprovisioned(u: User, at: nat): User {
    u.(deprovisionedAt := Some(at), enterprise := Obj(StampFields(Fields(u.enterprise), at)))
  }

  /** The stamp of a disabled snapshot, which keeps an earlier timestamp. */
  function EnsureDeprovisioned(u: User, at: nat): User {
    MarkDeprovisioned(u, if u.deprovisionedAt.Some? then u.deprovisionedAt.value else at)
  }

  function ClearDeprovisioned(u: User): User {
    u.(deprovisionedAt := None, enterprise := Obj(Fields(u.enterprise) - {DeprovisionedAt}))
  }

  predicate IsBreakGlass(u: User) {
    Attribute(u, BreakGlass) == Some(Bool(true))
  }

  function MarkBreakGlass(u: User): User {
    var m := Fields(u.enterprise)[Other("break_glass_source") := Str(BREAK_GLASS_SCHEMA)];
    u.(enterprise := Obj(m[BreakGlass := Bool(true)]))
  }

  // ----- Reading attributes back ----------------------------------------

  function EmploymentOf(u: User): Option<Employment> {
    match Attribute(u, EmploymentState)
    case Some(Str(state)) =>
      if state == "active" then Some(Active)
      else if state == "inactive" then Some(Inactive)
      else if state == "leave_pending" then Some(LeavePending)
      else None
    case _ => None
  }

  function DepartmentOf(u: User): Option<string> {
    match Attribute(u, Department)
    case Some(Str(v)) => Some(v)
    case _ => None
  }

  /** `manager.externalId` of the enterprise attributes, when it is a text. */
  function ManagerId(u: User): Option<string> {
    match Attribute(u, Manager)
    case Some(Obj(m)) => (match Lookup(m, ExternalId) case Some(Str(v)) => Some(v) case _ => None)
    case _ => None
  }

  // ----- LDAP projection ------------------------------------------------

  function LdapFields(m: map<Key, Json>, e: LdapEntry, at: nat): map<Key, Json> {
    var m1 := m[Source := Str(LDAP_SOURCE_SCHEMA)][LdapDn := Str(e.dn)][LdapSyncedAt := Num(at)];
    var m2 := Put(m1, Department, OptionalStr(e.department));
    var m3 := Put(m2, Manager, ManagerJson(e.managerDn));
    m3[EmploymentState := EmploymentJson(e.enabled)]
  }

  function ApplyLdapEntry(u: User, provider: string, e: LdapEntry, at: nat): User {
    var v := u.(directoryProviderId := Some(provider), externalId := Some(e.dn), userName := e.uid,
                active := e.enabled, name := NameJson(e.displayName), emails := EmailsJson(e.mail),
                enterprise := Obj(LdapFields(Fields(u.enterprise), e, at)));
    if e.enabled then ClearDeprovisioned(v) else EnsureDeprovisioned(v, at)
  }

  /** The blank record a new user is projected onto. */
  function BlankUser(id: string, realm: string, provider: string, e: LdapEntry): User {
    User(id, realm, Some(e.dn), e.uid, Obj(map[]), Arr([]), Obj(map[]), Some(provider), None, e.enabled)
  }

  function UserFromLdapEntry(id: string, realm: string, provider: string, e: LdapEntry, at: nat): User {
    ApplyLdapEntry(BlankUser(id, realm, provider, e), provider, e, at)
  }

  /** The timestamp a user carries after a snapshot: none while enabled, and
      the first one since then while disabled. */
  function StampAfter(before: User, e: LdapEntry, at: nat): Option<nat> {
    if e.enabled then None
    else if before.deprovisionedAt.Some? then before.deprovisionedAt
    else Some(at)
  }

  /** Each `enterprise` attribute after a snapshot: the projected ones have the
      entry's value or are gone, and no other one changes. */
  function ProjectedAttribute(before: User, e: LdapEntry, at: nat, key: Key): Option<Json> {
    match key
    case Source => Some(Str(LDAP_SOURCE_SCHEMA))
    case LdapDn => Some(Str(e.dn))
    case LdapSyncedAt => Some(Num(at))
    case Department => OptionalStr(e.department)
    case Manager => ManagerJson(e.managerDn)
    case EmploymentState => Some(EmploymentJson(e.enabled))
    case DeprovisionedAt =>
      (match StampAfter(before, e, at)
       case Some(t) => Some(Num(t))
       case None => None)
    case LifecycleSource => if e.enabled then Attribute(before, key) else Some(Str(LIFECYCLE_SCHEMA))
    case _ => Attribute(before, key)
  }

  ghost predicate Projects(before: User, after: User, provider: string, e: LdapEntry, at: nat) {
    && after.id == before.id && after.realmId == before.realmId
    && after.directoryProviderId == Some(provider) && after.externalId == Some(e.dn)
    && after.userName == e.uid && after.active == e.enabled
    && after.name == Obj(if e.displayName.Some? then map[Formatted := Str(e.displayName.value)] else map[])
    && after.emails == Arr(if e.mail.Some? then [Obj(map[Value := Str(e.mail.value), Primary := Bool(true)])] else [])
    && after.deprovisionedAt == StampAfter(before, e, at)
    && after.enterprise.Obj?
    && forall key :: Attribute(after, key) == ProjectedAttribute(before, e, at, key)
  }

  lemma LdapFieldsAt(m: map<Key, Json>, e: LdapEntry, at: nat, key: Key)
    ensures Lookup(LdapFields(m, e, at), key) ==
            match key
            case Source => Some(Str(LDAP_SOURCE_SCHEMA))
            case LdapDn => Some(Str(e.dn))
            case LdapSyncedAt => Some(Num(at))
            case Department => OptionalStr(e.department)
            case Manager => ManagerJson(e.managerDn)
            case EmploymentState => Some(EmploymentJson(e.enabled))
            case _ => Lookup(m, key)
  {
    var m1 := m[Source := Str(LDAP_SOURCE_SCHEMA)][LdapDn := Str(e.dn)][LdapSyncedAt := Num(at)];
    var m2 := Put(m1, Department, OptionalStr(e.department));
    var m3 := Put(m2, Manager, ManagerJson(e.managerDn));
    assert Lookup(m2, key) == if key == Department then OptionalStr(e.department) else Lookup(m1, key);
    assert Lookup(m3, key) == if key == Manager then ManagerJson(e.managerDn) else Lookup(m2, key);
  }

  /** Applying an entry writes exactly the projected attributes. */
  lemma ApplyLdapEntryProjects(u: User, provider: string, e: LdapEntry, at: nat)
    ensures Projects(u, ApplyLdapEntry(u, provider, e, at), provider, e, at)
  {
    var v := ApplyLdapEntry(u, provider, e, at);
    forall key ensures Attribute(v, key) == ProjectedAttribute(u, e, at, key) {
      LdapFieldsAt(Fields(u.enterprise), e, at, key);
    }
  }

  /** Employment reads back exactly as it is written. */
  lemma EmploymentOfIff(u: User, e: Employment)
    ensures EmploymentOf(u) == Some(e) <==> Attribute(u, EmploymentState) == Some(Str(EmploymentText(e)))
  {
    assert |"active"| == 6 && |"inactive"| == 8 && |"leave_pending"| == 13;
  }

  /** Department, manager and employment read back as the entry has them. */
  lemma ProjectedReadsBack(u: User, v: User, provider: string, e: LdapEntry, at: nat)
    requires Projects(u, v, provider, e, at)
    ensures DepartmentOf(v) == e.department && ManagerId(v) == e.managerDn
    ensures EmploymentOf(v) == Some(if e.enabled then Active else Inactive)
  {
    assert Attribute(v, Department) == ProjectedAttribute(u, e, at, Department);
    assert Attribute(v, Manager) == ProjectedAttribute(u, e, at, Manager);
    assert Attribute(v, EmploymentState) == ProjectedAttribute(u, e, at, EmploymentState);
    EmploymentOfIff(v, if e.enabled then Active else Inactive);
  }

  lemma SameAttributes(a: User, b: User)
    requires a.enterprise.Obj? && b.enterprise.Obj?
    requires forall key :: Attribute(a, key) == Attribute(b, key)
    ensures a.enterprise == b.enterprise
  {
    var m, n := a.enterprise.fields, b.enterprise.fields;
    forall key ensures key in m <==> key in n {
      assert Attribute(a, key) == Attribute(b, key);
    }
    forall key | key in m ensures m[key] == n[key] {
      assert Attribute(a, key) == Attribute(b, key);
    }
    assert m == n;
  }

  /** Applying the same entry at the same time twice changes nothing more. */
  lemma ApplyLdapEntryIdempotent(u: User, provider: string, e: LdapEntry, at: nat)
    ensures var v := ApplyLdapEntry(u, provider, e, at);
            ApplyLdapEntry(v, provider, e, at) == v
  {
    var v := ApplyLdapEntry(u, provider, e, at);
    var w := ApplyLdapEntry(v, provider, e, at);
    ApplyLdapEntryProjects(u, provider, e, at);
    ApplyLdapEntryProjects(v, provider, e, at);
    ProjectionSettles(u, v, w, provider, e, at);
  }

  lemma ProjectionSettles(u: User, v: User, w: User, provider: string, e: LdapEntry, at: nat)
    requires Projects(u, v, provider, e, at) && Projects(v, w, provider, e, at)
    ensures w == v
  {
    assert StampAfter(v, e, at) == StampAfter(u, e, at);
    forall key ensures Attribute(w, key) == Attribute(v, key) {
      assert Attribute(v, key) == ProjectedAttribute(u, e, at, key);
      assert Attribute(w, key) == ProjectedAttribute(v, e, at, key);
    }
    SameAttributes(v, w);
  }
}
