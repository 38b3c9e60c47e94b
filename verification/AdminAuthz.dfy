/** Who may change what as an administrator, one request at a time. */
module AdminAuthz {
  import opened Wrappers

  datatype Permission =
    | RealmAdmin
    | AppAdmin
    | DirectoryAdmin
    | SecurityAdmin
    | AuditRead
    | TenantAdmin
    | PlatformAdmin
    | PlatformSecurityAdmin
    | PlatformAuditRead
    | BreakGlass

  datatype Admin = Admin(id: string, tenant: string, roles: seq<string>)

  datatype Elevation = Elevation(tenant: string, acr: Option<string>, amr: seq<string>, expiresAt: nat)

  datatype Approval = Approval(id: string, tenant: string, target: string, expiresAt: nat, consumed: bool)

  datatype Security = Security(
    requireReason: bool,
    requireStepUp: bool,
    requiredAcr: string,
    requiredAmr: seq<string>,
    maxElevationSeconds: nat,
    requireApproval: bool,
    breakglassEnabled: bool)

  /** A mutation request; a break-glass one asks for the break-glass permission. */
  datatype Request = Request(
    breakGlass: bool,
    permission: Permission,
    approvalId: Option<string>,
    hasReason: bool,
    realm: Option<string>,
    pathTenant: Option<string>)
  {
    function Needs(): Permission {
      if breakGlass then BreakGlass else permission
    }
  }

  datatype Denial =
    | BreakGlassDisabled
    | ReasonMissing
    | AlreadyConsumed
    | ApprovalExpired
    | ApprovalRequired
    | NotAuthenticated
    | OtherTenant
    | RealmWithoutTenant
    | StepUpRequired
    | ElevationExpired
    | ElevationTooLong
    | RoleNotAllowed
    | OtherAdmin
    | StoreFailed

  // ----- Roles ----------------------------------------------------------

  predicate RoleAllows(permission: Permission, role: string, security: Security) {
    if role == "tenant.owner" then permission == TenantAdmin
    else if security.breakglassEnabled && role == "breakglass" then true
    else
      match permission
      case RealmAdmin => role == "realm.admin"
      case AppAdmin => role == "app.admin"
      case DirectoryAdmin => role == "directory.admin"
      case SecurityAdmin => role == "security.admin"
      case AuditRead => role == "auditor" || role == "security.admin"
      case TenantAdmin => role == "app.admin" || role == "realm.admin"
      case PlatformAdmin => role == "platform.admin"
      case PlatformSecurityAdmin => role == "platform.admin" || role == "platform.security.admin"
      case PlatformAuditRead =>
        role == "platform.admin" || role == "platform.security.admin" || role == "platform.auditor"
      case BreakGlass => false
  }

  /** The permissions each role carries, role by role; the break-glass role, while
      enabled, carries them all. */
  function Grants(role: string): set<Permission> {
    if role == "tenant.owner" then {TenantAdmin}
    else if role == "realm.admin" then {RealmAdmin, TenantAdmin}
    else if role == "app.admin" then {AppAdmin, TenantAdmin}
    else if role == "directory.admin" then {DirectoryAdmin}
    else if role == "security.admin" then {SecurityAdmin, AuditRead}
    else if role == "auditor" then {AuditRead}
    else if role == "platform.admin" then {PlatformAdmin, PlatformSecurityAdmin, PlatformAuditRead}
    else if role == "platform.security.admin" then {PlatformSecurityAdmin, PlatformAuditRead}
    else if role == "platform.auditor" then {PlatformAuditRead}
    else {}
  }

  /** Role names differ in length, but for two that differ in their first letter. */
  lemma RoleNamesDiffer()
    ensures |"tenant.owner"| == 12 && |"realm.admin"| == 11 && |"app.admin"| == 9 && |"directory.admin"| == 15
    ensures |"security.admin"| == |"platform.admin"| == 14 && "security.admin"[0] != "platform.admin"[0]
    ensures |"auditor"| == 7 && |"platform.security.admin"| == 23 && |"platform.auditor"| == 16 && |"breakglass"| == 10
  {
  }

  lemma RoleAllowsIff(permission: Permission, role: string, security: Security)
    ensures RoleAllows(permission, role, security) <==>
              permission in Grants(role) || (security.breakglassEnabled && role == "breakglass")
  {
    RoleNamesDiffer();
  }

  /** Only the break-glass role, while enabled, carries the permission. */
  lemma BreakGlassNeedsItsRole(role: string, security: Security)
    ensures RoleAllows(BreakGlass, role, security) <==> security.breakglassEnabled && role == "breakglass"
  {
    RoleAllowsIff(BreakGlass, role, security);
  }

  // ----- The checks of one request --------------------------------------

  /** What is checked before the administrator is looked at. */
  function CheckApproval(q: Request, security: Security, stored: Option<Approval>, now: nat): Option<Denial> {
    if q.breakGlass && !security.breakglassEnabled then Some(BreakGlassDisabled)
    else if security.requireReason && !q.hasReason then Some(ReasonMissing)
    else
      match stored
      case Some(a) =>
        if a.consumed then Some(AlreadyConsumed)
        else if a.expiresAt <= now then Some(ApprovalExpired)
        else None
      case None => if security.requireApproval then Some(ApprovalRequired) else None
  }

  /** `realmTenant` is what the repository holds for the requested realm. */
  function TenantBinding(admin: Admin, elevation: Elevation, approval: Option<Approval>, realm: Option<string>,
                         realmTenant: Option<string>): Option<Denial> {
    if admin.tenant != elevation.tenant then Some(OtherTenant)
    else if approval.Some? && approval.value.tenant != admin.tenant then Some(OtherTenant)
    else if realm.None? then None
    else if realmTenant.None? then Some(RealmWithoutTenant)
    else if realmTenant.value != admin.tenant then Some(OtherTenant)
    else None
  }

  predicate SteppedUp(elevation: Elevation, security: Security) {
    && elevation.acr == Some(security.requiredAcr)
    && exists i :: 0 <= i < |elevation.amr| && elevation.amr[i] in security.requiredAmr
  }

  predicate HasRole(admin: Admin, permission: Permission, security: Security) {
    exists i :: 0 <= i < |admin.roles| && RoleAllows(permission, admin.roles[i], security)
  }

  /** `who` is the administrator the session resolves to, if any. */
  function AuthorizeAdmin(q: Request, security: Security, who: Option<(Admin, Elevation)>, realmTenant: Option<string>,
                          now: nat): Option<Denial> {
    match who
    case None => Some(NotAuthenticated)
    case Some((admin, elevation)) =>
      var bound := TenantBinding(admin, elevation, None, q.realm, realmTenant);
      if bound.Some? then bound
      else if security.requireStepUp && !SteppedUp(elevation, security) then Some(StepUpRequired)
      else if elevation.expiresAt <= now then Some(ElevationExpired)
      else if elevation.expiresAt - now > security.maxElevationSeconds then Some(ElevationTooLong)
      else if !HasRole(admin, q.Needs(), security) then Some(RoleNotAllowed)
      else None
  }

  /** The approval is for this administrator, tenant and realm. */
  function BindApproval(q: Request, a: Approval, admin: Admin, elevation: Elevation,
                        realmTenant: Option<string>): Option<Denial> {
    var bound := TenantBinding(admin, elevation, Some(a), q.realm, realmTenant);
    if bound.Some? then bound
    else if a.target != admin.id then Some(OtherAdmin)
    else None
  }

  function PathBinding(q: Request, admin: Admin): Option<Denial> {
    if q.pathTenant.Some? && q.pathTenant.value != admin.tenant then Some(OtherTenant) else None
  }

  // ----- The implementation ---------------------------------------------

  type Approvals = map<string, Approval>

  function Lookup(approvals: Approvals, id: Option<string>): Option<Approval> {
    if id.Some? && id.value in approvals then Some(approvals[id.value]) else None
  }

  function Stored(approvals: Approvals, a: Approval): Approvals {
    if a.id in approvals then approvals else approvals[a.id := a]
  }

  predicate Consumable(approvals: Approvals, id: string) {
    id in approvals && !approvals[id].consumed
  }

  function Consumed(approvals: Approvals, id: string): Approvals {
    if Consumable(approvals, id) then approvals[id := approvals[id].(consumed := true)] else approvals
  }

  datatype StoreError = DuplicateId | SaveFailed

  class ApprovalStore {
    var approvals: Approvals

    /** `saved` is whether the changed store could be written out; the approval
        is there even when it could not. */
    method StoreApproval(a: Approval, saved: bool) returns (r: Result<(), StoreError>)
      modifies this
      ensures approvals == Stored(old(approvals), a)
      ensures r == if a.id in old(approvals) then Err(DuplicateId) else if saved then Ok(()) else Err(SaveFailed)
    {
      if a.id in approvals {
        return Err(DuplicateId);
      }
      approvals := approvals[a.id := a];
      return if saved then Ok(()) else Err(SaveFailed);
    }

    method ConsumeIfUnconsumed(id: string, saved: bool) returns (r: Result<bool, Denial>)
      modifies this
      ensures approvals == Consumed(old(approvals), id)
      ensures r == if !Consumable(old(approvals), id) then Ok(false) else if saved then Ok(true) else Err(StoreFailed)
    {
      if id !in approvals || approvals[id].consumed {
        return Ok(false);
      }
      approvals := approvals[id := approvals[id].(consumed := true)];
      return if saved then Ok(true) else Err(StoreFailed);
    }

    /** One request with nothing in between: every check in turn, and then its
        approval, if it has one, is consumed. */
    method AuthorizeMutation(q: Request, security: Security, who: Option<(Admin, Elevation)>,
                             realmTenant: Option<string>,
                             checked: nat, now: nat, saved: bool) returns (r: Result<Admin, Denial>)
      modifies this
      ensures r == Verdict(old(approvals), q, security, who, realmTenant, checked, now, saved)
      ensures approvals == if Takes(old(approvals), q, security, who, realmTenant, checked, now)
                           then Consumed(old(approvals), Lookup(old(approvals), q.approvalId).value.id)
                           else old(approvals)
    {
      var stored := Lookup(approvals, q.approvalId);
      var refused := CheckApproval(q, security, stored, checked);
      if refused.Some? {
        return Err(refused.value);
      }
      refused := AuthorizeAdmin(q, security, who, realmTenant, now);
      if refused.Some? {
        return Err(refused.value);
      }
      var (admin, elevation) := who.value;
      if stored.Some? {
        refused := BindApproval(q, stored.value, admin, elevation, realmTenant);
        if refused.Some? {
          return Err(refused.value);
        }
        var taken := ConsumeIfUnconsumed(stored.value.id, saved);
        if taken.Err? {
          return Err(taken.error);
        }
        if !taken.value {
          return Err(AlreadyConsumed);
        }
      }
      refused := PathBinding(q, admin);
      if refused.Some? {
        return Err(refused.value);
      }
      return Ok(admin);
    }
  }

  /** The request gets as far as consuming an approval. */
  predicate Takes(approvals: Approvals, q: Request, security: Security, who: Option<(Admin, Elevation)>,
                  realmTenant: Option<string>, checked: nat, now: nat) {
    var stored := Lookup(approvals, q.approvalId);
    && stored.Some? && CheckApproval(q, security, stored, checked).None?
    && AuthorizeAdmin(q, security, who, realmTenant, now).None?
    && BindApproval(q, stored.value, who.value.0, who.value.1, realmTenant).None?
  }

  function Verdict(approvals: Approvals, q: Request, security: Security, who: Option<(Admin, Elevation)>,
                   realmTenant: Option<string>, checked: nat, now: nat, saved: bool): Result<Admin, Denial> {
    var stored := Lookup(approvals, q.approvalId);
    var check := CheckApproval(q, security, stored, checked);
    if check.Some? then Err(check.value)
    else
      var authorize := AuthorizeAdmin(q, security, who, realmTenant, now);
      if authorize.Some? then Err(authorize.value)
      else
        var admin := who.value.0;
        var bind := if stored.Some? then BindApproval(q, stored.value, admin, who.value.1, realmTenant) else None;
        if bind.Some? then Err(bind.value)
        else if stored.Some? && !Consumable(approvals, stored.value.id) then Err(AlreadyConsumed)
        else if stored.Some? && !saved then Err(StoreFailed)
        else if PathBinding(q, admin).Some? then Err(PathBinding(q, admin).value)
        else Ok(admin)
  }

  predicate HoldsGrant(admin: Admin, permission: Permission, security: Security) {
    exists i :: 0 <= i < |admin.roles| &&
      (permission in Grants(admin.roles[i]) || (security.breakglassEnabled && admin.roles[i] == "breakglass"))
  }

  lemma HasRoleIff(admin: Admin, permission: Permission, security: Security)
    ensures HasRole(admin, permission, security) <==> HoldsGrant(admin, permission, security)
  {
    forall i | 0 <= i < |admin.roles|
      ensures RoleAllows(permission, admin.roles[i], security) <==>
                permission in Grants(admin.roles[i]) || (security.breakglassEnabled && admin.roles[i] == "breakglass")
    {
      RoleAllowsIff(permission, admin.roles[i], security);
    }
  }

  lemma SteppedUpIff(elevation: Elevation, security: Security)
    ensures SteppedUp(elevation, security) <==>
              elevation.acr == Some(security.requiredAcr) &&
              exists how :: how in elevation.amr && how in security.requiredAmr
  {
    forall how | how in elevation.amr && how in security.requiredAmr
      ensures exists i :: 0 <= i < |elevation.amr| && elevation.amr[i] in security.requiredAmr
    {
      var i :| 0 <= i < |elevation.amr| && elevation.amr[i] == how;
    }
  }

  /** What an allowed request comes with. */
  ghost predicate Allowed(approvals: Approvals, q: Request, security: Security, admin: Admin, elevation: Elevation,
                          realmTenant: Option<string>, checked: nat, now: nat, saved: bool) {
    var stored := if q.approvalId.Some? && q.approvalId.value in approvals then Some(approvals[q.approvalId.value])
                  else None;
    && (q.breakGlass ==> security.breakglassEnabled) && (security.requireReason ==> q.hasReason)
    && admin.tenant == elevation.tenant && (q.realm.Some? ==> realmTenant == Some(admin.tenant))
    && (q.pathTenant.Some? ==> q.pathTenant == Some(admin.tenant))
    && (security.requireStepUp ==>
          elevation.acr == Some(security.requiredAcr) &&
          exists how :: how in elevation.amr && how in security.requiredAmr)
    && now < elevation.expiresAt <= now + security.maxElevationSeconds
    && HoldsGrant(admin, if q.breakGlass then BreakGlass else q.permission, security)
    && (security.requireApproval ==> stored.Some?)
    && (stored.Some? ==>
          && !stored.value.consumed && checked < stored.value.expiresAt && saved
          && stored.value.tenant == admin.tenant && stored.value.target == admin.id)
  }

  /** The request is allowed exactly when all its conditions hold at once, and an
      allowed request with an approval uses it up. */
  lemma AllowedIff(approvals: Approvals, q: Request, security: Security, admin: Admin, elevation: Elevation,
                   realmTenant: Option<string>, checked: nat, now: nat, saved: bool)
    requires forall id | id in approvals :: approvals[id].id == id
    ensures Verdict(approvals, q, security, Some((admin, elevation)), realmTenant, checked, now, saved) == Ok(admin)
       <==> Allowed(approvals, q, security, admin, elevation, realmTenant, checked, now, saved)
    ensures Allowed(approvals, q, security, admin, elevation, realmTenant, checked, now, saved) ==>
              (Takes(approvals, q, security, Some((admin, elevation)), realmTenant, checked, now) <==>
               Lookup(approvals, q.approvalId).Some?)
  {
    HasRoleIff(admin, q.Needs(), security);
    SteppedUpIff(elevation, security);
  }

  /** What each refusal says of the request. */
  ghost predicate Reason(why: Denial, stored: Option<Approval>, q: Request, security: Security,
                         who: Option<(Admin, Elevation)>, realmTenant: Option<string>, checked: nat, now: nat,
                         saved: bool) {
    match why
    case BreakGlassDisabled => q.breakGlass && !security.breakglassEnabled
    case ReasonMissing => security.requireReason && !q.hasReason
    case AlreadyConsumed => stored.Some? && stored.value.consumed
    case ApprovalExpired => stored.Some? && stored.value.expiresAt <= checked
    case ApprovalRequired => security.requireApproval && stored.None?
    case NotAuthenticated => who.None?
    case OtherTenant =>
      who.Some? &&
      var tenant := who.value.0.tenant;
      || who.value.1.tenant != tenant
      || (stored.Some? && stored.value.tenant != tenant)
      || (q.realm.Some? && realmTenant.Some? && realmTenant.value != tenant)
      || (q.pathTenant.Some? && q.pathTenant.value != tenant)
    case RealmWithoutTenant => q.realm.Some? && realmTenant.None?
    case StepUpRequired =>
      && security.requireStepUp && who.Some?
      && (who.value.1.acr != Some(security.requiredAcr) ||
          forall how | how in who.value.1.amr :: how !in security.requiredAmr)
    case ElevationExpired => who.Some? && who.value.1.expiresAt <= now
    case ElevationTooLong => who.Some? && who.value.1.expiresAt > now + security.maxElevationSeconds
    case RoleNotAllowed => who.Some? && !HoldsGrant(who.value.0, q.Needs(), security)
    case OtherAdmin => who.Some? && stored.Some? && stored.value.target != who.value.0.id
    case StoreFailed => stored.Some? && !saved
  }

  lemma CheckReason(stored: Option<Approval>, q: Request, security: Security, who: Option<(Admin, Elevation)>,
                    realmTenant: Option<string>, checked: nat, now: nat, saved: bool)
    requires CheckApproval(q, security, stored, checked).Some?
    ensures Reason(CheckApproval(q, security, stored, checked).value, stored, q, security, who, realmTenant, checked,
                   now, saved)
  {
  }

  lemma AuthorizeReason(stored: Option<Approval>, q: Request, security: Security, who: Option<(Admin, Elevation)>,
                        realmTenant: Option<string>, checked: nat, now: nat, saved: bool)
    requires AuthorizeAdmin(q, security, who, realmTenant, now).Some?
    ensures Reason(AuthorizeAdmin(q, security, who, realmTenant, now).value, stored, q, security, who, realmTenant,
                   checked, now, saved)
  {
    if who.Some? {
      HasRoleIff(who.value.0, q.Needs(), security);
      SteppedUpIff(who.value.1, security);
    }
  }

  lemma BindReason(a: Approval, q: Request, security: Security, who: (Admin, Elevation), realmTenant: Option<string>,
                   checked: nat, now: nat, saved: bool)
    requires BindApproval(q, a, who.0, who.1, realmTenant).Some?
    ensures Reason(BindApproval(q, a, who.0, who.1, realmTenant).value, Some(a), q, security, Some(who), realmTenant,
                   checked, now, saved)
  {
  }

  /** A refused request is refused for a reason it really has. */
  lemma RefusedForItsReason(approvals: Approvals, q: Request, security: Security, who: Option<(Admin, Elevation)>,
                            realmTenant: Option<string>, checked: nat, now: nat, saved: bool)
    requires forall id | id in approvals :: approvals[id].id == id
    requires Verdict(approvals, q, security, who, realmTenant, checked, now, saved).Err?
    ensures Reason(Verdict(approvals, q, security, who, realmTenant, checked, now, saved).error,
                   Lookup(approvals, q.approvalId), q, security, who, realmTenant, checked, now, saved)
  {
    var stored := Lookup(approvals, q.approvalId);
    if CheckApproval(q, security, stored, checked).Some? {
      CheckReason(stored, q, security, who, realmTenant, checked, now, saved);
    } else if AuthorizeAdmin(q, security, who, realmTenant, now).Some? {
      AuthorizeReason(stored, q, security, who, realmTenant, checked, now, saved);
    } else if stored.Some? && BindApproval(q, stored.value, who.value.0, who.value.1, realmTenant).Some? {
      BindReason(stored.value, q, security, who.value, realmTenant, checked, now, saved);
    }
  }

  /** A request that gets as far as consuming an approval is refused all the same
      exactly when the store could not be saved or the path names another
      tenant; its approval is then used up. */
  lemma UsedUpButRefusedIff(approvals: Approvals, q: Request, security: Security, admin: Admin, elevation: Elevation,
                            realmTenant: Option<string>, checked: nat, now: nat, saved: bool)
    requires forall id | id in approvals :: approvals[id].id == id
    requires Takes(approvals, q, security, Some((admin, elevation)), realmTenant, checked, now)
    ensures Verdict(approvals, q, security, Some((admin, elevation)), realmTenant, checked, now, saved).Err? <==>
              !saved || (q.pathTenant.Some? && q.pathTenant != Some(admin.tenant))
  {
  }
}
