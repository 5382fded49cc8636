/** Granting and revoking roles over one store of assignments, and the decisions
    that rest on it (modules/authorization/application/use-cases/assign-role.ts,
    revoke-role.ts, application/policy-service.ts, domain/role-assignment.ts,
    domain/catalogue.ts,
    infrastructure/persistence/prisma-role-assignment-repository.ts). */
module RoleGrants {
  import opened Results

  type Time = int
  type UserId = nat
  type CallId = nat

  // ---------------------------------------------------------------------
  // Catalogue
  // ---------------------------------------------------------------------

  datatype Role = USER | TENANT_MEMBER | TENANT_ADMIN | SUPPORT | OPERATOR | SECURITY | PLATFORM_ADMIN | DISCLOSURE_APPROVER

  datatype Scope = PlatformScope | TenantScope

  function ScopeOf(role: Role): Scope {
    if role == TENANT_MEMBER || role == TENANT_ADMIN then TenantScope else PlatformScope
  }

  predicate ScopeAdmits(scope: Scope, tenantBound: bool) {
    (scope == TenantScope) == tenantBound
  }

  /** The closed catalogue of permission names. */
  datatype Permission =
    | ROLE_ASSIGN | ROLE_REVOKE | ENTITY_MANAGE | MIGRATION_APPROVE | SESSION_REVOKE | MFA_RESET | STATUS_UPDATE | DOCUMENT_PUBLISH
    | MEMBER_READ | INVITATION_CREATE | INVITATION_REVOKE | PROFILE_READ | CONSENT_STATUS_READ | KILLSWITCH_OPERATE

  function PermissionsGrantedTo(role: Role): set<Permission> {
    match role
    case TENANT_ADMIN => {MEMBER_READ, INVITATION_CREATE, INVITATION_REVOKE}
    case SUPPORT => {PROFILE_READ, CONSENT_STATUS_READ}
    case OPERATOR => {KILLSWITCH_OPERATE}
    case PLATFORM_ADMIN =>
      {ROLE_ASSIGN, ROLE_REVOKE, ENTITY_MANAGE, MIGRATION_APPROVE, SESSION_REVOKE, MFA_RESET, STATUS_UPDATE, DOCUMENT_PUBLISH}
    case _ => {}
  }

  /** The whole catalogue: what each role is granted and where it may bind. */
  lemma CatalogueTable(role: Role, p: Permission)
    ensures p in PermissionsGrantedTo(role)
       <==> || (role == TENANT_ADMIN && p in {MEMBER_READ, INVITATION_CREATE, INVITATION_REVOKE})
            || (role == SUPPORT && p in {PROFILE_READ, CONSENT_STATUS_READ})
            || (role == OPERATOR && p == KILLSWITCH_OPERATE)
            || (role == PLATFORM_ADMIN
                && p in {ROLE_ASSIGN, ROLE_REVOKE, ENTITY_MANAGE, MIGRATION_APPROVE, SESSION_REVOKE, MFA_RESET,
                         STATUS_UPDATE, DOCUMENT_PUBLISH})
    ensures forall bound :: ScopeAdmits(ScopeOf(role), bound) <==> (bound <==> role in {TENANT_MEMBER, TENANT_ADMIN})
  {
  }

  /** Of all roles only PLATFORM_ADMIN administers roles. */
  lemma OnlyAdminsAdministerRoles(role: Role)
    ensures ROLE_ASSIGN in PermissionsGrantedTo(role) <==> role == PLATFORM_ADMIN
    ensures ROLE_REVOKE in PermissionsGrantedTo(role) <==> role == PLATFORM_ADMIN
  {
  }

  // ---------------------------------------------------------------------
  // Assignments and decisions
  // ---------------------------------------------------------------------

  /** A row's id is its place in the store. tenant None: platform-scoped. */
  datatype Assignment = Assignment(
    user: UserId, role: Role, tenant: Option<string>, active: bool, grantedBy: UserId,
    from: Time, to: Option<Time>, revokedAt: Option<Time>, revokedBy: Option<UserId>)

  datatype Actor = Actor(user: UserId, tenant: Option<string>)

  predicate ActiveAt(a: Assignment, at: Time) {
    a.active && a.revokedAt.None? && a.from <= at && (a.to.None? || a.to.value > at)
  }

  predicate AppliesTo(a: Assignment, actorTenant: Option<string>) {
    a.tenant.None? || (actorTenant.Some? && a.tenant.value == actorTenant.value)
  }

  /** The row is the actor's, in force, and applies to its tenant context. */
  predicate Applicable(a: Assignment, actor: Actor, at: Time) {
    a.user == actor.user && ActiveAt(a, at) && AppliesTo(a, actor.tenant)
  }

  /** The ids of the applicable rows, oldest first. */
  function ApplicableRows(rows: seq<Assignment>, actor: Actor, at: Time): (ids: seq<nat>)
    ensures forall k :: 0 <= k < |ids| ==> ids[k] < |rows| && Applicable(rows[ids[k]], actor, at)
  {
    if rows == [] then []
    else
      var n := |rows| - 1;
      ApplicableRows(rows[..n], actor, at) + if Applicable(rows[n], actor, at) then [n] else []
  }

  datatype Decision = Allowed(basis: nat) | NoApplicableAssignment | PermissionNotHeld

  /** The first of the rows whose role holds the permission. */
  function FirstHolding(rows: seq<Assignment>, ids: seq<nat>, permission: Permission): (first: Option<nat>)
    requires forall k :: 0 <= k < |ids| ==> ids[k] < |rows|
    ensures match first
            case Some(i) => i in ids && i < |rows| && permission in PermissionsGrantedTo(rows[i].role)
            case None => forall k :: 0 <= k < |ids| ==> permission !in PermissionsGrantedTo(rows[ids[k]].role)
  {
    if ids == [] then None
    else if permission in PermissionsGrantedTo(rows[ids[0]].role) then Some(ids[0])
    else
      assert forall k :: 1 <= k < |ids| ==> ids[k] == ids[1..][k - 1];
      FirstHolding(rows, ids[1..], permission)
  }

  function Authorize(rows: seq<Assignment>, actor: Actor, permission: Permission, at: Time): Decision {
    var ids := ApplicableRows(rows, actor, at);
    var first := FirstHolding(rows, ids, permission);
    if |ids| == 0 then NoApplicableAssignment else if first.None? then PermissionNotHeld else Allowed(first.value)
  }

  function RolesOf(rows: seq<Assignment>, ids: seq<nat>): seq<Role>
    requires forall k :: 0 <= k < |ids| ==> ids[k] < |rows|
  {
    seq(|ids|, k requires 0 <= k < |ids| => rows[ids[k]].role)
  }

  function ApplicableRoles(rows: seq<Assignment>, actor: Actor, at: Time): seq<Role> {
    RolesOf(rows, ApplicableRows(rows, actor, at))
  }

  lemma {:induction false} ApplicableRowsAreAll(rows: seq<Assignment>, actor: Actor, at: Time, i: nat)
    ensures i in ApplicableRows(rows, actor, at) <==> i < |rows| && Applicable(rows[i], actor, at)
  {
    if rows != [] {
      ApplicableRowsAreAll(rows[..|rows| - 1], actor, at, i);
    }
  }

  /** Allowed exactly when some applicable row's role holds the permission; the row it
      rests on is one of them. */
  lemma AuthorizeExactly(rows: seq<Assignment>, actor: Actor, permission: Permission, at: Time)
    ensures var d := Authorize(rows, actor, permission, at);
            && (d.Allowed? <==> exists i :: 0 <= i < |rows| && Applicable(rows[i], actor, at)
                                            && permission in PermissionsGrantedTo(rows[i].role))
            && (d.Allowed? ==> d.basis < |rows| && Applicable(rows[d.basis], actor, at)
                               && permission in PermissionsGrantedTo(rows[d.basis].role))
  {
    var ids := ApplicableRows(rows, actor, at);
    if i :| 0 <= i < |rows| && Applicable(rows[i], actor, at) && permission in PermissionsGrantedTo(rows[i].role) {
      ApplicableRowsAreAll(rows, actor, at, i);
      assert i in ids;
      var k :| 0 <= k < |ids| && ids[k] == i;
    }
  }

  /** Allowed exactly when some row is the actor's, ACTIVE and not revoked, begun and not
      ended, of no tenant or the actor's own, and its role holds the permission. */
  lemma AuthorizedByFields(rows: seq<Assignment>, actor: Actor, permission: Permission, at: Time)
    ensures Authorize(rows, actor, permission, at).Allowed?
       <==> exists i :: && 0 <= i < |rows| && rows[i].user == actor.user && rows[i].active && rows[i].revokedAt == None
                        && rows[i].from <= at && (rows[i].to == None || at < rows[i].to.value)
                        && (rows[i].tenant == None || rows[i].tenant == actor.tenant)
                        && permission in PermissionsGrantedTo(rows[i].role)
  {
    AuthorizeExactly(rows, actor, permission, at);
    forall i | 0 <= i < |rows| ensures Applicable(rows[i], actor, at) <==> InForceFor(rows[i], actor, at) {
      ApplicableByFields(rows[i], actor, at);
    }
    assert forall i :: 0 <= i < |rows| ==> (InForceFor(rows[i], actor, at) <==> Applicable(rows[i], actor, at));
  }

  /** The same test on the fields. */
  predicate InForceFor(a: Assignment, actor: Actor, at: Time) {
    && a.user == actor.user && a.active && a.revokedAt == None && a.from <= at && (a.to == None || at < a.to.value)
    && (a.tenant == None || a.tenant == actor.tenant)
  }

  lemma ApplicableByFields(a: Assignment, actor: Actor, at: Time)
    ensures Applicable(a, actor, at) <==> InForceFor(a, actor, at)
  {
  }

  /** A user whose every row is bound to a tenant other than its own context is denied
      every permission. */
  lemma ForeignTenantsAreDenied(rows: seq<Assignment>, actor: Actor, permission: Permission, at: Time)
    requires forall i :: 0 <= i < |rows| && rows[i].user == actor.user ==>
               rows[i].tenant.Some? && rows[i].tenant != actor.tenant
    ensures !Authorize(rows, actor, permission, at).Allowed?
  {
    AuthorizedByFields(rows, actor, permission, at);
  }

  lemma NoneApplicable(rows: seq<Assignment>, actor: Actor, at: Time)
    ensures |ApplicableRows(rows, actor, at)| == 0 <==> forall i :: 0 <= i < |rows| ==> !InForceFor(rows[i], actor, at)
  {
    var ids := ApplicableRows(rows, actor, at);
    if |ids| > 0 {
      ApplicableByFields(rows[ids[0]], actor, at);
    }
    if i :| 0 <= i < |rows| && InForceFor(rows[i], actor, at) {
      ApplicableByFields(rows[i], actor, at);
      ApplicableRowsAreAll(rows, actor, at, i);
    }
  }

  /** Which denial it is: no row of the actor's is in force in its context, or none of
      those that are holds the permission. */
  lemma DenialTellsWhich(rows: seq<Assignment>, actor: Actor, permission: Permission, at: Time)
    ensures Authorize(rows, actor, permission, at) == NoApplicableAssignment
       <==> forall i :: 0 <= i < |rows| ==> !InForceFor(rows[i], actor, at)
  {
    NoneApplicable(rows, actor, at);
  }

  lemma PeerExactly(rows: seq<Assignment>, actor: Actor, at: Time)
    ensures PLATFORM_ADMIN in ApplicableRoles(rows, actor, at)
       <==> exists i :: 0 <= i < |rows| && Applicable(rows[i], actor, at) && rows[i].role == PLATFORM_ADMIN
  {
    var ids := ApplicableRows(rows, actor, at);
    if i :| 0 <= i < |rows| && Applicable(rows[i], actor, at) && rows[i].role == PLATFORM_ADMIN {
      ApplicableRowsAreAll(rows, actor, at, i);
      var k :| 0 <= k < |ids| && ids[k] == i;
      assert ApplicableRoles(rows, actor, at)[k] == PLATFORM_ADMIN;
    }
    if PLATFORM_ADMIN in ApplicableRoles(rows, actor, at) {
      var k :| 0 <= k < |ids| && ApplicableRoles(rows, actor, at)[k] == PLATFORM_ADMIN;
      assert Applicable(rows[ids[k]], actor, at);
    }
  }

  // ---------------------------------------------------------------------
  // The store
  // ---------------------------------------------------------------------

  predicate SameTarget(a: Assignment, user: UserId, role: Role, tenant: Option<string>) {
    a.user == user && a.role == role && a.tenant == tenant
  }

  /** The unique index: at most one ACTIVE row per target. */
  predicate Conflicts(rows: seq<Assignment>, user: UserId, role: Role, tenant: Option<string>) {
    exists i :: 0 <= i < |rows| && rows[i].active && SameTarget(rows[i], user, role, tenant)
  }

  /** The ACTIVE row of the target, -1 if none. */
  function FindActive(rows: seq<Assignment>, user: UserId, role: Role, tenant: Option<string>): (i: int)
    ensures i == -1 ==> !Conflicts(rows, user, role, tenant)
    ensures i != -1 ==> 0 <= i < |rows| && rows[i].active && SameTarget(rows[i], user, role, tenant)
  {
    if rows == [] then -1
    else
      var n := |rows| - 1;
      if rows[n].active && SameTarget(rows[n], user, role, tenant) then n else FindActive(rows[..n], user, role, tenant)
  }

  function NewRow(user: UserId, role: Role, tenant: Option<string>, granter: UserId, at: Time): Assignment {
    Assignment(user, role, tenant, true, granter, at, None, None, None)
  }

  function RevokedRow(a: Assignment, revoker: UserId, at: Time): Assignment {
    a.(active := false, revokedAt := Some(at), revokedBy := Some(revoker), to := Some(at))
  }

  // ---------------------------------------------------------------------
  // Calls
  // ---------------------------------------------------------------------

  /** inputValid: user and reason parse. roleKnown: the input names a catalogue role.
      tenantValid: the tenant, if any, parses. */
  datatype Request = Request(
    grants: bool, user: UserId, role: Role, tenant: Option<string>, inputValid: bool, roleKnown: bool, tenantValid: bool)

  datatype Answer =
    | InvalidInput | RoleNotFound | ScopeMismatch | NotAuthorized | DelegationDenied
    | AlreadyAssigned | AssignmentNotFound | StoreFailure
    | Written(row: nat, audited: bool)

  /** basis, at: the row the authorization rested on, and when. */
  datatype Pc =
    | Authorizing
    | CheckingPeer(basis: nat, at: Time)
    | Creating(basis: nat, at: Time)
    | Revoking(basis: nat, at: Time)
    | RecordingDenial(answer: Answer)
    | Recording(row: nat)
    | Done(answer: Answer)

  datatype Call = Call(actor: Actor, request: Request, pc: Pc)

  datatype Event = Denial(actor: UserId, request: Request) | Success(actor: UserId, request: Request, row: nat)

  /** grounds: for each row written by a call, the row and time its granter's authority
      was checked by. */
  datatype State = State(
    rows: seq<Assignment>, calls: map<CallId, Call>, clock: Time, audit: seq<Event>, grounds: map<nat, (nat, Time)>)

  function Begin(request: Request): Pc {
    if !request.inputValid then Done(InvalidInput)
    else if !request.roleKnown then Done(RoleNotFound)
    else if !request.tenantValid then Done(InvalidInput)
    else if request.grants && !ScopeAdmits(ScopeOf(request.role), request.tenant.Some?) then Done(ScopeMismatch)
    else Authorizing
  }

  function PermissionFor(request: Request): Permission {
    if request.grants then ROLE_ASSIGN else ROLE_REVOKE
  }

  /** works: the port did not fail. wait: how long since the step before. */
  datatype Step =
    | Start(call: CallId, actor: Actor, request: Request)
    | Advance(call: CallId, works: bool, wait: nat)

  function Goto(s: State, call: CallId, pc: Pc): State
    requires call in s.calls
  {
    s.(calls := s.calls[call := s.calls[call].(pc := pc)])
  }

  function AfterAuthorizing(rows: seq<Assignment>, c: Call, works: bool, now: Time): Pc {
    AfterDecision(c, Authorize(rows, c.actor, PermissionFor(c.request), now), works, now)
  }

  function AfterDecision(c: Call, d: Decision, works: bool, now: Time): Pc {
    if !works || !d.Allowed? then RecordingDenial(NotAuthorized)
    else if !c.request.grants then Revoking(d.basis, now)
    else if c.request.role == PLATFORM_ADMIN then CheckingPeer(d.basis, now)
    else Creating(d.basis, now)
  }

  function FirstPeer(rows: seq<Assignment>, actor: Actor, at: Time): int {
    var ids := ApplicableRows(rows, actor, at);
    var first := FirstHolding(rows, ids, ROLE_ASSIGN);
    if first.None? then -1 else first.value
  }

  function AfterCheckingPeer(rows: seq<Assignment>, c: Call, works: bool, now: Time): Pc {
    if !works then Done(StoreFailure)
    else if PLATFORM_ADMIN !in ApplicableRoles(rows, c.actor, now) then RecordingDenial(DelegationDenied)
    else
      var peer := FirstPeer(rows, c.actor, now);
      Creating(if peer < 0 then 0 else peer, now)
  }

  function Advanced(s: State, call: CallId, works: bool, now: Time): State
    requires call in s.calls
  {
    var c := s.calls[call];
    var q := c.request;
    match c.pc
    case Authorizing => Goto(s, call, AfterAuthorizing(s.rows, c, works, now))
    case CheckingPeer(_, _) => Goto(s, call, AfterCheckingPeer(s.rows, c, works, now))
    case Creating(basis, at) =>
      if !works then Goto(s, call, Done(StoreFailure))
      else if Conflicts(s.rows, q.user, q.role, q.tenant) then Goto(s, call, Done(AlreadyAssigned))
      else
        Goto(s.(rows := s.rows + [NewRow(q.user, q.role, q.tenant, c.actor.user, now)],
            grounds := s.grounds[|s.rows| := (basis, at)]),
             call, Recording(|s.rows|))
    case Revoking(basis, at) =>
      var i := FindActive(s.rows, q.user, q.role, q.tenant);
      if !works then Goto(s, call, Done(StoreFailure))
      else if i == -1 then Goto(s, call, Done(AssignmentNotFound))
      else if now <= s.rows[i].from then Goto(s, call, Done(StoreFailure))
      else Goto(s.(rows := s.rows[i := RevokedRow(s.rows[i], c.actor.user, now)]), call, Recording(i))
    case RecordingDenial(answer) =>
      Goto(if works then s.(audit := s.audit + [Denial(c.actor.user, q)]) else s, call, Done(answer))
    case Recording(row) =>
      Goto(if works then s.(audit := s.audit + [Success(c.actor.user, q, row)]) else s, call, Done(Written(row, works)))
    case Done(_) => s
  }

  function Apply(s: State, step: Step): State {
    match step
    case Start(call, actor, request) =>
      if call in s.calls then s else s.(calls := s.calls[call := Call(actor, request, Begin(request))])
    case Advance(call, works, wait) =>
      var later := s.(clock := s.clock + wait);
      if call !in s.calls then later else Advanced(later, call, works, later.clock)
  }

  function Run(init: State, steps: seq<Step>): State {
    if steps == [] then init else Apply(Run(init, steps[..|steps| - 1]), steps[|steps| - 1])
  }

  lemma RunAppends(init: State, steps: seq<Step>, step: Step)
    ensures Run(init, steps + [step]) == Apply(Run(init, steps), step)
  {
    assert (steps + [step])[..|steps|] == steps;
  }

  /** The schema's checks on a row. */
  predicate RowHolds(a: Assignment) {
    && (a.to.Some? ==> a.from < a.to.value)
    && (a.active <==> a.revokedAt.None?) && (a.revokedAt.Some? <==> a.revokedBy.Some?)
  }

  predicate ActiveRowsUnique(rows: seq<Assignment>) {
    forall i, j :: 0 <= i < j < |rows| && rows[i].active && rows[j].active ==>
      !SameTarget(rows[i], rows[j].user, rows[j].role, rows[j].tenant)
  }

  /** A bootstrap store: sound rows, no call yet. */
  ghost predicate Bootstrap(s: State) {
    && (forall i :: 0 <= i < |s.rows| ==> RowHolds(s.rows[i])) && ActiveRowsUnique(s.rows)
    && s.calls == map[] && s.grounds == map[]
  }

  // ---------------------------------------------------------------------
  // What every run keeps
  // ---------------------------------------------------------------------

  /** The row gave its user authority over roles at that time. Its end may have been
      moved since, by a revocation no earlier than that. */
  predicate HeldAt(rows: seq<Assignment>, basis: nat, holder: UserId, at: Time) {
    && basis < |rows| && rows[basis].user == holder && rows[basis].role == PLATFORM_ADMIN && rows[basis].from <= at
    && if rows[basis].revokedAt.Some? then at <= rows[basis].revokedAt.value
       else rows[basis].to.None? || at < rows[basis].to.value
  }

  predicate CallHolds(s: State, c: Call) {
    && (!c.pc.Done? && c.request.grants ==> ScopeAdmits(ScopeOf(c.request.role), c.request.tenant.Some?))
    && match c.pc
       case CheckingPeer(basis, at) => c.request.grants && at <= s.clock && HeldAt(s.rows, basis, c.actor.user, at)
       case Creating(basis, at) => c.request.grants && at <= s.clock && HeldAt(s.rows, basis, c.actor.user, at)
       case Revoking(basis, at) => !c.request.grants && at <= s.clock && HeldAt(s.rows, basis, c.actor.user, at)
       case RecordingDenial(answer) => !answer.Written?
       case Recording(row) => Wrote(s.rows, c, row)
       case Done(Written(row, audited)) =>
         Wrote(s.rows, c, row) && (audited ==> Success(c.actor.user, c.request, row) in s.audit)
       case _ => true
  }

  /** The row is the one the call was asked to write: granted by its actor, or, for a
      revocation, no longer ACTIVE and revoked by its actor. */
  predicate Wrote(rows: seq<Assignment>, c: Call, row: nat) {
    && row < |rows|
    && rows[row].user == c.request.user && rows[row].role == c.request.role && rows[row].tenant == c.request.tenant
    && if c.request.grants then rows[row].grantedBy == c.actor.user
       else !rows[row].active && rows[row].revokedBy == Some(c.actor.user) && rows[row].revokedAt == rows[row].to
  }

  /** A row written by a call stands on an older row of its granter's. */
  predicate Grounded(s: State, i: nat)
    requires i < |s.rows|
  {
    && i in s.grounds
    && s.grounds[i].0 < i && s.grounds[i].1 <= s.rows[i].from
    && HeldAt(s.rows, s.grounds[i].0, s.rows[i].grantedBy, s.grounds[i].1)
    && ScopeAdmits(ScopeOf(s.rows[i].role), s.rows[i].tenant.Some?)
  }

  ghost predicate Invariant(init: State, s: State) {
    && |init.rows| <= |s.rows|
    && (forall i :: 0 <= i < |s.rows| ==> RowHolds(s.rows[i])) && ActiveRowsUnique(s.rows)
    && (forall id :: id in s.calls ==> CallHolds(s, s.calls[id]))
    && (forall i :: |init.rows| <= i < |s.rows| ==> Grounded(s, i))
    && (forall i :: i in s.grounds ==> i < |s.rows|)
  }

  /** What a row may become between two times: itself, or, while ACTIVE, revoked. */
  predicate Succeeds(a: Assignment, b: Assignment, clock: Time, now: Time) {
    || b == a
    || (a.active && b.revokedAt.Some? && b.revokedBy.Some? && clock <= b.revokedAt.value <= now
        && b == RevokedRow(a, b.revokedBy.value, b.revokedAt.value))
  }

  /** Rows are never deleted, a revoked one never changes, and no row moves its start. */
  ghost predicate Grows(s: State, t: State) {
    && s.clock <= t.clock && |s.rows| <= |t.rows|
    && (forall i :: 0 <= i < |s.rows| ==> Succeeds(s.rows[i], t.rows[i], s.clock, t.clock))
    && (forall i :: i in s.grounds && i < |s.rows| ==> i in t.grounds && t.grounds[i] == s.grounds[i])
    && (forall e :: e in s.audit ==> e in t.audit)
  }

  lemma StepGrows(s: State, step: Step)
    ensures Grows(s, Apply(s, step))
  {
  }

  lemma HeldStays(s: State, t: State, basis: nat, holder: UserId, at: Time)
    requires Grows(s, t) && at <= s.clock && HeldAt(s.rows, basis, holder, at)
    requires s.rows[basis].active <==> s.rows[basis].revokedAt.None?
    ensures HeldAt(t.rows, basis, holder, at)
  {
    assert Succeeds(s.rows[basis], t.rows[basis], s.clock, t.clock);
  }

  /** An allowed decision rests on a PLATFORM_ADMIN row of the actor's, in force. */
  lemma AuthorizedIsHeld(rows: seq<Assignment>, actor: Actor, permission: Permission, at: Time)
    requires permission == ROLE_ASSIGN || permission == ROLE_REVOKE
    ensures var d := Authorize(rows, actor, permission, at); d.Allowed? ==> HeldAt(rows, d.basis, actor.user, at)
  {
    AuthorizeExactly(rows, actor, permission, at);
    var d := Authorize(rows, actor, permission, at);
    if d.Allowed? {
      OnlyAdminsAdministerRoles(rows[d.basis].role);
    }
  }

  /** A peer is found exactly when the roles name one. */
  lemma PeerIsHeld(rows: seq<Assignment>, actor: Actor, at: Time)
    ensures FirstPeer(rows, actor, at) >= 0 <==> PLATFORM_ADMIN in ApplicableRoles(rows, actor, at)
    ensures FirstPeer(rows, actor, at) >= 0 ==> HeldAt(rows, FirstPeer(rows, actor, at), actor.user, at)
  {
    AuthorizeExactly(rows, actor, ROLE_ASSIGN, at);
    AuthorizedIsHeld(rows, actor, ROLE_ASSIGN, at);
    PeerExactly(rows, actor, at);
    forall role: Role ensures ROLE_ASSIGN in PermissionsGrantedTo(role) <==> role == PLATFORM_ADMIN {
      OnlyAdminsAdministerRoles(role);
    }
  }

  lemma CallStays(s: State, t: State, c: Call)
    requires Grows(s, t) && CallHolds(s, c) && forall i :: 0 <= i < |s.rows| ==> RowHolds(s.rows[i])
    ensures CallHolds(t, c)
  {
    match c.pc
    case CheckingPeer(basis, at) => HeldStays(s, t, basis, c.actor.user, at);
    case Creating(basis, at) => HeldStays(s, t, basis, c.actor.user, at);
    case Revoking(basis, at) => HeldStays(s, t, basis, c.actor.user, at);
    case Recording(row) => assert Succeeds(s.rows[row], t.rows[row], s.clock, t.clock);
    case Done(Written(row, _)) => assert Succeeds(s.rows[row], t.rows[row], s.clock, t.clock);
    case _ =>
  }

  /** A call moves on only with authority held at the time of its check. */
  lemma AdvanceKeepsCall(s: State, call: CallId, works: bool)
    requires call in s.calls && CallHolds(s, s.calls[call])
    ensures CallHolds(Advanced(s, call, works, s.clock), Advanced(s, call, works, s.clock).calls[call])
  {
    var c := s.calls[call];
    match c.pc
    case Authorizing => AuthorizedIsHeld(s.rows, c.actor, PermissionFor(c.request), s.clock);
    case CheckingPeer(_, _) => PeerIsHeld(s.rows, c.actor, s.clock);
    case _ =>
  }

  lemma StepKeepsCalls(s: State, step: Step, id: CallId)
    requires forall k :: k in s.calls ==> CallHolds(s, s.calls[k])
    requires forall i :: 0 <= i < |s.rows| ==> RowHolds(s.rows[i])
    requires id in Apply(s, step).calls
    ensures CallHolds(Apply(s, step), Apply(s, step).calls[id])
  {
    if step.Advance? && id == step.call && id in s.calls {
      AdvanceStep(s, step);
    } else if id in s.calls {
      StepGrows(s, step);
      CallStays(s, Apply(s, step), s.calls[id]);
    }
  }

  function Waited(s: State, wait: nat): State {
    s.(clock := s.clock + wait)
  }

  lemma WaitKeepsCall(s: State, wait: nat, c: Call)
    requires CallHolds(s, c)
    ensures CallHolds(Waited(s, wait), c)
  {
  }

  lemma ApplyAdvances(s: State, step: Step)
    requires step.Advance? && step.call in s.calls
    ensures Apply(s, step) == Advanced(Waited(s, step.wait), step.call, step.works, Waited(s, step.wait).clock)
  {
  }

  lemma AdvanceStep(s: State, step: Step)
    requires step.Advance? && step.call in s.calls && CallHolds(s, s.calls[step.call])
    ensures step.call in Apply(s, step).calls && CallHolds(Apply(s, step), Apply(s, step).calls[step.call])
  {
    WaitKeepsCall(s, step.wait, s.calls[step.call]);
    var later := Waited(s, step.wait);
    assert later.calls == s.calls;
    AdvanceKeepsCall(later, step.call, step.works);
    ApplyAdvances(s, step);
  }

  /** What a step does to the rows: nothing, one new row, or one revoked. */
  predicate OneRowChange(s: State, t: State) {
    || t.rows == s.rows
    || (exists c :: c in s.calls && s.calls[c].pc.Creating? && Created(s, t, s.calls[c]))
    || (exists c, i :: c in s.calls && s.calls[c].pc.Revoking? && 0 <= i < |s.rows| && Revoked(s, t, s.calls[c], i))
  }

  predicate Created(s: State, t: State, c: Call)
    requires c.pc.Creating?
  {
    var q := c.request;
    && !Conflicts(s.rows, q.user, q.role, q.tenant)
    && t.rows == s.rows + [NewRow(q.user, q.role, q.tenant, c.actor.user, t.clock)]
    && t.grounds == s.grounds[|s.rows| := (c.pc.basis, c.pc.at)]
  }

  predicate Revoked(s: State, t: State, c: Call, i: nat)
    requires c.pc.Revoking? && i < |s.rows|
  {
    && SameTarget(s.rows[i], c.request.user, c.request.role, c.request.tenant) && s.rows[i].active
    && s.rows[i].from < t.clock && t.rows == s.rows[i := RevokedRow(s.rows[i], c.actor.user, t.clock)]
        && t.grounds == s.grounds
  }

  lemma StepChangesOneRow(s: State, step: Step)
    ensures OneRowChange(s, Apply(s, step))
    ensures Apply(s, step).rows == s.rows ==> Apply(s, step).grounds == s.grounds
  {
    var t := Apply(s, step);
    if step.Advance? && step.call in s.calls {
      var c := s.calls[step.call];
      if c.pc.Creating? && t.rows != s.rows {
        assert Created(s, t, c);
      }
      if c.pc.Revoking? && t.rows != s.rows {
        var i := FindActive(s.rows, c.request.user, c.request.role, c.request.tenant);
        assert Revoked(s, t, c, i);
      }
    }
  }

  lemma GroundStays(s: State, t: State, i: nat)
    requires Grows(s, t) && i < |s.rows| && Grounded(s, i) && s.grounds[i].1 <= s.clock
    requires forall k :: 0 <= k < |s.rows| ==> RowHolds(s.rows[k])
    ensures Grounded(t, i)
  {
    HeldStays(s, t, s.grounds[i].0, s.rows[i].grantedBy, s.grounds[i].1);
    assert Succeeds(s.rows[i], t.rows[i], s.clock, t.clock);
  }

  lemma CreateKeepsRows(init: State, s: State, t: State, c: Call)
    requires Invariant(init, s) && Grows(s, t) && c.pc.Creating? && CallHolds(s, c) && Created(s, t, c)
    ensures forall i :: 0 <= i < |t.rows| ==> RowHolds(t.rows[i])
    ensures ActiveRowsUnique(t.rows) && Grounded(t, |s.rows|)
  {
    HeldStays(s, t, c.pc.basis, c.actor.user, c.pc.at);
  }

  /** Row by row: the ground of each written row was checked no later than now. */
  predicate GroundsPast(s: State) {
    forall i :: i in s.grounds ==> s.grounds[i].1 <= s.clock
  }

  lemma StepKeepsInvariant(init: State, s: State, step: Step)
    requires Invariant(init, s) && GroundsPast(s)
    ensures Invariant(init, Apply(s, step)) && GroundsPast(Apply(s, step))
  {
    var t := Apply(s, step);
    StepGrows(s, step);
    StepChangesOneRow(s, step);
    forall id | id in t.calls ensures CallHolds(t, t.calls[id]) {
      StepKeepsCalls(s, step, id);
    }
    RowsStep(init, s, t);
  }

  lemma RowsStep(init: State, s: State, t: State)
    requires Invariant(init, s) && GroundsPast(s) && Grows(s, t) && OneRowChange(s, t)
    requires t.rows == s.rows ==> t.grounds == s.grounds
    ensures (forall i :: 0 <= i < |t.rows| ==> RowHolds(t.rows[i])) && ActiveRowsUnique(t.rows)
    ensures forall i :: |init.rows| <= i < |t.rows| ==> Grounded(t, i)
    ensures (forall i :: i in t.grounds ==> i < |t.rows|) && GroundsPast(t)
  {
    forall i | |init.rows| <= i < |s.rows| ensures Grounded(t, i) {
      assert Grounded(s, i);
      GroundStays(s, t, i);
    }
    if c :| c in s.calls && s.calls[c].pc.Creating? && Created(s, t, s.calls[c]) {
      CreateKeepsRows(init, s, t, s.calls[c]);
    }
  }

  lemma {:induction false} RunKeepsInvariant(init: State, steps: seq<Step>)
    requires Bootstrap(init)
    ensures Invariant(init, Run(init, steps)) && GroundsPast(Run(init, steps))
  {
    if steps != [] {
      RunKeepsInvariant(init, steps[..|steps| - 1]);
      StepKeepsInvariant(init, Run(init, steps[..|steps| - 1]), steps[|steps| - 1]);
    }
  }

  lemma GrowsTransitive(s: State, t: State, u: State)
    requires Grows(s, t) && Grows(t, u)
    ensures Grows(s, u)
  {
    forall i | 0 <= i < |s.rows| ensures Succeeds(s.rows[i], u.rows[i], s.clock, u.clock) {
      assert Succeeds(s.rows[i], t.rows[i], s.clock, t.clock) && Succeeds(t.rows[i], u.rows[i], t.clock, u.clock);
    }
  }

  lemma {:induction false} RunGrows(init: State, steps: seq<Step>, more: seq<Step>)
    ensures Grows(Run(init, steps), Run(init, steps + more))
  {
    if more == [] {
      assert steps + more == steps;
    } else {
      var front, last := more[..|more| - 1], more[|more| - 1];
      RunGrows(init, steps, front);
      assert steps + more == (steps + front) + [last];
      RunAppends(init, steps + front, last);
      StepGrows(Run(init, steps + front), last);
      GrowsTransitive(Run(init, steps), Run(init, steps + front), Run(init, steps + more));
    }
  }

  // ---------------------------------------------------------------------
  // Where authority comes from
  // ---------------------------------------------------------------------

  /** The holder of row j granted row i, later, as PLATFORM_ADMIN. */
  predicate GrantedUnder(rows: seq<Assignment>, i: nat, j: nat) {
    j < i < |rows| && rows[j].role == PLATFORM_ADMIN && rows[j].user == rows[i].grantedBy && rows[j].from <= rows[i].from
  }

  /** Each row of the chain was granted under the next; the last is a bootstrap row. */
  predicate GrantChain(init: State, rows: seq<Assignment>, chain: seq<nat>) {
    && |chain| > 0
    && if |chain| == 1 then chain[0] < |init.rows|
       else GrantedUnder(rows, chain[0], chain[1]) && GrantChain(init, rows, chain[1..])
  }

  /** Over every interleaving of grants and revocations, every row ever written goes
      back, grant by grant through PLATFORM_ADMIN holders, to a bootstrap row. */
  lemma {:induction false} EveryGrantHasAChain(init: State, steps: seq<Step>, i: nat) returns (chain: seq<nat>)
    requires Bootstrap(init) && i < |Run(init, steps).rows|
    ensures GrantChain(init, Run(init, steps).rows, chain) && chain[0] == i
    decreases i
  {
    if i < |init.rows| {
      chain := [i];
    } else {
      GranterHeldAuthority(init, steps, i);
      var j := Run(init, steps).grounds[i].0;
      var rest := EveryGrantHasAChain(init, steps, j);
      chain := [i] + rest;
      assert chain[1..] == rest;
    }
  }

  /** The granter's row was in force when its authority was checked: not revoked
      before, and begun by then. */
  lemma GranterHeldAuthority(init: State, steps: seq<Step>, i: nat)
    requires Bootstrap(init) && |init.rows| <= i < |Run(init, steps).rows|
    ensures var s := Run(init, steps);
            && i in s.grounds && s.grounds[i].0 < i && s.grounds[i].1 <= s.rows[i].from
            && HeldAt(s.rows, s.grounds[i].0, s.rows[i].grantedBy, s.grounds[i].1)
            && ScopeAdmits(ScopeOf(s.rows[i].role), s.rows[i].tenant.Some?)
            && exists actor: Actor :: && actor.user == s.rows[i].grantedBy
                               && CheckedIn(init, steps, s.grounds[i].0, actor, s.grounds[i].1)
  {
    RunKeepsInvariant(init, steps);
    assert Grounded(Run(init, steps), i);
    GroundsWereChecked(init, steps, i);
  }

  /** The row is a PLATFORM_ADMIN row that applies to the actor and is in force. */
  predicate Empowers(a: Assignment, actor: Actor, at: Time) {
    Applicable(a, actor, at) && a.role == PLATFORM_ADMIN
  }

  /** In the store as it stood at that time of the run, the row empowered the actor. */
  ghost predicate CheckedIn(init: State, steps: seq<Step>, basis: nat, actor: Actor, at: Time) {
    exists n :: 0 <= n <= |steps| && CheckedAt(Run(init, steps[..n]), basis, actor, at)
  }

  predicate CheckedAt(s: State, basis: nat, actor: Actor, at: Time) {
    s.clock == at && basis < |s.rows| && Empowers(s.rows[basis], actor, at)
  }

  lemma CheckedStays(init: State, before: seq<Step>, step: Step, basis: nat, actor: Actor, at: Time)
    requires CheckedIn(init, before, basis, actor, at)
    ensures CheckedIn(init, before + [step], basis, actor, at)
  {
    var n :| 0 <= n <= |before| && CheckedAt(Run(init, before[..n]), basis, actor, at);
    assert (before + [step])[..n] == before[..n];
  }

  predicate PastCheck(pc: Pc) {
    pc.CheckingPeer? || pc.Creating? || pc.Revoking?
  }

  /** A check lets a call on only by a row that empowers its actor then. */
  lemma AuthorizingChecks(rows: seq<Assignment>, c: Call, works: bool, now: Time)
    ensures var pc := AfterAuthorizing(rows, c, works, now);
            PastCheck(pc) ==> pc.at == now && pc.basis < |rows| && Empowers(rows[pc.basis], c.actor, now)
  {
    AuthorizeExactly(rows, c.actor, PermissionFor(c.request), now);
    AuthorizedIsHeld(rows, c.actor, PermissionFor(c.request), now);
  }

  lemma PeerChecks(rows: seq<Assignment>, c: Call, works: bool, now: Time)
    ensures var pc := AfterCheckingPeer(rows, c, works, now);
            PastCheck(pc) ==> pc.at == now && pc.basis < |rows| && Empowers(rows[pc.basis], c.actor, now)
  {
    PeerIsHeld(rows, c.actor, now);
    AuthorizeExactly(rows, c.actor, ROLE_ASSIGN, now);
  }

  lemma WritesDoNotCheck(s: State, call: CallId, works: bool, wait: nat)
    requires call in s.calls && !s.calls[call].pc.Authorizing? && !s.calls[call].pc.CheckingPeer?
    ensures var t := Apply(s, Advance(call, works, wait)); call in t.calls && !PastCheck(t.calls[call].pc)
  {
  }

  /** A call that a step leaves past its check was checked by that step. */
  lemma ChecksAreMade(s: State, call: CallId, works: bool, wait: nat)
    requires call in s.calls
    ensures var t := Apply(s, Advance(call, works, wait));
            && call in t.calls
            && (PastCheck(t.calls[call].pc) ==>
                  && t.calls[call].actor == s.calls[call].actor
                  && CheckedAt(t, t.calls[call].pc.basis, s.calls[call].actor, t.calls[call].pc.at))
  {
    if s.calls[call].pc.Authorizing? {
      CheckingStep(s, call, works, wait);
      AuthorizingChecks(s.rows, s.calls[call], works, s.clock + wait);
    } else if s.calls[call].pc.CheckingPeer? {
      CheckingStep(s, call, works, wait);
      PeerChecks(s.rows, s.calls[call], works, s.clock + wait);
    } else {
      WritesDoNotCheck(s, call, works, wait);
    }
  }

  lemma OthersDoNotMove(s: State, step: Step, id: CallId)
    requires id in Apply(s, step).calls && PastCheck(Apply(s, step).calls[id].pc)
        && !(step.Advance? && step.call == id && id in s.calls)
    ensures id in s.calls && Apply(s, step).calls[id] == s.calls[id]
  {
  }

  /** What a call past its check was let on by was so at a step of the run. */
  lemma {:induction false} CallsWereChecked(init: State, steps: seq<Step>, id: CallId)
    requires init.calls == map[] && id in Run(init, steps).calls && PastCheck(Run(init, steps).calls[id].pc)
    ensures var c := Run(init, steps).calls[id]; CheckedIn(init, steps, c.pc.basis, c.actor, c.pc.at)
  {
    var before, step := steps[..|steps| - 1], steps[|steps| - 1];
    assert steps == before + [step];
    var s := Run(init, before);
    RunAppends(init, before, step);
    if step.Advance? && step.call == id && id in s.calls {
      ChecksAreMade(s, id, step.works, step.wait);
      assert steps[..|steps|] == steps;
    } else {
      OthersDoNotMove(s, step, id);
      CallsWereChecked(init, before, id);
      CheckedStays(init, before, step, s.calls[id].pc.basis, s.calls[id].actor, s.calls[id].pc.at);
    }
  }

  lemma OldGround(init: State, steps: seq<Step>, i: nat)
    requires Bootstrap(init) && |init.rows| <= i < |Run(init, steps).rows|
    ensures i in Run(init, steps).grounds
  {
    RunKeepsInvariant(init, steps);
    assert Grounded(Run(init, steps), i);
  }

  lemma {:induction false} GroundsWereChecked(init: State, steps: seq<Step>, i: nat)
    requires Bootstrap(init) && |init.rows| <= i < |Run(init, steps).rows| && i in Run(init, steps).grounds
    ensures var s := Run(init, steps);
            exists actor: Actor :: actor.user == s.rows[i].grantedBy
                && CheckedIn(init, steps, s.grounds[i].0, actor, s.grounds[i].1)
  {
    var before, step := steps[..|steps| - 1], steps[|steps| - 1];
    assert steps == before + [step];
    var s, t := Run(init, before), Run(init, steps);
    StepGrows(s, step);
    if i < |s.rows| {
      OldGround(init, before, i);
      GroundsWereChecked(init, before, i);
      var actor: Actor :| actor.user == s.rows[i].grantedBy && CheckedIn(init, before, s.grounds[i].0, actor, s.grounds[i].1);
      assert Succeeds(s.rows[i], t.rows[i], s.clock, t.clock);
      CheckedStays(init, before, step, s.grounds[i].0, actor, s.grounds[i].1);
    } else {
      StepChangesOneRow(s, step);
      var c :| c in s.calls && s.calls[c].pc.Creating? && Created(s, t, s.calls[c]);
      CallsWereChecked(init, before, c);
      CheckedStays(init, before, step, s.calls[c].pc.basis, s.calls[c].actor, s.calls[c].pc.at);
    }
  }

  // ---------------------------------------------------------------------
  // Between the check and the write
  // ---------------------------------------------------------------------

  /** The row was revoked, or its end has come. */
  predicate Lapsed(a: Assignment, now: Time) {
    a.revokedAt.Some? || (a.to.Some? && a.to.value <= now)
  }

  /** Row j empowers the actor at `at` in the earlier store. */
  predicate Held(s: State, j: int, actor: Actor, at: Time) {
    0 <= j < |s.rows| && Empowers(s.rows[j], actor, at)
  }

  /** Row j empowers the actor by now, and was written, or began, only after the check. */
  predicate Gained(s: State, t: State, j: int, actor: Actor, at: Time, now: Time) {
    0 <= j < |t.rows| && Empowers(t.rows[j], actor, now) && (j >= |s.rows| || at < s.rows[j].from)
  }

  /** All that empowered the actor at the check has lapsed, and it has gained nothing since. */
  ghost predicate LostIn(s: State, t: State, actor: Actor, at: Time, now: Time)
    requires |s.rows| <= |t.rows|
  {
    (forall j :: Held(s, j, actor, at) ==> Lapsed(t.rows[j], now)) && (forall j :: !Gained(s, t, j, actor, at, now))
  }

  /** A row in force at one time is in force later exactly if it has not lapsed. */
  lemma InForceUnlessLapsed(s: State, t: State, j: nat, actor: Actor, at: Time, now: Time)
    requires Grows(s, t) && at <= s.clock && t.clock <= now && j < |s.rows| && Empowers(s.rows[j], actor, at)
    ensures Empowers(t.rows[j], actor, now) <==> !Lapsed(t.rows[j], now)
  {
    assert Succeeds(s.rows[j], t.rows[j], s.clock, t.clock);
  }

  /** The store as a call past its check was checked on it, which grew to this one. */
  lemma CheckOf(init: State, steps: seq<Step>, call: CallId) returns (n: nat, s: State)
    requires Bootstrap(init) && call in Run(init, steps).calls && PastCheck(Run(init, steps).calls[call].pc)
    ensures n <= |steps| && s == Run(init, steps[..n]) && Grows(s, Run(init, steps))
    ensures var c := Run(init, steps).calls[call]; CheckedAt(s, c.pc.basis, c.actor, c.pc.at)
  {
    CallsWereChecked(init, steps, call);
    var c := Run(init, steps).calls[call];
    n :| 0 <= n <= |steps| && CheckedAt(Run(init, steps[..n]), c.pc.basis, c.actor, c.pc.at);
    s := Run(init, steps[..n]);
    PrefixGrows(init, steps, n);
  }

  lemma PrefixGrows(init: State, steps: seq<Step>, n: nat)
    requires n <= |steps|
    ensures Grows(Run(init, steps[..n]), Run(init, steps))
  {
    RunGrows(init, steps[..n], steps[n..]);
    assert steps == steps[..n] + steps[n..];
  }

  /** At the write, over every run: the row the check rested on is still in force
      exactly if it is not revoked and its end has not come. */
  lemma BasisInForceExactly(init: State, steps: seq<Step>, call: CallId, now: Time)
    requires Bootstrap(init) && call in Run(init, steps).calls && Run(init, steps).calls[call].pc.Creating?
    requires Run(init, steps).clock <= now
    ensures var s := Run(init, steps);
            var c := s.calls[call];
            && c.pc.basis < |s.rows|
            && (Empowers(s.rows[c.pc.basis], c.actor, now) <==> !Lapsed(s.rows[c.pc.basis], now))
  {
    var n, s := CheckOf(init, steps, call);
    var t := Run(init, steps);
    InForceUnlessLapsed(s, t, t.calls[call].pc.basis, t.calls[call].actor, t.calls[call].pc.at, now);
  }

  /** Asked again at the write, the policy would deny the granter. */
  predicate WouldBeDenied(s: State, call: CallId, now: Time)
    requires call in s.calls
  {
    !Authorize(s.rows, s.calls[call].actor, ROLE_ASSIGN, now).Allowed?
  }

  lemma DeniedMeansNoneInForce(s: State, call: CallId, now: Time)
    requires call in s.calls
    ensures WouldBeDenied(s, call, now) <==> NoneHeld(s, s.calls[call].actor, now)
  {
    AuthorizeExactly(s.rows, s.calls[call].actor, ROLE_ASSIGN, now);
    forall role: Role ensures ROLE_ASSIGN in PermissionsGrantedTo(role) <==> role == PLATFORM_ADMIN {
      OnlyAdminsAdministerRoles(role);
    }
    assert forall j :: Held(s, j, s.calls[call].actor, now) <==>
                         0 <= j < |s.rows| && Empowers(s.rows[j], s.calls[call].actor, now);
  }

  /** At the write, over every run, with the step of the check named: the granter has
      lost its authority exactly if every row that empowered it at the check has
      lapsed and it has gained none since. */
  lemma AuthorityLostExactly(init: State, steps: seq<Step>, call: CallId, now: Time) returns (n: nat, s: State)
    requires Bootstrap(init) && call in Run(init, steps).calls && Run(init, steps).calls[call].pc.Creating?
    requires Run(init, steps).clock <= now
    ensures n <= |steps| && s == Run(init, steps[..n]) && |s.rows| <= |Run(init, steps).rows|
    ensures var t := Run(init, steps);
            var c := t.calls[call];
            && CheckedAt(s, c.pc.basis, c.actor, c.pc.at)
            && (WouldBeDenied(t, call, now) <==> LostIn(s, t, c.actor, c.pc.at, now))
  {
    n, s := CheckOf(init, steps, call);
    var t := Run(init, steps);
    DeniedMeansNoneInForce(t, call, now);
    LostExactly(s, t, t.calls[call].actor, t.calls[call].pc.at, now);
  }

  lemma LostExactly(s: State, t: State, actor: Actor, at: Time, now: Time)
    requires Grows(s, t) && s.clock == at && t.clock <= now
    ensures NoneHeld(t, actor, now) <==> LostIn(s, t, actor, at, now)
  {
    forall j ensures Held(t, j, actor, now) <==>
                       (Held(s, j, actor, at) && !Lapsed(t.rows[j], now)) || Gained(s, t, j, actor, at, now) {
      if 0 <= j < |s.rows| {
        assert Succeeds(s.rows[j], t.rows[j], s.clock, t.clock);
        if Empowers(s.rows[j], actor, at) {
          InForceUnlessLapsed(s, t, j, actor, at, now);
        }
      }
    }
  }

  /** No PLATFORM_ADMIN row of the granter was in force when row i was written. */
  predicate GrantedWithoutAuthority(rows: seq<Assignment>, i: int) {
    && 0 <= i < |rows|
    && forall j :: 0 <= j < i && rows[j].user == rows[i].grantedBy && rows[j].role == PLATFORM_ADMIN ==>
         !ActiveAt(rows[j], rows[i].from)
  }

  /** A row is written without authority only if the row its check rested on was revoked,
      or ended, between the check and the write. */
  lemma OnlyLapsedBasisGrantsWithout(init: State, steps: seq<Step>, call: CallId, wait: nat)
    requires Bootstrap(init) && call in Run(init, steps).calls && Run(init, steps).calls[call].pc.Creating?
    requires var s := Run(init, steps);
             var t := Apply(s, Advance(call, true, wait));
             |t.rows| > |s.rows| && GrantedWithoutAuthority(t.rows, |s.rows|)
    ensures var s := Run(init, steps);
            var pc := s.calls[call].pc;
            && pc.basis < |s.rows|
            && var basis := s.rows[pc.basis];
               || (basis.revokedAt.Some? && pc.at <= basis.revokedAt.value <= s.clock)
               || (basis.to.Some? && pc.at < basis.to.value <= s.clock + wait)
  {
    BasisInForceExactly(init, steps, call, Run(init, steps).clock + wait);
    WithoutAuthorityIsLapsed(Run(init, steps), call, wait);
    LapsedSinceCheck(init, steps, call, Run(init, steps).clock + wait);
  }

  lemma WithoutAuthorityIsLapsed(s: State, call: CallId, wait: nat)
    requires call in s.calls && s.calls[call].pc.Creating? && s.calls[call].pc.basis < |s.rows|
    requires var t := Apply(s, Advance(call, true, wait));
             |t.rows| > |s.rows| && GrantedWithoutAuthority(t.rows, |s.rows|)
    ensures !Empowers(s.rows[s.calls[call].pc.basis], s.calls[call].actor, s.clock + wait)
  {
    WrittenAtTheClock(s, call, wait);
    var t := Apply(s, Advance(call, true, wait));
    assert t.rows[s.calls[call].pc.basis] == t.rows[..|s.rows|][s.calls[call].pc.basis];
  }

  /** If the row the check rested on has lapsed, it lapsed since the check. */
  lemma LapsedSinceCheck(init: State, steps: seq<Step>, call: CallId, now: Time)
    requires Bootstrap(init) && call in Run(init, steps).calls && Run(init, steps).calls[call].pc.Creating?
    ensures var s := Run(init, steps);
            var pc := s.calls[call].pc;
            && pc.basis < |s.rows|
            && (Lapsed(s.rows[pc.basis], now) ==>
                  || (s.rows[pc.basis].revokedAt.Some? && pc.at <= s.rows[pc.basis].revokedAt.value <= s.clock)
                  || (s.rows[pc.basis].to.Some? && pc.at < s.rows[pc.basis].to.value <= now))
  {
    var n, s := CheckOf(init, steps, call);
    var t := Run(init, steps);
    var basis := t.calls[call].pc.basis;
    assert Succeeds(s.rows[basis], t.rows[basis], s.clock, t.clock);
  }

  /** The row written is without authority exactly if, in every tenant context, all that
      empowered the granter at the check has lapsed and nothing was gained since. */
  lemma GrantedWithoutAuthorityExactly(init: State, steps: seq<Step>, call: CallId, wait: nat) returns (n: nat, s: State)
    requires Bootstrap(init) && call in Run(init, steps).calls && Run(init, steps).calls[call].pc.Creating?
    ensures n <= |steps| && s == Run(init, steps[..n]) && |s.rows| <= |Run(init, steps).rows|
    ensures var c := Run(init, steps).calls[call]; CheckedAt(s, c.pc.basis, c.actor, c.pc.at)
    ensures GrantsWithoutExactlyIfLost(s, Run(init, steps), call, wait)
  {
    n, s := CheckOf(init, steps, call);
    var t := Run(init, steps);
    if |Apply(t, Advance(call, true, wait)).rows| > |t.rows| {
      WrittenWithoutExactly(s, t, call, wait);
    }
  }

  /** If the call writes its row now, the row is without authority exactly if all that
      empowered the granter has lapsed and nothing was gained. */
  ghost predicate GrantsWithoutExactlyIfLost(s: State, t: State, call: CallId, wait: nat)
    requires call in t.calls && t.calls[call].pc.Creating? && |s.rows| <= |t.rows|
  {
    var after := Apply(t, Advance(call, true, wait)).rows;
    |after| > |t.rows| ==>
      (GrantedWithoutAuthority(after, |t.rows|)
       <==> LostEverywhere(s, t, t.calls[call].actor.user, t.calls[call].pc.at, t.clock + wait))
  }

  /** In every tenant context. */
  ghost predicate LostEverywhere(s: State, t: State, user: UserId, at: Time, now: Time)
    requires |s.rows| <= |t.rows|
  {
    forall a: Actor :: a.user == user ==> LostIn(s, t, a, at, now)
  }

  lemma WrittenWithoutExactly(s: State, t: State, call: CallId, wait: nat)
    requires call in t.calls && t.calls[call].pc.Creating? && Grows(s, t) && s.clock == t.calls[call].pc.at
    requires |Apply(t, Advance(call, true, wait)).rows| > |t.rows|
    ensures GrantedWithoutAuthority(Apply(t, Advance(call, true, wait)).rows, |t.rows|)
       <==> LostEverywhere(s, t, t.calls[call].actor.user, t.calls[call].pc.at, t.clock + wait)
  {
    WithoutAuthorityMeans(t, call, wait, t.clock + wait);
    EveryContextLost(s, t, t.calls[call].actor.user, t.calls[call].pc.at, t.clock + wait);
  }

  ghost predicate NoneHeld(s: State, actor: Actor, now: Time) {
    forall j :: !Held(s, j, actor, now)
  }

  lemma EveryContextLost(s: State, t: State, user: UserId, at: Time, now: Time)
    requires Grows(s, t) && s.clock == at && t.clock <= now
    ensures (forall a: Actor :: a.user == user ==> NoneHeld(t, a, now))
       <==> LostEverywhere(s, t, user, at, now)
  {
    forall a: Actor ensures NoneHeld(t, a, now) <==> LostIn(s, t, a, at, now) {
      LostExactly(s, t, a, at, now);
    }
  }

  lemma WithoutAuthorityMeans(s: State, call: CallId, wait: nat, now: Time)
    requires call in s.calls && s.calls[call].pc.Creating? && now == s.clock + wait
    requires |Apply(s, Advance(call, true, wait)).rows| > |s.rows|
    ensures GrantedWithoutAuthority(Apply(s, Advance(call, true, wait)).rows, |s.rows|)
       <==> forall a: Actor :: a.user == s.calls[call].actor.user ==> NoneHeld(s, a, now)
  {
    WrittenAtTheClock(s, call, wait);
    var t, user := Apply(s, Advance(call, true, wait)), s.calls[call].actor.user;
    forall j | 0 <= j < |s.rows| ensures t.rows[j] == s.rows[j] {
      assert t.rows[j] == t.rows[..|s.rows|][j];
    }
    if forall a: Actor :: a.user == user ==> NoneHeld(s, a, now) {
      forall j | 0 <= j < |s.rows| && s.rows[j].user == user && s.rows[j].role == PLATFORM_ADMIN
        ensures !ActiveAt(s.rows[j], now) {
        assert NoneHeld(s, Actor(user, s.rows[j].tenant), now);
        assert !Held(s, j, Actor(user, s.rows[j].tenant), now);
      }
    }
  }

  lemma WrittenAtTheClock(s: State, call: CallId, wait: nat)
    requires call in s.calls && s.calls[call].pc.Creating?
    ensures var t := Apply(s, Advance(call, true, wait));
            |t.rows| > |s.rows| ==>
              && t.rows[..|s.rows|] == s.rows
              && t.rows[|s.rows|].grantedBy == s.calls[call].actor.user && t.rows[|s.rows|].from == s.clock + wait
  {
  }

  /** What a step does to the rows, field by field. A new row is the request's, ACTIVE,
      granted by the actor, from now on without end; a revoked one keeps all but its
      status and its end, which is now. */
  lemma RowsChangeExactly(s: State, step: Step)
    requires Apply(s, step).rows != s.rows
    ensures step.Advance? && step.works && step.call in s.calls
    ensures var c, now, t := s.calls[step.call], s.clock + step.wait, Apply(s, step).rows;
            || (&& c.pc.Creating? && |t| == |s.rows| + 1 && t[..|s.rows|] == s.rows
                && t[|s.rows|] == Assignment(c.request.user, c.request.role, c.request.tenant, true, c.actor.user,
                                             now, None, None, None)
                && forall i :: 0 <= i < |s.rows| && s.rows[i].active ==>
                     !(s.rows[i].user == c.request.user && s.rows[i].role == c.request.role
                       && s.rows[i].tenant == c.request.tenant))
            || (&& c.pc.Revoking?
                && exists i :: && 0 <= i < |s.rows| && s.rows[i].active && s.rows[i].from < now
                               && s.rows[i].user == c.request.user && s.rows[i].role == c.request.role
                               && s.rows[i].tenant == c.request.tenant
                               && t == s.rows[i := Assignment(s.rows[i].user, s.rows[i].role, s.rows[i].tenant, false,
                                                              s.rows[i].grantedBy, s.rows[i].from, Some(now), Some(now),
                                                              Some(c.actor.user))])
  {
    var c := s.calls[step.call];
    if c.pc.Revoking? {
      var i := FindActive(s.rows, c.request.user, c.request.role, c.request.tenant);
      assert s.rows[i].active;
    }
  }

  /** A tenant role is stored with a tenant, every other role without. */
  lemma WrittenRowsAreScoped(init: State, steps: seq<Step>, i: nat)
    requires Bootstrap(init) && |init.rows| <= i < |Run(init, steps).rows|
    ensures var row := Run(init, steps).rows[i]; row.tenant.Some? <==> row.role == TENANT_MEMBER || row.role == TENANT_ADMIN
  {
    GranterHeldAuthority(init, steps, i);
    CatalogueTable(Run(init, steps).rows[i].role, ROLE_ASSIGN);
  }

  /** Who is turned away before anything is read, and how. */
  lemma TurnedAwayExactly(s: State, id: CallId, actor: Actor, q: Request)
    requires id !in s.calls
    ensures var pc := Apply(s, Start(id, actor, q)).calls[id].pc;
            var misplaced := q.grants && (q.tenant.Some? <==> q.role != TENANT_MEMBER && q.role != TENANT_ADMIN);
            && (pc == Done(InvalidInput) <==> !q.inputValid || (q.roleKnown && !q.tenantValid))
            && (pc == Done(RoleNotFound) <==> q.inputValid && !q.roleKnown)
            && (pc == Done(ScopeMismatch) <==> q.inputValid && q.roleKnown && q.tenantValid && misplaced)
            && (pc == Authorizing <==> q.inputValid && q.roleKnown && q.tenantValid && !misplaced)
  {
  }

  /** A checked call moves on, and is denied, exactly as the policy says; a grant of
      PLATFORM_ADMIN asks the peers too. */
  lemma ChecksLeadOn(s: State, id: CallId, works: bool, wait: nat)
    requires id in s.calls && s.calls[id].pc.Authorizing?
    ensures var c, pc := s.calls[id], Apply(s, Advance(id, works, wait)).calls[id].pc;
            var d := Authorize(s.rows, c.actor, if c.request.grants then ROLE_ASSIGN else ROLE_REVOKE, s.clock + wait);
            && (pc == RecordingDenial(NotAuthorized) <==> !works || !d.Allowed?)
            && (pc.Revoking? <==> works && d.Allowed? && !c.request.grants)
            && (pc.CheckingPeer? <==> works && d.Allowed? && c.request.grants && c.request.role == PLATFORM_ADMIN)
            && (pc.Creating? <==> works && d.Allowed? && c.request.grants && c.request.role != PLATFORM_ADMIN)
  {
    CheckingStep(s, id, works, wait);
  }

  /** A grant of PLATFORM_ADMIN goes on exactly if the actor has such a row in force. */
  lemma PeersLeadOn(s: State, id: CallId, works: bool, wait: nat)
    requires id in s.calls && s.calls[id].pc.CheckingPeer?
    ensures var c, pc, now := s.calls[id], Apply(s, Advance(id, works, wait)).calls[id].pc, s.clock + wait;
            var peer := exists i :: && 0 <= i < |s.rows| && s.rows[i].user == c.actor.user && s.rows[i].role == PLATFORM_ADMIN
                                    && s.rows[i].active && s.rows[i].revokedAt == None && s.rows[i].from <= now
                                    && (s.rows[i].to == None || now < s.rows[i].to.value)
                                    && (s.rows[i].tenant == None || s.rows[i].tenant == c.actor.tenant);
            && (pc.Creating? <==> works && peer)
            && (pc == RecordingDenial(DelegationDenied) <==> works && !peer)
            && (pc == Done(StoreFailure) <==> !works)
  {
    CheckingStep(s, id, works, wait);
    PeerExactly(s.rows, s.calls[id].actor, s.clock + wait);
  }

  /** How the writes answer: a second ACTIVE row is refused, a missing one not found. */
  lemma WritesAnswerExactly(s: State, id: CallId, works: bool, wait: nat)
    requires id in s.calls && (s.calls[id].pc.Creating? || s.calls[id].pc.Revoking?)
    ensures var c, pc := s.calls[id], Apply(s, Advance(id, works, wait)).calls[id].pc;
            var there := exists i :: && 0 <= i < |s.rows| && s.rows[i].active && s.rows[i].user == c.request.user
                                     && s.rows[i].role == c.request.role && s.rows[i].tenant == c.request.tenant;
            && (c.pc.Creating? ==>
                  && (pc == Done(AlreadyAssigned) <==> works && there)
                  && (pc == Recording(|s.rows|) <==> works && !there)
                  && (pc == Done(StoreFailure) <==> !works))
            && (c.pc.Revoking? ==> (pc == Done(AssignmentNotFound) <==> works && !there))
  {
    var c := s.calls[id];
    var i := FindActive(s.rows, c.request.user, c.request.role, c.request.tenant);
  }

  /** The last port call answers, and the audit grows by exactly its record: a denial of the
      target asked for, or the row written. No other step records anything. */
  lemma RecordsAnswerExactly(s: State, step: Step)
    ensures var t := Apply(s, step);
            if step.Advance? && step.call in s.calls then
              var c, pc := s.calls[step.call], t.calls[step.call].pc;
              match c.pc
              case RecordingDenial(answer) =>
                && pc == Done(answer)
                && t.audit == if step.works then s.audit + [Denial(c.actor.user, c.request)] else s.audit
              case Recording(row) =>
                && pc == Done(Written(row, step.works))
                && t.audit == if step.works then s.audit + [Success(c.actor.user, c.request, row)] else s.audit
              case Done(answer) => pc == Done(answer) && t.audit == s.audit
              case _ => t.audit == s.audit
            else t.audit == s.audit
  {
  }

  /** A call told its row is written finds it written as it asked, and on record if it
      was told so. */
  lemma SuccessAnswersAreWritten(init: State, steps: seq<Step>, id: CallId)
    requires Bootstrap(init)
    requires var calls := Run(init, steps).calls; id in calls && calls[id].pc.Done? && calls[id].pc.answer.Written?
    ensures var s := Run(init, steps);
            var c := s.calls[id];
            && Wrote(s.rows, c, c.pc.answer.row)
            && (c.pc.answer.audited ==> Success(c.actor.user, c.request, c.pc.answer.row) in s.audit)
  {
    RunKeepsInvariant(init, steps);
    assert CallHolds(Run(init, steps), Run(init, steps).calls[id]);
  }

  /** A target never has two ACTIVE rows. */
  lemma OneActiveRowPerTarget(init: State, steps: seq<Step>, i: nat, j: nat)
    requires Bootstrap(init)
    requires var rows := Run(init, steps).rows;
             && i < |rows| && j < |rows| && rows[i].active && rows[j].active
             && SameTarget(rows[i], rows[j].user, rows[j].role, rows[j].tenant)
    ensures i == j
  {
    RunKeepsInvariant(init, steps);
  }

  // ---------------------------------------------------------------------
  // A store without authority
  // ---------------------------------------------------------------------

  /** No PLATFORM_ADMIN row is, or will be, in force, and no call is past its check. */
  ghost predicate Powerless(s: State) {
    && (forall i :: 0 <= i < |s.rows| ==> Spent(s.rows[i], s.clock))
    && forall id :: id in s.calls ==> !s.calls[id].pc.Creating? && !s.calls[id].pc.Revoking?
  }

  predicate Spent(a: Assignment, clock: Time) {
    a.role != PLATFORM_ADMIN || !a.active || a.revokedAt.Some? || (a.to.Some? && a.to.value <= clock)
  }

  lemma PowerlessDenies(rows: seq<Assignment>, clock: Time, actor: Actor, permission: Permission, at: Time)
    requires clock <= at && forall i :: 0 <= i < |rows| ==> Spent(rows[i], clock)
    requires permission == ROLE_ASSIGN || permission == ROLE_REVOKE
    ensures !Authorize(rows, actor, permission, at).Allowed?
  {
    AuthorizeExactly(rows, actor, permission, at);
    AuthorizedIsHeld(rows, actor, permission, at);
  }

  lemma PowerlessCallStops(s: State, call: CallId, works: bool, now: Time)
    requires Powerless(s) && call in s.calls && s.clock <= now
    ensures var t := Advanced(s, call, works, now);
            && t.rows == s.rows && t.calls.Keys == s.calls.Keys
            && (forall id :: id in s.calls && id != call ==> t.calls[id] == s.calls[id])
            && !t.calls[call].pc.Creating? && !t.calls[call].pc.Revoking?
  {
    var c := s.calls[call];
    if c.pc.Authorizing? {
      PowerlessDenies(s.rows, s.clock, c.actor, PermissionFor(c.request), now);
    } else if c.pc.CheckingPeer? {
      PowerlessDenies(s.rows, s.clock, c.actor, ROLE_ASSIGN, now);
      NoPeerWithoutAuthority(s.rows, c.actor, now);
    }
  }

  lemma StepKeepsPowerless(s: State, step: Step)
    requires Powerless(s)
    ensures Powerless(Apply(s, step)) && Apply(s, step).rows == s.rows
  {
    if step.Advance? && step.call in s.calls {
      var later := Waited(s, step.wait);
      ApplyAdvances(s, step);
      PowerlessWaits(s, step.wait);
      PowerlessCallStops(later, step.call, step.works, later.clock);
      AdvancedKeepsClock(later, step.call, step.works);
    }
  }

  lemma PowerlessWaits(s: State, wait: nat)
    requires Powerless(s)
    ensures Powerless(Waited(s, wait)) && Waited(s, wait).rows == s.rows && Waited(s, wait).calls == s.calls
  {
  }

  lemma AdvancedKeepsClock(s: State, call: CallId, works: bool)
    requires call in s.calls
    ensures Advanced(s, call, works, s.clock).clock == s.clock
  {
  }

  lemma NoPeerWithoutAuthority(rows: seq<Assignment>, actor: Actor, at: Time)
    requires !Authorize(rows, actor, ROLE_ASSIGN, at).Allowed?
    ensures FirstPeer(rows, actor, at) == -1
  {
  }

  /** Authority cannot appear from nothing: a store without a current or future
      PLATFORM_ADMIN row never changes again. */
  lemma {:induction false} PowerlessStoreIsFrozen(init: State, steps: seq<Step>, more: seq<Step>)
    requires Powerless(Run(init, steps))
    ensures Powerless(Run(init, steps + more)) && Run(init, steps + more).rows == Run(init, steps).rows
  {
    if more == [] {
      assert steps + more == steps;
    } else {
      var front, last := more[..|more| - 1], more[|more| - 1];
      PowerlessStoreIsFrozen(init, steps, front);
      StepKeepsPowerless(Run(init, steps + front), last);
      assert Run(init, steps + more) == Apply(Run(init, steps + front), last) by {
        assert steps + more == (steps + front) + [last];
        RunAppends(init, steps + front, last);
      }
    }
  }

  // ---------------------------------------------------------------------
  // After a revocation
  // ---------------------------------------------------------------------

  /** A revoked row stays as it is and no later decision rests on it, for any actor,
      permission or time; and a row written with it as ground was authorized no later
      than the revocation. */
  lemma RevokedRowsDecideNothing(
    init: State, steps: seq<Step>, more: seq<Step>, i: nat, actor: Actor, permission: Permission, at: Time)
    requires Bootstrap(init) && i < |Run(init, steps).rows| && !Run(init, steps).rows[i].active
    ensures var t := Run(init, steps + more);
            && i < |t.rows| && t.rows[i] == Run(init, steps).rows[i]
            && Authorize(t.rows, actor, permission, at) != Allowed(i)
            && (forall k :: |init.rows| <= k < |t.rows| && k in t.grounds && t.grounds[k].0 == i ==>
                  t.rows[i].revokedAt.Some? && t.grounds[k].1 <= t.rows[i].revokedAt.value)
  {
    RunGrows(init, steps, more);
    RunKeepsInvariant(init, steps);
    RunKeepsInvariant(init, steps + more);
    var s, t := Run(init, steps), Run(init, steps + more);
    assert RowHolds(s.rows[i]) && Succeeds(s.rows[i], t.rows[i], s.clock, t.clock);
    AuthorizeExactly(t.rows, actor, permission, at);
    forall k | |init.rows| <= k < |t.rows| && k in t.grounds && t.grounds[k].0 == i
      ensures t.rows[i].revokedAt.Some? && t.grounds[k].1 <= t.rows[i].revokedAt.value {
      assert Grounded(t, k);
    }
  }

  /** Revoking works exactly on an ACTIVE row that began before now: within the
      millisecond of its grant, or before it begins, the schema refuses. */
  lemma RevokesExactly(init: State, steps: seq<Step>, call: CallId, now: Time)
    requires Bootstrap(init)
    requires call in Run(init, steps).calls && Run(init, steps).calls[call].pc.Revoking?
    ensures var s := Run(init, steps);
            var q := s.calls[call].request;
            Advanced(s, call, true, now).rows != s.rows
            <==> exists i :: && 0 <= i < |s.rows| && s.rows[i].active && s.rows[i].from < now
                             && s.rows[i].user == q.user && s.rows[i].role == q.role && s.rows[i].tenant == q.tenant
  {
    RunKeepsInvariant(init, steps);
    var s := Run(init, steps);
    var q := s.calls[call].request;
    var i := FindActive(s.rows, q.user, q.role, q.tenant);
    if i != -1 && s.rows[i].from < now {
      assert Advanced(s, call, true, now).rows[i] != s.rows[i];
    }
  }

  /** A grant rests on its check, not on its write: here the granter's only authority is
      revoked in between, and the row is still created. */
  lemma RevokedMidwayStillGrants()
    ensures exists init, steps, i :: Bootstrap(init) && |init.rows| <= i && GrantedWithoutAuthority(Run(init, steps).rows, i)
  {
    var row1 := Assignment(1, PLATFORM_ADMIN, None, true, 0, 0, None, None, None);
    var row2 := Assignment(2, PLATFORM_ADMIN, None, true, 0, 0, None, None, None);
    var init := State([row1, row2], map[], 0, [], map[]);
    var checks := BothChecked(init, row1, row2);
    var s := Run(init, checks);
    RunAppends(init, checks, Advance(2, true, 1));
    RevokesFirst(s, row1, row2);
    var revoked := checks + [Advance(2, true, 1)];
    RunAppends(init, revoked, Advance(1, true, 1));
    var rows := Run(init, revoked + [Advance(1, true, 1)]).rows;
    assert rows == [RevokedRow(row1, 2, 1), row2, NewRow(9, SUPPORT, None, 1, 2)];
    assert GrantedWithoutAuthority(rows, 2);
  }

  /** Both administrators pass their check before either writes. */
  lemma BothChecked(init: State, row1: Assignment, row2: Assignment) returns (steps: seq<Step>)
    requires init == State([row1, row2], map[], 0, [], map[])
    requires row1 == Assignment(1, PLATFORM_ADMIN, None, true, 0, 0, None, None, None)
    requires row2 == Assignment(2, PLATFORM_ADMIN, None, true, 0, 0, None, None, None)
    ensures var s := Run(init, steps);
            && s.rows == init.rows && s.clock == 0 && 1 in s.calls && 2 in s.calls
            && s.calls[1].pc.Creating? && s.calls[1].actor.user == 1
                && s.calls[1].request == Request(true, 9, SUPPORT, None, true, true, true)
            && s.calls[2].pc.Revoking? && s.calls[2].actor.user == 2
            && s.calls[2].request == Request(false, 1, PLATFORM_ADMIN, None, true, true, true)
  {
    var alice, bob := Actor(1, None), Actor(2, None);
    var grant := Start(1, alice, Request(true, 9, SUPPORT, None, true, true, true));
    var revoke := Start(2, bob, Request(false, 1, PLATFORM_ADMIN, None, true, true, true));
    AdminsAreAllowed(init.rows, alice, 0, 0);
    AdminsAreAllowed(init.rows, bob, 1, 0);
    RunAppends(init, [], grant);
    var s1 := [] + [grant];
    RunAppends(init, s1, revoke);
    var s2 := s1 + [revoke];
    assert Run(init, s2).calls == map[1 := Call(alice, grant.request, Authorizing),
        2 := Call(bob, revoke.request, Authorizing)];
    RunAppends(init, s2, Advance(1, true, 0));
    CheckingStep(Run(init, s2), 1, true, 0);
    var s3 := s2 + [Advance(1, true, 0)];
    RunAppends(init, s3, Advance(2, true, 0));
    CheckingStep(Run(init, s3), 2, true, 0);
    steps := s3 + [Advance(2, true, 0)];
  }

  lemma AdminsAreAllowed(rows: seq<Assignment>, actor: Actor, i: nat, at: Time)
    requires i < |rows| && Applicable(rows[i], actor, at) && rows[i].role == PLATFORM_ADMIN
    ensures Authorize(rows, actor, ROLE_ASSIGN, at).Allowed? && Authorize(rows, actor, ROLE_REVOKE, at).Allowed?
  {
    OnlyAdminsAdministerRoles(PLATFORM_ADMIN);
    AuthorizeExactly(rows, actor, ROLE_ASSIGN, at);
    AuthorizeExactly(rows, actor, ROLE_REVOKE, at);
  }

  lemma RevokesFirst(s: State, row1: Assignment, row2: Assignment)
    requires s.rows == [row1, row2] && 2 in s.calls && s.clock == 0 && row1.from == 0
    requires row1.active && SameTarget(row1, 1, PLATFORM_ADMIN, None) && row2.user == 2
    requires s.calls[2].pc.Revoking? && s.calls[2].actor.user == 2
    requires s.calls[2].request == Request(false, 1, PLATFORM_ADMIN, None, true, true, true)
    ensures var t := Apply(s, Advance(2, true, 1));
            && t.rows == [RevokedRow(row1, 2, 1), row2] && t.clock == 1
            && forall id :: id in s.calls && id != 2 ==> id in t.calls && t.calls[id] == s.calls[id]
  {
    var i := FindActive(s.rows, 1, PLATFORM_ADMIN, None);
    assert s.rows[0].active && SameTarget(s.rows[0], 1, PLATFORM_ADMIN, None);
    assert i == 0;
  }

  // ---------------------------------------------------------------------
  // The use cases, over a store others write to
  // ---------------------------------------------------------------------

  /** A check moves its own call and nothing else. */
  lemma CheckingStep(s: State, call: CallId, works: bool, wait: nat)
    requires call in s.calls && (s.calls[call].pc.Authorizing? || s.calls[call].pc.CheckingPeer?)
    ensures var t := Apply(s, Advance(call, works, wait));
            && t.rows == s.rows && t.clock == s.clock + wait && call in t.calls
            && t.calls[call] == s.calls[call].(
                 pc := if s.calls[call].pc.Authorizing? then AfterAuthorizing(s.rows, s.calls[call], works, s.clock + wait)
                       else AfterCheckingPeer(s.rows, s.calls[call], works, s.clock + wait))
            && forall id :: id in s.calls && id != call ==> id in t.calls && t.calls[id] == s.calls[id]
  {
  }

  class RoleService {
    const me: CallId
    const actor: Actor
    const request: Request
    const foreign: nat -> seq<Step>
    const works: nat -> bool
    const wait: nat -> nat
    ghost const init: State
    ghost var steps: seq<Step>
    var state: State
    var portCalls: nat

    constructor (
      init: State, me: CallId, actor: Actor, request: Request, foreign: nat -> seq<Step>, works: nat -> bool,
          wait: nat -> nat)
      requires Bootstrap(init)
      ensures Valid() && state == init && this.init == init && this.me == me && this.actor == actor && this.request == request
      ensures this.foreign == foreign && this.works == works && this.wait == wait
    {
      this.init, this.me, this.actor, this.request := init, me, actor, request;
      this.foreign, this.works, this.wait := foreign, works, wait;
      steps, state, portCalls := [], init, 0;
    }

    ghost predicate Valid()
      reads this
    {
      Bootstrap(init) && state == Run(init, steps)
    }

    ghost predicate At(pc: Pc)
      reads this
    {
      Valid() && me in state.calls && state.calls[me] == Call(actor, request, pc)
    }

    method Take(step: Step)
      requires Valid()
      modifies this`steps, this`state
      ensures Valid() && state == Apply(old(state), step)
    {
      RunAppends(init, steps, step);
      steps := steps + [step];
      state := Apply(state, step);
    }

    method TakeForeign(step: Step)
      requires Valid() && me in state.calls && step.call != me
      modifies this`steps, this`state
      ensures Valid() && me in state.calls && state.calls[me] == old(state.calls[me])
    {
      Take(step);
    }

    method Interleave()
      requires Valid() && me in state.calls
      modifies this`steps, this`state
      ensures Valid() && me in state.calls && state.calls[me] == old(state.calls[me])
    {
      var others := foreign(portCalls);
      for i := 0 to |others|
        invariant Valid() && me in state.calls && state.calls[me] == old(state.calls[me])
      {
        if others[i].call != me {
          TakeForeign(others[i]);
        }
      }
    }

    /** Our step, after the wait. */
    method Proceed()
      requires Valid() && me in state.calls
      modifies this`steps, this`state, this`portCalls
      ensures Valid() && portCalls == old(portCalls) + 1
      ensures state == Apply(old(state), Advance(me, works(old(portCalls)), wait(old(portCalls))))
    {
      Take(Advance(me, works(portCalls), wait(portCalls)));
      portCalls := portCalls + 1;
    }

    /** authorize: None is a denial, a store that does not answer included. */
    method Authorized(permission: Permission) returns (basis: Option<nat>, ghost at: Time)
      requires At(Authorizing) && permission == PermissionFor(request)
      modifies this
      ensures basis.None? ==> At(RecordingDenial(NotAuthorized))
      ensures basis.Some? ==>
                && At(if !request.grants then Revoking(basis.value, at)
                      else if request.role == PLATFORM_ADMIN then CheckingPeer(basis.value, at)
                      else Creating(basis.value, at))
                && HeldAt(state.rows, basis.value, actor.user, at)
    {
      Interleave();
      var now := state.clock + wait(portCalls);
      at := now;
      var decision := Decide(permission, now);
      basis := if works(portCalls) && decision.Allowed? then Some(decision.basis) else None;
      ProceedCheck();
    }

    /** RbacPolicyService.authorize over the rows as they stand. */
    method Decide(permission: Permission, now: Time) returns (decision: Decision)
      requires permission == ROLE_ASSIGN || permission == ROLE_REVOKE
      ensures decision == Authorize(state.rows, actor, permission, now)
      ensures decision.Allowed? ==> HeldAt(state.rows, decision.basis, actor.user, now)
    {
      AuthorizedIsHeld(state.rows, actor, permission, now);
      decision := Authorize(state.rows, actor, permission, now);
    }

    /** Our step, when it is the authorization. */
    method ProceedCheck()
      requires At(Authorizing)
      modifies this`steps, this`state, this`portCalls
      ensures state.rows == old(state.rows)
      ensures var now := old(state.clock) + wait(old(portCalls));
              At(AfterDecision(Call(actor, request, Authorizing), Authorize(state.rows, actor, PermissionFor(request), now),
                               works(old(portCalls)), now))
    {
      CheckingStep(state, me, works(portCalls), wait(portCalls));
      Proceed();
    }

    /** applicableRoles names a PLATFORM_ADMIN; None: the store threw. */
    method IsPeer(ghost basis: nat, ghost at: Time) returns (peer: Option<bool>, ghost k: nat, ghost t: Time)
      requires At(CheckingPeer(basis, at))
      modifies this
      ensures peer.None? ==> At(Done(StoreFailure))
      ensures peer == Some(false) ==> At(RecordingDenial(DelegationDenied))
      ensures peer == Some(true) ==> At(Creating(k, t)) && HeldAt(state.rows, k, actor.user, t)
    {
      Interleave();
      t := state.clock + wait(portCalls);
      ghost var next: Pc;
      peer, k, next := HasPeerRole(basis, at, works(portCalls), state.clock + wait(portCalls));
      MoveTo(next);
    }

    /** applicableRoles includes PLATFORM_ADMIN; k is then a row that says so, and next
        where the answer leads. */
    method HasPeerRole(ghost basis: nat, ghost at: Time, works: bool, now: Time)
        returns (peer: Option<bool>, ghost k: nat, ghost next: Pc)
      ensures NextPc(CheckingPeer(basis, at), works, now, next)
      ensures next == match peer
                      case None => Done(StoreFailure)
                      case Some(found) => if found then Creating(k, now) else RecordingDenial(DelegationDenied)
      ensures peer == Some(true) ==> HeldAt(state.rows, k, actor.user, now)
    {
      peer := if works then Some(PLATFORM_ADMIN in ApplicableRoles(state.rows, actor, now)) else None;
      PeerIsHeld(state.rows, actor, now);
      k := 0;
      if peer == Some(true) {
        k := FirstPeer(state.rows, actor, now);
      }
      next := AfterCheckingPeer(state.rows, Call(actor, request, CheckingPeer(basis, at)), works, now);
    }

    /** From pc a check leads this call to next. */
    ghost predicate NextPc(pc: Pc, works: bool, now: Time, next: Pc)
      reads this`state
    {
      next == AfterCheckingPeer(state.rows, Call(actor, request, pc), works, now)
    }

    method MoveTo(ghost next: Pc)
      requires Valid() && me in state.calls && state.calls[me].pc.CheckingPeer?
      requires state.calls[me].actor == actor && state.calls[me].request == request
      requires NextPc(state.calls[me].pc, works(portCalls), state.clock + wait(portCalls), next)
      modifies this`steps, this`state, this`portCalls
      ensures At(next) && state.rows == old(state.rows)
    {
      CheckingStep(state, me, works(portCalls), wait(portCalls));
      Proceed();
    }

    /** The new row's id, or why there is none. */
    method Create(ghost basis: nat, ghost at: Time) returns (created: Result<nat, Answer>)
      requires At(Creating(basis, at))
      modifies this
      ensures created.Err? ==> At(Done(created.error)) && created.error in {StoreFailure, AlreadyAssigned}
      ensures created.Ok? ==>
                && At(Recording(created.value)) && created.value < |state.rows| && created.value in state.grounds
                && state.grounds[created.value] == (basis, at)
                && state.rows[created.value] == NewRow(request.user, request.role, request.tenant, actor.user, state.clock)
    {
      Interleave();
      created := if !works(portCalls) then Err(StoreFailure)
                 else if Conflicts(state.rows, request.user, request.role, request.tenant) then Err(AlreadyAssigned)
                 else Ok(|state.rows|);
      Proceed();
    }

    /** The revoked row's id; None: no ACTIVE row; Err: the store threw. */
    method RevokeActive(ghost basis: nat, ghost at: Time) returns (revoked: Result<Option<nat>, ()>)
      requires At(Revoking(basis, at))
      modifies this
      ensures revoked.Err? ==> At(Done(StoreFailure))
      ensures revoked == Ok(None) ==> At(Done(AssignmentNotFound))
      ensures revoked.Ok? && revoked.value.Some? ==>
                var i := revoked.value.value;
                && At(Recording(i)) && i < |state.rows| && SameTarget(state.rows[i], request.user, request.role,
                    request.tenant)
                && !state.rows[i].active && state.rows[i].revokedBy == Some(actor.user)
                    && state.rows[i].revokedAt == Some(state.clock)
    {
      Interleave();
      var now := state.clock + wait(portCalls);
      var i := FindActive(state.rows, request.user, request.role, request.tenant);
      revoked := if !works(portCalls) then Err(())
                 else if i == -1 then Ok(None)
                 else if now <= state.rows[i].from then Err(()) else Ok(Some(i));
      Proceed();
    }

    /** False when the record could not be appended. */
    method RecordAudit(event: Event) returns (ok: bool)
      requires Valid() && me in state.calls && state.calls[me].actor == actor && state.calls[me].request == request
      requires match state.calls[me].pc
               case RecordingDenial(_) => event == Denial(actor.user, request)
               case Recording(row) => event == Success(actor.user, request, row)
               case _ => false
      modifies this
      ensures old(state.calls[me].pc.RecordingDenial?) ==> At(Done(old(state.calls[me].pc.answer)))
      ensures old(state.calls[me].pc.Recording?) ==> At(Done(Written(old(state.calls[me].pc.row), ok)))
      ensures ok ==> event in state.audit
    {
      Interleave();
      ok := works(portCalls);
      ghost var before := state.audit;
      Proceed();
      assert ok ==> state.audit == before + [event];
    }

    method AssignRole() returns (answer: Answer)
      requires Valid() && me !in state.calls && request.grants
      modifies this
      ensures At(Done(answer))
      ensures answer.Written? ==> Wrote(state.rows, Call(actor, request, Done(answer)), answer.row)
    {
      Take(Start(me, actor, request));
      if !request.inputValid {
        return InvalidInput;
      }
      if !request.roleKnown {
        return RoleNotFound;
      }
      if !request.tenantValid {
        return InvalidInput;
      }
      if !ScopeAdmits(ScopeOf(request.role), request.tenant.Some?) {
        return ScopeMismatch;
      }
      ghost var at: Time;
      var decision: Option<nat>;
      decision, at := Authorized(ROLE_ASSIGN);
      if decision.None? {
        var denied := RecordAudit(Denial(actor.user, request));
        return NotAuthorized;
      }
      ghost var basis := decision.value;
      if request.role == PLATFORM_ADMIN {
        var peer: Option<bool>;
        peer, basis, at := IsPeer(decision.value, at);
        if peer.None? {
          return StoreFailure;
        }
        if !peer.value {
          var denied := RecordAudit(Denial(actor.user, request));
          return DelegationDenied;
        }
      }
      var created := Create(basis, at);
      if created.Err? {
        return created.error;
      }
      var audited := RecordAudit(Success(actor.user, request, created.value));
      SuccessAnswersAreWritten(init, steps, me);
      return Written(created.value, audited);
    }

    method RevokeRole() returns (answer: Answer)
      requires Valid() && me !in state.calls && !request.grants
      modifies this
      ensures At(Done(answer))
      ensures answer.Written? ==> Wrote(state.rows, Call(actor, request, Done(answer)), answer.row)
    {
      Take(Start(me, actor, request));
      if !request.inputValid {
        return InvalidInput;
      }
      if !request.roleKnown {
        return RoleNotFound;
      }
      if !request.tenantValid {
        return InvalidInput;
      }
      ghost var at: Time;
      var decision: Option<nat>;
      decision, at := Authorized(ROLE_REVOKE);
      if decision.None? {
        var denied := RecordAudit(Denial(actor.user, request));
        return NotAuthorized;
      }
      var revoked := RevokeActive(decision.value, at);
      if revoked.Err? {
        return StoreFailure;
      }
      if revoked.value.None? {
        return AssignmentNotFound;
      }
      var audited := RecordAudit(Success(actor.user, request, revoked.value.value));
      SuccessAnswersAreWritten(init, steps, me);
      return Written(revoked.value.value, audited);
    }
  }
}
