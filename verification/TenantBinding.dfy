/** The binding surface as a compensated protocol: bind, verify again, record,
    undo (modules/bootstrap/application/use-cases/set-tenant-binding.ts,
    get-bootstrap.ts, binding-state.ts).

    A state holds the shared world and every call in flight; a step is one port
    call of one of them, or something anybody else does in between. Which port
    calls fail is part of the step, so a sequence of steps is one interleaving
    and a statement about all sequences is one about all interleavings. */
module TenantBinding {
  import opened Results
  import Uuid

  type TenantId = string
  type UserId = nat
  type SessionId = nat
  type CallId = nat

  datatype Choice = Choice(tenantId: TenantId, name: string, roleHint: string)
  datatype Membership = Membership(user: UserId, choice: Choice)

  /** predecessor: the session a switch replaced by this one. */
  datatype Session = Session(user: UserId, live: bool, tenant: Option<TenantId>, predecessor: Option<SessionId>)

  datatype Action = Bound | Switched | AutoBound
  datatype Outcome = Success | Denied
  datatype Record = Record(
    actor: UserId, tenant: TenantId, action: Action, resource: SessionId,
    reason: Option<string>, previous: Option<TenantId>, outcome: Outcome)

  /** memberships: those usable now, in the order the store lists them. */
  datatype World = World(sessions: map<SessionId, Session>, memberships: seq<Membership>, audit: seq<Record>)

  // ---------------------------------------------------------------------
  // Tenant choices
  // ---------------------------------------------------------------------

  datatype Resolution = NoTenant | OneTenant(choice: Choice) | SeveralTenants(choices: seq<Choice>)

  function ChoicesFor(memberships: seq<Membership>, user: UserId): seq<Choice> {
    if memberships == [] then []
    else (if memberships[0].user == user then [memberships[0].choice] else []) + ChoicesFor(memberships[1..], user)
  }

  function Resolve(w: World, user: UserId): Resolution {
    var choices := ChoicesFor(w.memberships, user);
    if |choices| == 0 then NoTenant else if |choices| == 1 then OneTenant(choices[0]) else SeveralTenants(choices)
  }

  function ChoicesOf(resolution: Resolution): seq<Choice> {
    match resolution
    case NoTenant => []
    case OneTenant(choice) => [choice]
    case SeveralTenants(choices) => choices
  }

  function Find(choices: seq<Choice>, tenant: TenantId): Option<Choice> {
    if choices == [] then None
    else if choices[0].tenantId == tenant then Some(choices[0])
    else Find(choices[1..], tenant)
  }

  function ChoiceFor(resolution: Resolution, tenant: TenantId): Option<Choice> {
    Find(ChoicesOf(resolution), tenant)
  }

  /** The user holds a usable membership of the tenant. */
  ghost predicate Member(w: World, user: UserId, tenant: TenantId) {
    exists m :: m in w.memberships && m.user == user && m.choice.tenantId == tenant
  }

  lemma {:induction false} FindInChoices(memberships: seq<Membership>, user: UserId, tenant: TenantId)
    ensures var found := Find(ChoicesFor(memberships, user), tenant);
            && (found.Some? <==> exists m :: m in memberships && m.user == user && m.choice.tenantId == tenant)
            && (found.Some? ==> Membership(user, found.value) in memberships && found.value.tenantId == tenant)
  {
    if memberships != [] {
      FindInChoices(memberships[1..], user, tenant);
      var first := memberships[0];
      var rest := ChoicesFor(memberships[1..], user);
      assert memberships == [first] + memberships[1..];
      if first.user == user {
        assert ([first.choice] + rest)[1..] == rest;
      } else {
        assert [] + rest == rest;
      }
    }
  }

  /** A choice is found exactly for the tenants the user is a member of, whichever
      form the resolution takes. */
  lemma ChoiceForIsMembership(w: World, user: UserId, tenant: TenantId)
    ensures var found := ChoiceFor(Resolve(w, user), tenant);
            && (found.Some? <==> Member(w, user, tenant))
            && (found.Some? ==> Membership(user, found.value) in w.memberships && found.value.tenantId == tenant)
  {
    FindInChoices(w.memberships, user, tenant);
    var choices := ChoicesFor(w.memberships, user);
    assert |choices| == 1 ==> [choices[0]] == choices;
  }

  // ---------------------------------------------------------------------
  // Ports
  // ---------------------------------------------------------------------

  datatype SwitchError =
    MissingPrincipalContext | MembershipNotFound | MembershipRevoked | BindingFailed | OtherFailure

  /** How one port call turns out. answers: it does what it promises. minted: the
      id of a session it mints. oldDied: a failed switch took the old session with it. */
  datatype Port = Port(answers: bool, retryable: bool, minted: SessionId, switchError: SwitchError, oldDied: bool)

  predicate Live(w: World, user: UserId, session: SessionId) {
    session in w.sessions && w.sessions[session].user == user && w.sessions[session].live
  }

  /** bindSession compares and sets: only a live unbound session is claimed. */
  function BindError(w: World, user: UserId, session: SessionId, port: Port): Option<string> {
    if !Live(w, user, session) then Some("session_not_found")
    else if w.sessions[session].tenant.Some? then Some("already_bound")
    else if !port.answers then Some("bind_conflict")
    else None
  }

  function AfterBind(w: World, user: UserId, session: SessionId, tenant: TenantId, port: Port): World {
    if BindError(w, user, session, port).Some? then w
    else w.(sessions := w.sessions[session := w.sessions[session].(tenant := Some(tenant))])
  }

  function AfterRevoke(w: World, user: UserId, session: SessionId): World {
    if !Live(w, user, session) then w
    else w.(sessions := w.sessions[session := w.sessions[session].(live := false)])
  }

  /** switchTenant predecessor a live bound session by a new one, or answers an error. */
  function SwitchFailure(w: World, user: UserId, session: SessionId, port: Port): Option<SwitchError> {
    if !port.answers then Some(port.switchError)
    else if !Live(w, user, session) || w.sessions[session].tenant.None? || port.minted in w.sessions then Some(BindingFailed)
    else None
  }

  function AfterSwitch(w: World, user: UserId, session: SessionId, tenant: TenantId, port: Port): World {
    if SwitchFailure(w, user, session, port).Some? then
      (if port.oldDied then AfterRevoke(w, user, session) else w)
    else
      var dead := AfterRevoke(w, user, session);
      dead.(sessions := dead.sessions[port.minted := Session(user, true, Some(tenant), Some(session))])
  }

  function AfterRecord(w: World, record: Record, port: Port): World {
    if port.answers then w.(audit := w.audit + [record]) else w
  }

  // ---------------------------------------------------------------------
  // Calls
  // ---------------------------------------------------------------------

  /** tenant: the binding the request's session had when it was authenticated. */
  datatype Principal = Principal(user: UserId, session: SessionId, tenant: Option<TenantId>)

  /** None: the body's tenantId is not a string. */
  datatype Request = SetBinding(tenantId: Option<string>) | Bootstrap

  datatype BindingState = UnboundState | BoundState(tenant: Choice) | SelectionState(choices: seq<Choice>)

  datatype Answer =
    | InvalidTenantSelection
    | ContextUnavailable
    | MembershipRequired
    | BindingConflict
    | MembershipRevokedConcurrently
    | Unauthenticated
    | ResolutionUnavailable(retryable: bool)
    | BoundTo(tenant: Choice)
    | SwitchedTo(tenant: Choice, session: SessionId)
    | Bootstrapped(binding: BindingState)

  /** A first bind on request, or the bootstrap's automatic one. */
  datatype Surface = Requested | Automatic

  /** Where a call stands: the port it calls next. */
  datatype Pc =
    | Resolving(request: Request)
    | Binding(surface: Surface, choice: Choice)
    | Rechecking(surface: Surface, choice: Choice)
    | Undoing(surface: Surface, choice: Choice)
    | RecordingDenial(surface: Surface, tenant: TenantId, reason: string)
    | RecordingBind(surface: Surface, choice: Choice)
    | Reversing(session: SessionId)
    | Switching(choice: Choice)
    | RecordingSwitch(choice: Choice, minted: SessionId, previous: Option<TenantId>)
    | Enriching(binding: BindingState)
    | Done(answer: Answer)

  /** What a call did to the world, and at which step of the run. */
  datatype Event =
    | DidBind(tenant: TenantId, at: nat)
    | DidRecheck(tenant: TenantId, held: bool, at: nat)
    | DidSwitch(tenant: TenantId, minted: SessionId, previous: Option<TenantId>, at: nat)
    | DidRecord(record: Record, at: nat)
    | DidRevoke(session: SessionId, at: nat)

  datatype Call = Call(principal: Principal, pc: Pc, did: seq<Event>)

  function StateForChoices(choices: seq<Choice>): BindingState {
    if |choices| == 0 then UnboundState else SelectionState(choices)
  }

  function ActionOf(surface: Surface): Action {
    if surface == Requested then Bound else AutoBound
  }

  function BindRecord(p: Principal, surface: Surface, tenant: TenantId): Record {
    Record(p.user, tenant, ActionOf(surface), p.session, None, None, Success)
  }

  function DenialRecord(p: Principal, surface: Surface, tenant: TenantId, reason: string): Record {
    Record(p.user, tenant, ActionOf(surface), p.session, Some(reason), None, Denied)
  }

  function SwitchRecord(p: Principal, tenant: TenantId, previous: Option<TenantId>): Record {
    Record(p.user, tenant, Switched, p.session, None, previous, Success)
  }

  function Begin(request: Request): Pc {
    match request
    case Bootstrap => Resolving(request)
    case SetBinding(tenantId) =>
      if tenantId.Some? && Uuid.IsUuidShaped(tenantId.value) then Resolving(request) else Done(InvalidTenantSelection)
  }

  function AfterResolving(p: Principal, request: Request, resolution: Resolution): Pc {
    match request
    case SetBinding(tenantId) =>
      if tenantId.None? then Done(InvalidTenantSelection)
      else (
        var choice := ChoiceFor(resolution, tenantId.value);
        if choice.None? then Done(MembershipRequired)
        else if p.tenant.None? then Binding(Requested, choice.value)
        else Switching(choice.value))
    case Bootstrap =>
      if p.tenant.Some? then (
        var choice := ChoiceFor(resolution, p.tenant.value);
        Enriching(if choice.Some? then BoundState(choice.value) else StateForChoices(ChoicesOf(resolution))))
      else if resolution.OneTenant? then
        if Uuid.IsUuidShaped(resolution.choice.tenantId) then Binding(Automatic, resolution.choice)
        else Done(ContextUnavailable)
      else
        Enriching(StateForChoices(ChoicesOf(resolution)))
  }

  function SwitchAnswer(error: SwitchError): Answer {
    match error
    case MissingPrincipalContext => Unauthenticated
    case MembershipNotFound => MembershipRequired
    case MembershipRevoked => MembershipRevokedConcurrently
    case BindingFailed => BindingConflict
    case OtherFailure => ContextUnavailable
  }

  /** The call that answers after a denial was recorded. */
  function AfterDenial(surface: Surface): Pc {
    if surface == Requested then Done(MembershipRevokedConcurrently) else Enriching(UnboundState)
  }

  /** The call after its next port call, and the events that adds. */
  function Advanced(c: Call, w: World, port: Port, now: nat): Call {
    var p := c.principal;
    match c.pc
    case Resolving(request) =>
      c.(pc := if port.answers then AfterResolving(p, request, Resolve(w, p.user)) else Done(ContextUnavailable))
    case Binding(surface, choice) =>
      var error := BindError(w, p.user, p.session, port);
      if error.None? then
        c.(pc := Rechecking(surface, choice), did := c.did + [DidBind(choice.tenantId, now)])
      else if surface == Requested then c.(pc := Done(BindingConflict))
      else c.(pc := RecordingDenial(surface, choice.tenantId, error.value))
    case Rechecking(surface, choice) =>
      var still := if port.answers then ChoiceFor(Resolve(w, p.user), choice.tenantId) else None;
      Call(p, if still.None? then Undoing(surface, choice)
              else RecordingBind(surface, if surface == Requested then choice else still.value),
           c.did + [DidRecheck(choice.tenantId, still.Some?, now)])
    case Undoing(surface, choice) =>
      Call(p, RecordingDenial(surface, choice.tenantId, "membership_revoked_concurrently"),
           c.did + [DidRevoke(p.session, now)])
    case RecordingDenial(surface, tenant, reason) =>
      if port.answers then
        Call(p, AfterDenial(surface), c.did + [DidRecord(DenialRecord(p, surface, tenant, reason), now)])
      else c.(pc := Done(ContextUnavailable))
    case RecordingBind(surface, choice) =>
      if port.answers then
        Call(p, if surface == Requested then Done(BoundTo(choice)) else Enriching(BoundState(choice)),
             c.did + [DidRecord(BindRecord(p, surface, choice.tenantId), now)])
      else c.(pc := Reversing(p.session))
    case Reversing(session) =>
      Call(p, Done(ContextUnavailable), c.did + [DidRevoke(session, now)])
    case Switching(choice) =>
      var error := SwitchFailure(w, p.user, p.session, port);
      if error.Some? then c.(pc := Done(SwitchAnswer(error.value)))
      else Call(p, RecordingSwitch(choice, port.minted, w.sessions[p.session].tenant),
                c.did + [DidSwitch(choice.tenantId, port.minted, w.sessions[p.session].tenant, now)])
    case RecordingSwitch(choice, minted, previous) =>
      if port.answers then
        Call(p, Done(SwitchedTo(choice, minted)), c.did + [DidRecord(SwitchRecord(p, choice.tenantId, previous), now)])
      else c.(pc := Reversing(minted))
    case Enriching(binding) =>
      c.(pc := Done(if port.answers then Bootstrapped(binding) else ResolutionUnavailable(port.retryable)))
    case Done(_) => c
  }

  /** The world after the call's next port call. */
  function WorldAfter(c: Call, w: World, port: Port): World {
    var p := c.principal;
    match c.pc
    case Binding(_, choice) => AfterBind(w, p.user, p.session, choice.tenantId, port)
    case Undoing(_, _) => AfterRevoke(w, p.user, p.session)
    case RecordingDenial(surface, tenant, reason) => AfterRecord(w, DenialRecord(p, surface, tenant, reason), port)
    case RecordingBind(surface, choice) => AfterRecord(w, BindRecord(p, surface, choice.tenantId), port)
    case Reversing(session) => AfterRevoke(w, p.user, session)
    case Switching(choice) => AfterSwitch(w, p.user, p.session, choice.tenantId, port)
    case RecordingSwitch(choice, _, previous) => AfterRecord(w, SwitchRecord(p, choice.tenantId, previous), port)
    case _ => w
  }

  // ---------------------------------------------------------------------
  // Runs
  // ---------------------------------------------------------------------

  datatype State = State(world: World, calls: map<CallId, Call>, now: nat)

  datatype Step =
    | Start(call: CallId, principal: Principal, request: Request)
    | Advance(call: CallId, port: Port)
    | Login(user: UserId, session: SessionId)
    | Logout(session: SessionId)
    | GrantMembership(membership: Membership)
    | EndMembership(user: UserId, tenant: TenantId)
    | OtherRecord(record: Record)

  function Without(memberships: seq<Membership>, user: UserId, tenant: TenantId): seq<Membership> {
    if memberships == [] then []
    else
      (if memberships[0].user == user && memberships[0].choice.tenantId == tenant then [] else [memberships[0]])
      + Without(memberships[1..], user, tenant)
  }

  function WorldStep(s: State, step: Step): World {
    var w := s.world;
    match step
    case Start(_, _, _) => w
    case Advance(call, port) => if call in s.calls then WorldAfter(s.calls[call], w, port) else w
    case Login(user, session) =>
      if session in w.sessions then w else w.(sessions := w.sessions[session := Session(user, true, None, None)])
    case Logout(session) =>
      if session in w.sessions then w.(sessions := w.sessions[session := w.sessions[session].(live := false)]) else w
    case GrantMembership(m) => w.(memberships := w.memberships + [m])
    case EndMembership(user, tenant) => w.(memberships := Without(w.memberships, user, tenant))
    case OtherRecord(record) => w.(audit := w.audit + [record])
  }

  function CallsStep(s: State, step: Step): map<CallId, Call> {
    match step
    case Start(call, principal, request) =>
      if call in s.calls then s.calls else s.calls[call := Call(principal, Begin(request), [])]
    case Advance(call, port) =>
      if call in s.calls then s.calls[call := Advanced(s.calls[call], s.world, port, s.now)] else s.calls
    case _ => s.calls
  }

  function Apply(s: State, step: Step): State {
    State(WorldStep(s, step), CallsStep(s, step), s.now + 1)
  }

  function Run(init: State, steps: seq<Step>): State {
    if steps == [] then init else Apply(Run(init, steps[..|steps| - 1]), steps[|steps| - 1])
  }

  /** Any world, no call yet. */
  predicate Initial(s: State) {
    s.calls == map[] && s.now == 0
  }

  // ---------------------------------------------------------------------
  // What no step undoes
  // ---------------------------------------------------------------------

  /** Sessions are never removed, revived, or bound a second time, and the audit
      only grows. */
  ghost predicate Grows(w: World, v: World) {
    && (forall s :: s in w.sessions ==> s in v.sessions && Ages(w.sessions[s], v.sessions[s]))
    && |w.audit| <= |v.audit| && v.audit[..|w.audit|] == w.audit
  }

  predicate Ages(a: Session, b: Session) {
    && a.user == b.user && a.predecessor == b.predecessor
    && (b.live ==> a.live)
    && (a.tenant.Some? ==> b.tenant == a.tenant)
  }

  lemma StepGrows(s: State, step: Step)
    ensures Grows(s.world, WorldStep(s, step))
  {
  }

  lemma GrowsTransitive(u: World, v: World, w: World)
    requires Grows(u, v) && Grows(v, w)
    ensures Grows(u, w)
  {
    assert w.audit[..|u.audit|] == w.audit[..|v.audit|][..|u.audit|];
  }

  // ---------------------------------------------------------------------
  // Each call's history is the one its position says
  // ---------------------------------------------------------------------

  predicate BoundBy(c: Call, tenant: TenantId) {
    |c.did| >= 1 && c.did[0].DidBind? && c.did[0].tenant == tenant
  }

  predicate BoundAndChecked(c: Call, tenant: TenantId, held: bool) {
    BoundBy(c, tenant) && |c.did| >= 2 && c.did[1].DidRecheck? && c.did[1].tenant == tenant && c.did[1].held == held
  }

  predicate SwitchedBy(c: Call, tenant: TenantId, minted: SessionId) {
    |c.did| >= 1 && c.did[0].DidSwitch? && c.did[0].tenant == tenant && c.did[0].minted == minted
  }

  predicate RevokedAt(c: Call, i: nat, session: SessionId) {
    i < |c.did| && c.did[i].DidRevoke? && c.did[i].session == session
  }

  predicate RecordedAt(c: Call, i: nat, record: Record) {
    i < |c.did| && c.did[i].DidRecord? && c.did[i].record == record
  }

  /** The histories after which a call may answer a, for each answer. */
  ghost predicate Settled(c: Call, a: Answer) {
    var p := c.principal;
    match a
    case BoundTo(choice) => AccountedBind(c, Requested, choice.tenantId)
    case SwitchedTo(choice, session) => AccountedSwitch(c, choice.tenantId, session)
    case Bootstrapped(binding) => SettledBinding(c, binding)
    case ResolutionUnavailable(_) => exists binding :: SettledBinding(c, binding)
    case ContextUnavailable => |c.did| == 0 || Compensated(c)
    case MembershipRevokedConcurrently => |c.did| == 0 || DeniedAndUndone(c, Requested)
    case _ => |c.did| == 0
  }

  /** Bound, verified again, recorded. */
  predicate AccountedBind(c: Call, surface: Surface, tenant: TenantId) {
    && |c.did| == 3 && BoundAndChecked(c, tenant, true)
    && RecordedAt(c, 2, BindRecord(c.principal, surface, tenant))
  }

  predicate AccountedSwitch(c: Call, tenant: TenantId, minted: SessionId) {
    && |c.did| == 2 && SwitchedBy(c, tenant, minted)
    && RecordedAt(c, 1, SwitchRecord(c.principal, tenant, c.did[0].previous))
  }

  /** What it bound, it revoked, and nothing was recorded. */
  predicate Compensated(c: Call) {
    || (|c.did| == 3 && c.did[0].DidBind? && c.did[1].DidRecheck? && RevokedAt(c, 2, c.principal.session))
    || (|c.did| == 2 && c.did[0].DidSwitch? && RevokedAt(c, 1, c.did[0].minted))
  }

  /** Bound, no longer a member, revoked, recorded as denied. */
  predicate DeniedAndUndone(c: Call, surface: Surface) {
    && |c.did| == 4 && c.did[0].DidBind? && BoundAndChecked(c, c.did[0].tenant, false)
    && RevokedAt(c, 2, c.principal.session)
    && RecordedAt(c, 3, DenialRecord(c.principal, surface, c.did[0].tenant, "membership_revoked_concurrently"))
  }

  /** The histories with which a bootstrap reaches each binding state. */
  predicate SettledBinding(c: Call, binding: BindingState) {
    match binding
    case BoundState(choice) =>
      || AccountedBind(c, Automatic, choice.tenantId)
      || (|c.did| == 0 && c.principal.tenant == Some(choice.tenantId))
    case UnboundState =>
      || |c.did| == 0 || DeniedAndUndone(c, Automatic)
      || (|c.did| == 1 && c.did[0].DidRecord? && c.did[0].record.outcome == Denied)
    case SelectionState(_) => |c.did| == 0
  }

  ghost predicate Consistent(c: Call) {
    match c.pc
    case Resolving(_) => |c.did| == 0
    case Binding(_, _) => |c.did| == 0
    case Switching(_) => |c.did| == 0
    case Rechecking(_, choice) => |c.did| == 1 && BoundBy(c, choice.tenantId)
    case Undoing(_, choice) => |c.did| == 2 && BoundAndChecked(c, choice.tenantId, false)
    case RecordingDenial(surface, tenant, reason) =>
      || (|c.did| == 0 && surface == Automatic)
      || (|c.did| == 3 && BoundAndChecked(c, tenant, false) && RevokedAt(c, 2, c.principal.session)
          && reason == "membership_revoked_concurrently")
    case RecordingBind(_, choice) => |c.did| == 2 && BoundAndChecked(c, choice.tenantId, true)
    case Reversing(session) =>
      || (|c.did| == 2 && c.did[0].DidBind? && c.did[1].DidRecheck? && session == c.principal.session)
      || (|c.did| == 1 && c.did[0].DidSwitch? && c.did[0].minted == session)
    case RecordingSwitch(choice, minted, previous) =>
      |c.did| == 1 && SwitchedBy(c, choice.tenantId, minted) && c.did[0].previous == previous
    case Enriching(binding) => SettledBinding(c, binding)
    case Done(answer) => Settled(c, answer)
  }

  lemma ChoiceBelongs(resolution: Resolution, tenant: TenantId)
    ensures var found := ChoiceFor(resolution, tenant); found.Some? ==> found.value.tenantId == tenant
  {
    FindMatches(ChoicesOf(resolution), tenant);
  }

  lemma FindMatches(choices: seq<Choice>, tenant: TenantId)
    ensures var found := Find(choices, tenant); found.Some? ==> found.value.tenantId == tenant
  {
  }

  lemma BeginIsConsistent(p: Principal, request: Request)
    ensures Consistent(Call(p, Begin(request), []))
  {
  }

  lemma ResolvingIsConsistent(p: Principal, request: Request, resolution: Resolution)
    ensures Consistent(Call(p, AfterResolving(p, request, resolution), []))
  {
    if request.Bootstrap? && p.tenant.Some? {
      ChoiceBelongs(resolution, p.tenant.value);
    }
  }

  lemma RecordingIsConsistent(c: Call, w: World, port: Port, now: nat)
    requires Consistent(c) && (c.pc.RecordingDenial? || c.pc.RecordingBind? || c.pc.RecordingSwitch?)
    ensures Consistent(Advanced(c, w, port, now))
  {
  }

  /** The position of a call always tells its history. */
  lemma AdvanceKeepsConsistent(c: Call, w: World, port: Port, now: nat)
    requires Consistent(c)
    ensures Consistent(Advanced(c, w, port, now))
  {
    if c.pc.RecordingDenial? || c.pc.RecordingBind? || c.pc.RecordingSwitch? {
      RecordingIsConsistent(c, w, port, now);
    } else {
      match c.pc
      case Resolving(request) =>
        ResolvingIsConsistent(c.principal, request, Resolve(w, c.principal.user));
      case Rechecking(_, choice) =>
        ChoiceBelongs(Resolve(w, c.principal.user), choice.tenantId);
      case Enriching(binding) =>
        assert SettledBinding(Advanced(c, w, port, now), binding);
      case _ =>
    }
  }

  // ---------------------------------------------------------------------
  // What every run keeps
  // ---------------------------------------------------------------------

  /** What an event of the call says of every later world. */
  predicate EventHolds(w: World, p: Principal, e: Event) {
    match e
    case DidBind(tenant, _) =>
      && p.session in w.sessions
      && w.sessions[p.session].user == p.user && w.sessions[p.session].tenant == Some(tenant)
    case DidRecheck(_, _, _) => true
    case DidSwitch(tenant, minted, _, _) =>
      && minted in w.sessions && w.sessions[minted].user == p.user
      && w.sessions[minted].tenant == Some(tenant) && w.sessions[minted].predecessor == Some(p.session)
    case DidRecord(record, _) => record in w.audit
    case DidRevoke(session, _) => session in w.sessions && !w.sessions[session].live
  }

  lemma EventHoldsOn(w: World, v: World, p: Principal, e: Event)
    requires Grows(w, v) && EventHolds(w, p, e)
    ensures EventHolds(v, p, e)
  {
    if e.DidRecord? {
      var k :| 0 <= k < |w.audit| && w.audit[k] == e.record;
      assert v.audit[..|w.audit|][k] == v.audit[k];
    }
  }

  ghost predicate CallHolds(w: World, c: Call) {
    Consistent(c) && forall i :: 0 <= i < |c.did| ==> EventHolds(w, c.principal, c.did[i])
  }

  /** The call bound the session to the tenant. */
  predicate Made(c: Call, session: SessionId, tenant: TenantId) {
    || (BoundBy(c, tenant) && c.principal.session == session)
    || SwitchedBy(c, tenant, session)
  }

  /** The session was bound to the tenant before the run. */
  predicate BoundInitially(init: World, session: SessionId, tenant: TenantId) {
    session in init.sessions && init.sessions[session].tenant == Some(tenant)
  }

  ghost predicate HasMaker(s: State, session: SessionId, tenant: TenantId) {
    exists id :: id in s.calls && Made(s.calls[id], session, tenant)
  }

  ghost predicate Invariant(init: World, s: State) {
    && (forall id :: id in s.calls ==> CallHolds(s.world, s.calls[id]))
    && (forall session, tenant :: session in s.world.sessions && s.world.sessions[session].tenant == Some(tenant)
          ==> BoundInitially(init, session, tenant) || HasMaker(s, session, tenant))
  }

  lemma AdvancedPrincipal(c: Call, w: World, port: Port, now: nat)
    ensures Advanced(c, w, port, now).principal == c.principal
    ensures var d := Advanced(c, w, port, now).did;
            |c.did| <= |d| <= |c.did| + 1 && d[..|c.did|] == c.did && (|d| > |c.did| ==> d[|c.did|].at == now)
  {
  }

  /** The event a port call adds is true of the world it leaves. */
  lemma NewEventHolds(c: Call, w: World, port: Port, now: nat)
    requires CallHolds(w, c)
    ensures var d := Advanced(c, w, port, now).did;
            |d| > |c.did| ==> EventHolds(WorldAfter(c, w, port), c.principal, d[|c.did|])
  {
    match c.pc
    case Undoing(_, choice) => assert EventHolds(w, c.principal, c.did[0]);
    case Reversing(_) => assert EventHolds(w, c.principal, c.did[0]);
    case _ =>
  }

  lemma AdvanceKeepsCall(c: Call, w: World, port: Port, now: nat)
    requires CallHolds(w, c) && Grows(w, WorldAfter(c, w, port))
    ensures CallHolds(WorldAfter(c, w, port), Advanced(c, w, port, now))
  {
    AdvanceKeepsConsistent(c, w, port, now);
    AdvancedPrincipal(c, w, port, now);
    NewEventHolds(c, w, port, now);
    var d, v := Advanced(c, w, port, now), WorldAfter(c, w, port);
    forall i | 0 <= i < |d.did| ensures EventHolds(v, d.principal, d.did[i]) {
      if i < |c.did| {
        assert d.did[..|c.did|][i] == c.did[i];
        EventHoldsOn(w, v, c.principal, c.did[i]);
      }
    }
  }

  lemma OthersKeepHolding(c: Call, w: World, v: World)
    requires CallHolds(w, c) && Grows(w, v)
    ensures CallHolds(v, c)
  {
    forall i | 0 <= i < |c.did| ensures EventHolds(v, c.principal, c.did[i]) {
      EventHoldsOn(w, v, c.principal, c.did[i]);
    }
  }

  lemma StepKeepsCalls(s: State, step: Step, id: CallId)
    requires forall k :: k in s.calls ==> CallHolds(s.world, s.calls[k])
    requires id in CallsStep(s, step)
    ensures CallHolds(WorldStep(s, step), CallsStep(s, step)[id])
  {
    StepGrows(s, step);
    if step.Start? && id == step.call && id !in s.calls {
      BeginIsConsistent(step.principal, step.request);
    } else if step.Advance? && id == step.call {
      AdvanceKeepsCall(s.calls[id], s.world, step.port, s.now);
    } else {
      OthersKeepHolding(s.calls[id], s.world, WorldStep(s, step));
    }
  }

  /** A call that made a binding keeps being its maker. */
  lemma MadeStays(s: State, step: Step, id: CallId, session: SessionId, tenant: TenantId)
    requires id in s.calls && Made(s.calls[id], session, tenant)
    ensures id in CallsStep(s, step) && Made(CallsStep(s, step)[id], session, tenant)
  {
    if step.Advance? && step.call == id {
      var c := s.calls[id];
      AdvancedPrincipal(c, s.world, step.port, s.now);
      assert Advanced(c, s.world, step.port, s.now).did[..|c.did|][0] == c.did[0];
    }
  }

  /** A step that binds a session belongs to a call that says so. */
  lemma BindingHasMaker(s: State, step: Step, session: SessionId, tenant: TenantId)
    requires forall k :: k in s.calls ==> CallHolds(s.world, s.calls[k])
    requires session in WorldStep(s, step).sessions && WorldStep(s, step).sessions[session].tenant == Some(tenant)
    requires !(session in s.world.sessions && s.world.sessions[session].tenant == Some(tenant))
    ensures step.Advance? && step.call in CallsStep(s, step) && Made(CallsStep(s, step)[step.call], session, tenant)
  {
    if step.Advance? && step.call in s.calls {
      assert CallHolds(s.world, s.calls[step.call]);
    }
  }

  lemma StepKeepsInvariant(init: World, s: State, step: Step)
    requires Invariant(init, s)
    ensures Invariant(init, Apply(s, step))
  {
    var t := Apply(s, step);
    forall id | id in t.calls ensures CallHolds(t.world, t.calls[id]) {
      StepKeepsCalls(s, step, id);
    }
    forall session, tenant | session in t.world.sessions && t.world.sessions[session].tenant == Some(tenant)
      ensures BoundInitially(init, session, tenant) || HasMaker(t, session, tenant)
    {
      if session in s.world.sessions && s.world.sessions[session].tenant == Some(tenant) {
        if !BoundInitially(init, session, tenant) {
          var id :| id in s.calls && Made(s.calls[id], session, tenant);
          MadeStays(s, step, id, session, tenant);
        }
      } else {
        BindingHasMaker(s, step, session, tenant);
      }
    }
  }

  lemma {:induction false} RunKeepsInvariant(init: State, steps: seq<Step>)
    requires Initial(init)
    ensures Invariant(init.world, Run(init, steps))
  {
    if steps != [] {
      RunKeepsInvariant(init, steps[..|steps| - 1]);
      StepKeepsInvariant(init.world, Run(init, steps[..|steps| - 1]), steps[|steps| - 1]);
    }
  }

  // ---------------------------------------------------------------------
  // No live binding without its record
  // ---------------------------------------------------------------------

  /** The call wrote a SUCCESS record of its actor's for the tenant: for a bind under the
      session itself, for a switch under the session it replaced. */
  ghost predicate Accounted(w: World, c: Call, session: SessionId, tenant: TenantId) {
    exists i, r ::
      && RecordedAt(c, i, r) && r in w.audit
      && r.actor == c.principal.user && r.tenant == tenant && r.outcome == Success && r.resource == c.principal.session
      && (|| (r.action in {Bound, AutoBound} && r.resource == session && r.reason == None)
          || (r.action == Switched && session in w.sessions && w.sessions[session].predecessor == Some(r.resource)))
  }

  /** A call that finished after binding a session has recorded the binding or the
      session is dead. */
  lemma FinishedCallSettles(w: World, c: Call, session: SessionId, tenant: TenantId)
    requires CallHolds(w, c) && c.pc.Done? && Made(c, session, tenant)
    ensures Accounted(w, c, session, tenant) || (session in w.sessions && !w.sessions[session].live)
  {
    if c.did[|c.did| - 1].DidRecord? {
      assert RecordedAt(c, |c.did| - 1, c.did[|c.did| - 1].record);
    }
    assert EventHolds(w, c.principal, c.did[0]);
    assert Settled(c, c.pc.answer);
    assert |c.did| > 1;
    assert EventHolds(w, c.principal, c.did[|c.did| - 1]);
    if |c.did| == 4 {
      assert EventHolds(w, c.principal, c.did[2]);
    }
  }

  /** Over every interleaving, at every moment: a live session bound since the run
      began was bound by a call of this surface which is still in flight or has
      its SUCCESS record. Once no call is in flight, every such session has one. */
  lemma LiveBindingsAreAccounted(init: State, steps: seq<Step>, session: SessionId, tenant: TenantId)
    requires Initial(init)
    requires var w := Run(init, steps).world;
             && session in w.sessions && w.sessions[session].live
             && w.sessions[session].tenant == Some(tenant) && !BoundInitially(init.world, session, tenant)
    ensures var s := Run(init, steps);
            exists id :: id in s.calls && Made(s.calls[id], session, tenant)
                         && (s.calls[id].pc.Done? ==> Accounted(s.world, s.calls[id], session, tenant))
  {
    RunKeepsInvariant(init, steps);
    var s := Run(init, steps);
    assert HasMaker(s, session, tenant);
    var id :| id in s.calls && Made(s.calls[id], session, tenant);
    if s.calls[id].pc.Done? {
      FinishedCallSettles(s.world, s.calls[id], session, tenant);
    }
  }

  /** Every exit after a bind or a switch: the binding is recorded as a success and
      the answer says so (or the enrichment after it failed), or the session
      is dead and the answer claims no binding. */
  lemma EveryExitIsSettled(init: State, steps: seq<Step>, id: CallId, session: SessionId, tenant: TenantId)
    requires Initial(init)
    requires var s := Run(init, steps);
             id in s.calls && s.calls[id].pc.Done? && Made(s.calls[id], session, tenant)
    ensures var s := Run(init, steps);
            var c := s.calls[id];
            match c.pc.answer
            case BoundTo(choice) => choice.tenantId == tenant && Accounted(s.world, c, session, tenant)
            case SwitchedTo(choice, replacement) => choice.tenantId == tenant && replacement == session
                && Accounted(s.world, c, session, tenant)
            case Bootstrapped(BoundState(choice)) => choice.tenantId == tenant && Accounted(s.world, c, session, tenant)
            case ResolutionUnavailable(_) =>
              Accounted(s.world, c, session, tenant) || (session in s.world.sessions && !s.world.sessions[session].live)
            case _ => session in s.world.sessions && !s.world.sessions[session].live
  {
    RunKeepsInvariant(init, steps);
    var s := Run(init, steps);
    var c := s.calls[id];
    assert Settled(c, c.pc.answer);
    FinishedCallSettles(s.world, c, session, tenant);
    assert EventHolds(s.world, c.principal, c.did[0]);
    if |c.did| > 2 {
      assert EventHolds(s.world, c.principal, c.did[2]);
    }
    if |c.did| == 2 {
      assert EventHolds(s.world, c.principal, c.did[1]);
    }
  }

  // ---------------------------------------------------------------------
  // When it happened
  // ---------------------------------------------------------------------

  /** The event is true of the step it is stamped with. */
  ghost predicate Happened(init: State, steps: seq<Step>, p: Principal, e: Event) {
    && e.at < |steps|
    && var pre, post := Run(init, steps[..e.at]).world, Run(init, steps[..e.at + 1]).world;
       HappenedBetween(pre, post, p, e)
  }

  ghost predicate AllHappened(init: State, steps: seq<Step>, p: Principal, events: seq<Event>) {
    forall i :: 0 <= i < |events| ==> Happened(init, steps, p, events[i])
  }

  ghost predicate HappenedBetween(pre: World, post: World, p: Principal, e: Event) {
    match e
    case DidBind(tenant, _) =>
      && Live(pre, p.user, p.session) && pre.sessions[p.session].tenant.None?
      && Live(post, p.user, p.session) && post.sessions[p.session].tenant == Some(tenant)
    case DidRecheck(tenant, held, _) => held ==> Member(pre, p.user, tenant)
    case DidSwitch(tenant, minted, previous, _) =>
      && Live(pre, p.user, p.session) && previous.Some? && pre.sessions[p.session].tenant == previous
      && minted !in pre.sessions && !Live(post, p.user, p.session)
      && minted in post.sessions && post.sessions[minted] == Session(p.user, true, Some(tenant), Some(p.session))
    case DidRecord(record, _) => post.audit == pre.audit + [record]
    case DidRevoke(session, _) => !Live(post, p.user, session)
  }

  lemma NewEventHappened(c: Call, w: World, port: Port, now: nat)
    requires c.pc.RecordingDenial? || c.pc.RecordingBind? || c.pc.RecordingSwitch? || Consistent(c)
    ensures var d := Advanced(c, w, port, now).did;
            |d| > |c.did| ==> HappenedBetween(w, WorldAfter(c, w, port), c.principal, d[|c.did|])
  {
    match c.pc
    case Rechecking(_, choice) => ChoiceForIsMembership(w, c.principal.user, choice.tenantId);
    case _ =>
  }

  ghost predicate Ordered(events: seq<Event>, now: nat) {
    && (forall i, j :: 0 <= i < j < |events| ==> events[i].at < events[j].at)
    && (forall i :: 0 <= i < |events| ==> events[i].at < now)
  }

  lemma {:induction false} RunCounts(init: State, steps: seq<Step>)
    requires init.now == 0
    ensures Run(init, steps).now == |steps|
  {
    if steps != [] {
      RunCounts(init, steps[..|steps| - 1]);
    }
  }

  lemma HappenedLater(init: State, steps: seq<Step>, step: Step, p: Principal, e: Event)
    requires Happened(init, steps, p, e)
    ensures Happened(init, steps + [step], p, e)
  {
    assert (steps + [step])[..e.at] == steps[..e.at];
    assert (steps + [step])[..e.at + 1] == steps[..e.at + 1];
  }

  /** Every call's history is what really happened, in that order. */
  lemma {:induction false} HistoriesAreTrue(init: State, steps: seq<Step>, id: CallId)
    requires Initial(init) && id in Run(init, steps).calls
    ensures var c := Run(init, steps).calls[id];
            Ordered(c.did, |steps|) && AllHappened(init, steps, c.principal, c.did)
  {
    if steps != [] {
      var before, step := steps[..|steps| - 1], steps[|steps| - 1];
      assert steps == before + [step];
      var s := Run(init, before);
      if id in s.calls {
        HistoriesAreTrue(init, before, id);
        var c := s.calls[id];
        forall i | 0 <= i < |c.did| ensures Happened(init, steps, c.principal, c.did[i]) {
          HappenedLater(init, before, step, c.principal, c.did[i]);
        }
        if step.Advance? && step.call == id {
          RunKeepsInvariant(init, before);
          RunCounts(init, before);
          NewEventHappenedNow(init, before, step, c);
        }
      }
    }
  }

  lemma NewEventHappenedNow(init: State, before: seq<Step>, step: Step, c: Call)
    requires var s := Run(init, before);
             && step.Advance? && step.call in s.calls && s.calls[step.call] == c && Consistent(c) && s.now == |before|
    requires Ordered(c.did, |before|) && AllHappened(init, before + [step], c.principal, c.did)
    ensures var d := Advanced(c, Run(init, before).world, step.port, |before|);
            && Ordered(d.did, |before| + 1) && AllHappened(init, before + [step], d.principal, d.did)
  {
    var w := Run(init, before).world;
    var d := Advanced(c, w, step.port, |before|);
    AdvancedPrincipal(c, w, step.port, |before|);
    if |d.did| > |c.did| {
      LastEventHappened(init, before, step, c);
      var e := d.did[|c.did|];
      assert d.did == c.did + [e];
      AppendedIsOrdered(c.did, e);
      AppendedHappened(init, before + [step], c.principal, c.did, e);
    } else {
      assert d.did == c.did;
    }
  }

  lemma AppendedHappened(init: State, steps: seq<Step>, p: Principal, events: seq<Event>, e: Event)
    requires AllHappened(init, steps, p, events) && Happened(init, steps, p, e)
    ensures AllHappened(init, steps, p, events + [e])
  {
  }

  lemma AppendedIsOrdered(events: seq<Event>, e: Event)
    requires Ordered(events, e.at)
    ensures Ordered(events + [e], e.at + 1)
  {
  }

  lemma LastEventHappened(init: State, before: seq<Step>, step: Step, c: Call)
    requires var s := Run(init, before);
             step.Advance? && step.call in s.calls && s.calls[step.call] == c && Consistent(c)
    requires |Advanced(c, Run(init, before).world, step.port, |before|).did| > |c.did|
    ensures var e := Advanced(c, Run(init, before).world, step.port, |before|).did[|c.did|];
            Happened(init, before + [step], c.principal, e)
  {
    var s, steps := Run(init, before), before + [step];
    assert steps[..|before|] == before && steps[..|before| + 1] == steps;
    AdvancedPrincipal(c, s.world, step.port, |before|);
    NewEventHappened(c, s.world, step.port, |before|);
    assert Run(init, steps).world == WorldAfter(c, s.world, step.port);
  }

  /** Three moments of the run: the session goes from unbound to the tenant, then
      the membership is seen to hold, then the success record is appended. */
  ghost predicate BoundCheckedRecorded(
    init: State, steps: seq<Step>, p: Principal, surface: Surface, tenant: TenantId, i: nat, j: nat, k: nat)
  {
    && i < j < k < |steps|
    && HappenedBetween(Run(init, steps[..i]).world, Run(init, steps[..i + 1]).world, p, DidBind(tenant, i))
    && Member(Run(init, steps[..j]).world, p.user, tenant)
    && Run(init, steps[..k + 1]).world.audit == Run(init, steps[..k]).world.audit + [
         Record(p.user, tenant, if surface == Requested then Bound else AutoBound, p.session, None, None, Success)]
  }

  /** Whoever is told a session is now bound: the membership was verified again
      after the bind, and the record was written after that. A bootstrap may
      instead report the binding its session already had. */
  lemma BoundAnswersWereVerifiedAgain(init: State, steps: seq<Step>, id: CallId)
    requires Initial(init) && id in Run(init, steps).calls
    ensures var c := Run(init, steps).calls[id];
            match c.pc
            case Done(BoundTo(choice)) =>
              exists i, j, k :: BoundCheckedRecorded(init, steps, c.principal, Requested, choice.tenantId, i, j, k)
            case Done(Bootstrapped(BoundState(choice))) =>
              c.principal.tenant == Some(choice.tenantId)
              || exists i, j, k :: BoundCheckedRecorded(init, steps, c.principal, Automatic, choice.tenantId, i, j, k)
            case _ => true
  {
    RunKeepsInvariant(init, steps);
    HistoriesAreTrue(init, steps, id);
    var c := Run(init, steps).calls[id];
    if c.pc.Done? && |c.did| == 3 {
      assert Settled(c, c.pc.answer);
      assert Happened(init, steps, c.principal, c.did[0]);
      assert Happened(init, steps, c.principal, c.did[1]);
      assert Happened(init, steps, c.principal, c.did[2]);
      match c.pc.answer
      case BoundTo(choice) =>
        assert BoundCheckedRecorded(init, steps, c.principal, Requested, choice.tenantId, c.did[0].at, c.did[1].at,
            c.did[2].at);
      case Bootstrapped(BoundState(choice)) =>
        assert BoundCheckedRecorded(init, steps, c.principal, Automatic, choice.tenantId, c.did[0].at, c.did[1].at,
            c.did[2].at);
      case _ =>
    }
  }

  lemma {:induction false} RunGrows(init: State, steps: seq<Step>, i: nat, j: nat)
    requires i <= j <= |steps|
    ensures Grows(Run(init, steps[..i]).world, Run(init, steps[..j]).world)
    decreases j
  {
    if i < j {
      RunGrows(init, steps, i, j - 1);
      assert steps[..j][..j - 1] == steps[..j - 1];
      StepGrows(Run(init, steps[..j - 1]), steps[j - 1]);
      GrowsTransitive(Run(init, steps[..i]).world, Run(init, steps[..j - 1]).world, Run(init, steps[..j]).world);
    }
  }

  lemma BindersInOrder(init: State, steps: seq<Step>, p: Principal, q: Principal, e: Event, f: Event)
    requires Happened(init, steps, p, e) && Happened(init, steps, q, f)
    requires e.DidBind? && f.DidBind? && p.session == q.session
    ensures !(e.at < f.at)
  {
    if e.at < f.at {
      RunGrows(init, steps, e.at + 1, f.at);
    }
  }

  /** However many calls race for a session, one binds it. */
  lemma OneCallBindsASession(init: State, steps: seq<Step>, a: CallId, b: CallId)
    requires Initial(init)
    requires var calls := Run(init, steps).calls;
             && a in calls && b in calls && a != b
             && |calls[a].did| > 0 && |calls[b].did| > 0 && calls[a].did[0].DidBind? && calls[b].did[0].DidBind?
    ensures var calls := Run(init, steps).calls;
            calls[a].principal.session != calls[b].principal.session
  {
    var calls := Run(init, steps).calls;
    if calls[a].principal.session == calls[b].principal.session {
      HistoriesAreTrue(init, steps, a);
      HistoriesAreTrue(init, steps, b);
      BindersInOrder(init, steps, calls[a].principal, calls[b].principal, calls[a].did[0], calls[b].did[0]);
      BindersInOrder(init, steps, calls[b].principal, calls[a].principal, calls[b].did[0], calls[a].did[0]);
      StampsAreOneCalls(init, steps, a, b);
    }
  }

  /** No two of the events carry the same stamp. */
  ghost predicate Apart(a: seq<Event>, b: seq<Event>) {
    forall i, j :: 0 <= i < |a| && 0 <= j < |b| ==> a[i].at != b[j].at
  }

  lemma NewStampIsApart(c: Call, w: World, port: Port, now: nat, others: seq<Event>)
    requires Apart(c.did, others) && forall j :: 0 <= j < |others| ==> others[j].at < now
    ensures Apart(Advanced(c, w, port, now).did, others)
  {
    AdvancedPrincipal(c, w, port, now);
    var d := Advanced(c, w, port, now).did;
    forall i | 0 <= i < |c.did| ensures d[i] == c.did[i] {
      assert d[..|c.did|][i] == c.did[i];
    }
  }

  /** A step belongs to one call. */
  lemma {:induction false} StampsAreOneCalls(init: State, steps: seq<Step>, a: CallId, b: CallId)
    requires Initial(init) && a != b && a in Run(init, steps).calls && b in Run(init, steps).calls
    ensures Apart(Run(init, steps).calls[a].did, Run(init, steps).calls[b].did)
  {
    if steps != [] {
      var before, step := steps[..|steps| - 1], steps[|steps| - 1];
      var s := Run(init, before);
      if a in s.calls && b in s.calls {
        StampsAreOneCalls(init, before, a, b);
        HistoriesAreTrue(init, before, a);
        HistoriesAreTrue(init, before, b);
        RunCounts(init, before);
        if step.Advance? && step.call == a {
          NewStampIsApart(s.calls[a], s.world, step.port, s.now, s.calls[b].did);
        } else if step.Advance? && step.call == b {
          NewStampIsApart(s.calls[b], s.world, step.port, s.now, s.calls[a].did);
        }
      }
    }
  }

  // ---------------------------------------------------------------------
  // What is offered when nothing is bound
  // ---------------------------------------------------------------------

  /** cs are the choices of the user's memberships: all of them, in the store's order. */
  ghost predicate ChoicesAre(memberships: seq<Membership>, user: UserId, cs: seq<Choice>) {
    exists places :: PlacesAre(memberships, user, cs, places)
  }

  ghost predicate PlacesAre(memberships: seq<Membership>, user: UserId, cs: seq<Choice>, places: seq<nat>) {
    && |places| == |cs|
    && (forall k :: 0 <= k < |cs| ==> places[k] < |memberships| && memberships[places[k]] == Membership(user, cs[k]))
    && (forall j, k :: 0 <= j < k < |cs| ==> places[j] < places[k])
    && (forall i :: 0 <= i < |memberships| && memberships[i].user == user ==> i in places)
  }

  lemma PlacesAppend(memberships: seq<Membership>, user: UserId, cs: seq<Choice>, places: seq<nat>, m: Membership)
    requires PlacesAre(memberships, user, cs, places)
    ensures m.user == user ==> PlacesAre(memberships + [m], user, cs + [m.choice], places + [|memberships|])
    ensures m.user != user ==> PlacesAre(memberships + [m], user, cs, places)
  {
    var more := memberships + [m];
    if m.user == user {
      forall i | 0 <= i < |more| && more[i].user == user ensures i in places + [|memberships|] {
        if i < |memberships| {
          assert memberships[i].user == user;
          assert i in places;
        } else {
          assert (places + [|memberships|])[|places|] == i;
        }
      }
    } else {
      forall i | 0 <= i < |more| && more[i].user == user ensures i in places {
        assert memberships[i].user == user;
      }
    }
  }

  lemma {:induction false} ChoicesAppend(memberships: seq<Membership>, user: UserId, m: Membership)
    ensures ChoicesFor(memberships + [m], user)
         == ChoicesFor(memberships, user) + if m.user == user then [m.choice] else []
  {
    if memberships == [] {
      assert [] + [m] == [m] && [m][1..] == [];
    } else {
      assert (memberships + [m])[1..] == memberships[1..] + [m];
      ChoicesAppend(memberships[1..], user, m);
      var first := if memberships[0].user == user then [memberships[0].choice] else [];
      var last := if m.user == user then [m.choice] else [];
      assert ChoicesFor(memberships + [m], user) == first + ChoicesFor(memberships[1..] + [m], user);
      assert first + (ChoicesFor(memberships[1..], user) + last) == ChoicesFor(memberships, user) + last;
    }
  }

  lemma {:induction false} ChoicesExactly(memberships: seq<Membership>, user: UserId) returns (places: seq<nat>)
    ensures PlacesAre(memberships, user, ChoicesFor(memberships, user), places)
  {
    if memberships == [] {
      places := [];
    } else {
      var front, m := memberships[..|memberships| - 1], memberships[|memberships| - 1];
      var before := ChoicesExactly(front, user);
      assert memberships == front + [m];
      ChoicesAppend(front, user, m);
      PlacesAppend(front, user, ChoicesFor(front, user), before, m);
      places := if m.user == user then before + [|front|] else before;
    }
  }

  /** The user has no usable membership. */
  ghost predicate NoMembership(w: World, user: UserId) {
    forall m :: m in w.memberships ==> m.user != user
  }

  /** The binding a bootstrap reports over this world without binding anything: the
      session's own while the user is still a member of its tenant; otherwise none
      without a membership, and all the user's choices with one. Left unbound, a
      session with a single choice is bound instead. */
  ghost predicate Offers(w: World, p: Principal, b: BindingState) {
    if p.tenant.Some? && Member(w, p.user, p.tenant.value) then
      b.BoundState? && b.tenant.tenantId == p.tenant.value && Membership(p.user, b.tenant) in w.memberships
    else
      match b
      case BoundState(_) => false
      case UnboundState => NoMembership(w, p.user)
      case SelectionState(cs) => ChoicesAre(w.memberships, p.user, cs) && |cs| >= if p.tenant.None? then 2 else 1
  }

  lemma NoChoicesNoMembership(w: World, user: UserId)
    ensures ChoicesFor(w.memberships, user) == [] <==> NoMembership(w, user)
  {
    var places := ChoicesExactly(w.memberships, user);
    var cs := ChoicesFor(w.memberships, user);
    if m :| m in w.memberships && m.user == user {
      var i :| 0 <= i < |w.memberships| && w.memberships[i] == m;
      assert i in places;
    }
    if cs != [] {
      assert w.memberships[places[0]] in w.memberships;
    }
  }

  /** What is decided on the first read, whatever form the resolution takes. */
  lemma OfferedExactly(w: World, p: Principal)
    ensures var pc := AfterResolving(p, Bootstrap, Resolve(w, p.user));
            && (pc.Enriching? ==> Offers(w, p, pc.binding))
            && (pc.Binding? ==>
                  p.tenant.None? && pc.surface == Automatic && ChoicesAre(w.memberships, p.user, [pc.choice])
                  && Uuid.IsUuidShaped(pc.choice.tenantId))
            && (pc.Done? ==> pc.answer == ContextUnavailable && p.tenant.None?
                             && exists c :: ChoicesAre(w.memberships, p.user, [c]) && !Uuid.IsUuidShaped(c.tenantId))
            && (pc.Enriching? || pc.Binding? || pc.Done?)
  {
    var r := Resolve(w, p.user);
    ResolutionDescribes(w, p.user);
    if p.tenant.Some? {
      ChoiceForIsMembership(w, p.user, p.tenant.value);
      OfferedWhenBound(w, p, p.tenant.value, r);
    } else {
      OfferedWhenUnbound(w, p, r);
    }
  }

  lemma ResolvedChoices(w: World, user: UserId)
    ensures var cs := ChoicesOf(Resolve(w, user));
            && cs == ChoicesFor(w.memberships, user) && ChoicesAre(w.memberships, user, cs)
            && (Resolve(w, user).OneTenant? <==> |cs| == 1)
  {
    var places := ChoicesExactly(w.memberships, user);
    var cs := ChoicesFor(w.memberships, user);
    assert |cs| == 1 ==> cs == [cs[0]];
  }

  /** What ResolvedChoices and ChoiceForIsMembership say of a resolution, without how it is made. */
  ghost predicate Describes(w: World, user: UserId, r: Resolution) {
    && ChoicesAre(w.memberships, user, ChoicesOf(r))
    && (ChoicesOf(r) == [] <==> NoMembership(w, user))
    && (r.OneTenant? <==> |ChoicesOf(r)| == 1)
  }

  lemma ResolutionDescribes(w: World, user: UserId)
    ensures Describes(w, user, Resolve(w, user))
  {
    NoChoicesNoMembership(w, user);
    ResolvedChoices(w, user);
  }

  lemma OfferedWhenBound(w: World, p: Principal, tenant: TenantId, r: Resolution)
    requires p.tenant == Some(tenant) && Describes(w, p.user, r)
    requires var found := ChoiceFor(r, tenant);
             && (found.Some? <==> Member(w, p.user, tenant))
             && (found.Some? ==> Membership(p.user, found.value) in w.memberships && found.value.tenantId == tenant)
    ensures var pc := AfterResolving(p, Bootstrap, r); pc.Enriching? && Offers(w, p, pc.binding)
  {
  }

  lemma OfferedWhenUnbound(w: World, p: Principal, r: Resolution)
    requires p.tenant.None? && Describes(w, p.user, r)
    ensures var pc := AfterResolving(p, Bootstrap, r);
            && (pc.Enriching? ==> Offers(w, p, pc.binding))
            && (pc.Binding? ==> pc.surface == Automatic && ChoicesAre(w.memberships, p.user, [pc.choice])
                                && Uuid.IsUuidShaped(pc.choice.tenantId))
            && (pc.Done? ==> pc.answer == ContextUnavailable
                             && exists c :: ChoicesAre(w.memberships, p.user, [c]) && !Uuid.IsUuidShaped(c.tenantId))
            && (pc.Enriching? || pc.Binding? || pc.Done?)
  {
    if r.OneTenant? {
      assert ChoicesOf(r) == [r.choice];
    }
  }

  /** The first read of a request for a tenant: refused exactly without membership. */
  lemma RequestedExactly(w: World, p: Principal, tenant: TenantId)
    ensures var pc := AfterResolving(p, SetBinding(Some(tenant)), Resolve(w, p.user));
            && (pc == Done(MembershipRequired) <==> !Member(w, p.user, tenant))
            && (pc.Binding? <==> Member(w, p.user, tenant) && p.tenant == None)
            && (pc.Switching? <==> Member(w, p.user, tenant) && p.tenant != None)
            && (pc.Binding? ==> pc.surface == Requested)
            && (pc.Binding? || pc.Switching? ==>
                  pc.choice.tenantId == tenant && Membership(p.user, pc.choice) in w.memberships)
  {
    ChoiceForIsMembership(w, p.user, tenant);
  }

  /** At some step of the run the call read its memberships in a world that offers this. */
  ghost predicate OfferedIn(init: State, steps: seq<Step>, p: Principal, b: BindingState) {
    exists n :: 0 <= n <= |steps| && Offers(Run(init, steps[..n]).world, p, b)
  }

  lemma OfferedStays(init: State, before: seq<Step>, step: Step, p: Principal, b: BindingState)
    requires OfferedIn(init, before, p, b)
    ensures OfferedIn(init, before + [step], p, b)
  {
    var n :| 0 <= n <= |before| && Offers(Run(init, before[..n]).world, p, b);
    assert (before + [step])[..n] == before[..n];
  }

  /** The binding state a call reports or is about to, having done nothing. */
  function Reported(c: Call): Option<BindingState> {
    if |c.did| > 0 then None
    else match c.pc
      case Enriching(b) => Some(b)
      case Done(Bootstrapped(b)) => Some(b)
      case _ => None
  }

  /** Only the first read starts a report. */
  lemma ReportedMoves(c: Call, w: World, port: Port, now: nat)
    requires Reported(Advanced(c, w, port, now)).Some? && Consistent(c)
    ensures || Reported(c) == Reported(Advanced(c, w, port, now))
            || (c.pc == Resolving(Bootstrap) && port.answers
                && Advanced(c, w, port, now).pc == AfterResolving(c.principal, Bootstrap, Resolve(w, c.principal.user)))
  {
    match c.pc
    case Resolving(request) => BeginsAReport(c.principal, request, Resolve(w, c.principal.user));
    case _ =>
  }

  lemma BeginsAReport(p: Principal, request: Request, r: Resolution)
    ensures var pc := AfterResolving(p, request, r);
            pc.Enriching? || (pc.Done? && pc.answer.Bootstrapped?) ==> request.Bootstrap? && pc.Enriching?
  {
  }

  lemma RunAppends(init: State, steps: seq<Step>, step: Step)
    ensures Run(init, steps + [step]) == Apply(Run(init, steps), step)
  {
    assert (steps + [step])[..|steps|] == steps;
  }

  lemma OtherCallsKeep(s: State, step: Step, id: CallId)
    requires id in Apply(s, step).calls && !(step.Advance? && step.call == id)
    requires Reported(Apply(s, step).calls[id]).Some?
    ensures id in s.calls && Apply(s, step).calls[id] == s.calls[id]
  {
  }

  /** A bootstrap that bound nothing reports exactly what the memberships it read offer:
      a tenant selection with all the choices, none, or its session's own tenant. */
  lemma {:induction false} ReportsAreOffered(init: State, steps: seq<Step>, id: CallId)
    requires Initial(init) && id in Run(init, steps).calls && Reported(Run(init, steps).calls[id]).Some?
    ensures var c := Run(init, steps).calls[id]; OfferedIn(init, steps, c.principal, Reported(c).value)
  {
    var before, step := steps[..|steps| - 1], steps[|steps| - 1];
    assert steps == before + [step];
    RunAppends(init, before, step);
    var s := Run(init, before);
    if step.Advance? && step.call == id && id in s.calls {
      var c := s.calls[id];
      var b := Reported(Run(init, steps).calls[id]).value;
      RunKeepsInvariant(init, before);
      assert CallHolds(s.world, c);
      AdvancedPrincipal(c, s.world, step.port, s.now);
      ReportedMoves(c, s.world, step.port, s.now);
      OfferedExactly(s.world, c.principal);
      if Reported(c) == Some(b) {
        ReportsAreOffered(init, before, id);
        OfferedStays(init, before, step, c.principal, b);
      } else {
        assert steps[..|before|] == before;
        assert Offers(Run(init, steps[..|before|]).world, c.principal, b);
      }
    } else {
      OtherCallsKeep(s, step, id);
      ReportsAreOffered(init, before, id);
      OfferedStays(init, before, step, s.calls[id].principal, Reported(s.calls[id]).value);
    }
  }

  // ---------------------------------------------------------------------
  // When a request succeeds, and how it fails
  // ---------------------------------------------------------------------

  /** The session is the user's, live, and bound to nothing. */
  predicate Bindable(w: World, p: Principal) {
    && p.session in w.sessions && w.sessions[p.session].user == p.user
    && w.sessions[p.session].live && w.sessions[p.session].tenant == None
  }

  /** Every port answers, the session is bindable when it is bound, and the membership
      holds at both reads: the answer is BOUND, whatever else happens in between. */
  lemma FirstBindSucceeds(
    c: Call, tenant: TenantId, w1: World, p1: Port, t1: nat, w2: World, p2: Port, t2: nat, w3: World, p3: Port, t3: nat,
    w4: World, p4: Port, t4: nat)
    requires c.pc == Resolving(SetBinding(Some(tenant))) && c.principal.tenant == None
    requires p1.answers && p2.answers && p3.answers && p4.answers
    requires Member(w1, c.principal.user, tenant) && Bindable(w2, c.principal) && Member(w3, c.principal.user, tenant)
    ensures var pc := Advanced(Advanced(Advanced(Advanced(c, w1, p1, t1), w2, p2, t2), w3, p3, t3), w4, p4, t4).pc;
            && pc.Done? && pc.answer.BoundTo? && pc.answer.tenant.tenantId == tenant
            && Membership(c.principal.user, pc.answer.tenant) in w1.memberships
  {
    RequestedExactly(w1, c.principal, tenant);
    var c1 := Advanced(c, w1, p1, t1);
    assert c1.pc.Binding? && c1.pc.choice.tenantId == tenant && c1.principal == c.principal;
    RefusalsAreExact(c1, w2, p2, t2);
    var c2 := Advanced(c1, w2, p2, t2);
    assert c2.pc == Rechecking(Requested, c1.pc.choice) && c2.principal == c.principal;
    RefusalsAreExact(c2, w3, p3, t3);
    assert Advanced(c2, w3, p3, t3).pc == RecordingBind(Requested, c1.pc.choice);
  }

  /** The session is the user's, live and bound, and the new id is unused. */
  predicate Switchable(w: World, p: Principal, port: Port) {
    && p.session in w.sessions && w.sessions[p.session].user == p.user
    && w.sessions[p.session].live && w.sessions[p.session].tenant != None && port.minted !in w.sessions
  }

  /** The same for a bound session: the answer is the new session, bound to the tenant. */
  lemma SwitchSucceeds(
    c: Call, tenant: TenantId, w1: World, p1: Port, t1: nat, w2: World, p2: Port, t2: nat, w3: World, p3: Port, t3: nat)
    requires c.pc == Resolving(SetBinding(Some(tenant))) && c.principal.tenant != None
    requires p1.answers && p2.answers && p3.answers
    requires Member(w1, c.principal.user, tenant) && Switchable(w2, c.principal, p2)
    ensures var pc := Advanced(Advanced(Advanced(c, w1, p1, t1), w2, p2, t2), w3, p3, t3).pc;
            && pc.Done? && pc.answer.SwitchedTo? && pc.answer.tenant.tenantId == tenant && pc.answer.session == p2.minted
            && Membership(c.principal.user, pc.answer.tenant) in w1.memberships
  {
    RequestedExactly(w1, c.principal, tenant);
    var c1 := Advanced(c, w1, p1, t1);
    assert c1.pc.Switching? && c1.pc.choice.tenantId == tenant && c1.principal == c.principal;
    var c2 := Advanced(c1, w2, p2, t2);
    assert c2.pc.RecordingSwitch? && c2.pc.choice == c1.pc.choice && c2.pc.minted == p2.minted;
  }

  /** The same for a bootstrap of an unbound session with one membership. */
  lemma AutoBindSucceeds(
    c: Call, choice: Choice, w1: World, p1: Port, t1: nat, w2: World, p2: Port, t2: nat, w3: World, p3: Port, t3: nat,
    w4: World, p4: Port, t4: nat, w5: World, p5: Port, t5: nat)
    requires c.pc == Resolving(Bootstrap) && c.principal.tenant == None
    requires p1.answers && p2.answers && p3.answers && p4.answers && p5.answers
    requires ChoicesAre(w1.memberships, c.principal.user, [choice]) && Uuid.IsUuidShaped(choice.tenantId)
    requires Bindable(w2, c.principal) && Member(w3, c.principal.user, choice.tenantId)
    ensures var bound := Advanced(Advanced(Advanced(c, w1, p1, t1), w2, p2, t2), w3, p3, t3);
            var pc := Advanced(Advanced(bound, w4, p4, t4), w5, p5, t5).pc;
            && pc.Done? && pc.answer.Bootstrapped? && pc.answer.binding.BoundState?
            && pc.answer.binding.tenant.tenantId == choice.tenantId
            && Membership(c.principal.user, pc.answer.binding.tenant) in w3.memberships
  {
    OneChoiceIsTheChoice(w1, c.principal.user, choice);
    var c1 := Advanced(c, w1, p1, t1);
    assert c1.pc == Binding(Automatic, choice) && c1.principal == c.principal;
    RefusalsAreExact(c1, w2, p2, t2);
    var c2 := Advanced(c1, w2, p2, t2);
    assert c2.pc == Rechecking(Automatic, choice) && c2.principal == c.principal;
    ChoiceForIsMembership(w3, c.principal.user, choice.tenantId);
    var c3 := Advanced(c2, w3, p3, t3);
    assert c3.pc.RecordingBind? && c3.pc.surface == Automatic && c3.pc.choice.tenantId == choice.tenantId;
  }

  lemma FirstBelowLast(places: seq<nat>)
    requires forall j, k :: 0 <= j < k < |places| ==> places[j] < places[k]
    ensures |places| <= 1 || places[0] < places[|places| - 1]
  {
  }

  lemma OneChoiceIsTheChoice(w: World, user: UserId, choice: Choice)
    requires ChoicesAre(w.memberships, user, [choice])
    ensures Resolve(w, user) == OneTenant(choice)
  {
    var places :| PlacesAre(w.memberships, user, [choice], places);
    var mine := ChoicesExactly(w.memberships, user);
    var cs := ChoicesFor(w.memberships, user);
    assert w.memberships[places[0]].user == user;
    assert places[0] in mine;
    forall k | 0 <= k < |cs| ensures mine[k] == places[0] {
      assert w.memberships[mine[k]].user == user;
      assert mine[k] in places;
    }
    var k :| 0 <= k < |mine| && mine[k] == places[0];
    FirstBelowLast(mine);
    assert cs == [choice];
  }

  /** A bind is refused exactly for a session that is not the user's, live and unbound, or
      when the port loses the race; a switch likewise, or as the port says. */
  lemma RefusalsAreExact(c: Call, w: World, port: Port, now: nat)
    ensures c.pc.Binding? && c.pc.surface == Requested ==>
              (Advanced(c, w, port, now).pc == Done(BindingConflict) <==> !(port.answers && Bindable(w, c.principal)))
    ensures c.pc.Binding? && c.pc.surface == Automatic ==>
              (Advanced(c, w, port, now).pc.RecordingDenial? <==> !(port.answers && Bindable(w, c.principal)))
    ensures c.pc.Rechecking? ==>
              (Advanced(c, w, port, now).pc.Undoing?
               <==> !(port.answers && Member(w, c.principal.user, c.pc.choice.tenantId)))
    ensures c.pc.Switching? ==>
              var answer := Advanced(c, w, port, now).pc;
              && (answer.RecordingSwitch? <==> port.answers && Switchable(w, c.principal, port))
              && (port.answers && !Switchable(w, c.principal, port) ==> answer == Done(BindingConflict))
              && (!port.answers ==>
                    match port.switchError
                    case MissingPrincipalContext => answer == Done(Unauthenticated)
                    case MembershipNotFound => answer == Done(MembershipRequired)
                    case MembershipRevoked => answer == Done(MembershipRevokedConcurrently)
                    case BindingFailed => answer == Done(BindingConflict)
                    case OtherFailure => answer == Done(ContextUnavailable))
    ensures c.pc.Resolving? && !port.answers ==> Advanced(c, w, port, now).pc == Done(ContextUnavailable)
    ensures c.pc.RecordingDenial? ==>
              var pc := Advanced(c, w, port, now).pc;
              && (!port.answers ==> pc == Done(ContextUnavailable))
              && (port.answers && c.pc.surface == Requested ==> pc == Done(MembershipRevokedConcurrently))
              && (port.answers && c.pc.surface == Automatic ==> pc == Enriching(UnboundState))
    ensures c.pc.Enriching? ==>
              Advanced(c, w, port, now).pc
              == Done(if port.answers then Bootstrapped(c.pc.binding) else ResolutionUnavailable(port.retryable))
  {
    if c.pc.Rechecking? {
      ChoiceForIsMembership(w, c.principal.user, c.pc.choice.tenantId);
    }
  }

  /** A request names a tenant id or is refused before anything is read. */
  lemma MalformedExactly(s: State, id: CallId, p: Principal, request: Request)
    requires id !in s.calls
    ensures var pc := Apply(s, Start(id, p, request)).calls[id].pc;
            && (pc == Done(InvalidTenantSelection)
                <==> request.SetBinding? && (request.tenantId == None || !Uuid.IsUuidShaped(request.tenantId.value)))
            && (pc != Done(InvalidTenantSelection) ==> pc == Resolving(request))
  {
  }

  /** The session is the user's and live. */
  predicate Usable(w: World, user: UserId, session: SessionId) {
    session in w.sessions && w.sessions[session].user == user && w.sessions[session].live
  }

  /** v is w but for this session, which is now as given. */
  predicate OnlyChanges(w: World, v: World, session: SessionId, now: Session) {
    v == w.(sessions := w.sessions[session := now])
  }

  /** What a port call does to the world: a bind gives a bindable session its tenant, a
      revocation kills a live session, a switch kills the old session and mints one bound to
      the tenant (a failed one may have killed the old one); otherwise nothing. */
  lemma PortCallsDoExactly(c: Call, w: World, port: Port)
    ensures var p, v := c.principal, WorldAfter(c, w, port);
            match c.pc
            case Binding(_, choice) =>
              if port.answers && Bindable(w, p) then
                OnlyChanges(w, v, p.session, w.sessions[p.session].(tenant := Some(choice.tenantId)))
              else v == w
            case Undoing(_, _) =>
              if Usable(w, p.user, p.session) then OnlyChanges(w, v, p.session,
                  w.sessions[p.session].(live := false)) else v == w
            case Reversing(session) =>
              if Usable(w, p.user, session) then OnlyChanges(w, v, session, w.sessions[session].(live := false)) else v == w
            case Switching(choice) =>
              if port.answers && Switchable(w, p, port) then
                v == w.(sessions := w.sessions[p.session := w.sessions[p.session].(live := false)]
                                              [port.minted := Session(p.user, true, Some(choice.tenantId), Some(p.session))])
              else if port.oldDied && Usable(w, p.user, p.session) then
                OnlyChanges(w, v, p.session, w.sessions[p.session].(live := false))
              else v == w
            case RecordingBind(_, _) => port.answers || v == w
            case RecordingDenial(_, _, _) => port.answers || v == w
            case RecordingSwitch(_, _, _) => port.answers || v == w
            case _ => v == w
  {
  }

  /** What the records say, field by field. */
  lemma RecordsSay(c: Call, w: World, port: Port, now: nat)
    requires port.answers && (c.pc.RecordingBind? || c.pc.RecordingDenial? || c.pc.RecordingSwitch?)
    ensures var p := c.principal;
            WorldAfter(c, w, port) == w.(audit := w.audit + [
              match c.pc
              case RecordingBind(surface, choice) =>
                Record(p.user, choice.tenantId, if surface == Requested then Bound else AutoBound, p.session, None,
                    None, Success)
              case RecordingDenial(surface, tenant, reason) =>
                Record(p.user, tenant, if surface == Requested then Bound else AutoBound, p.session, Some(reason), None,
                    Denied)
              case RecordingSwitch(choice, _, previous) =>
                Record(p.user, choice.tenantId, Switched, p.session, None, previous, Success)])
  {
  }

  // ---------------------------------------------------------------------
  // Every call finishes
  // ---------------------------------------------------------------------

  function PortCallsLeft(pc: Pc): nat {
    match pc
    case Resolving(_) => 6
    case Binding(_, _) => 5
    case Switching(_) => 3
    case Rechecking(_, _) => 4
    case Undoing(_, _) => 3
    case RecordingDenial(_, _, _) => 2
    case RecordingBind(_, _) => 2
    case RecordingSwitch(_, _, _) => 2
    case Reversing(_) => 1
    case Enriching(_) => 1
    case Done(_) => 0
  }

  /** Whatever the ports answer, a call ends after at most six of them. */
  lemma CallsFinish(c: Call, w: World, port: Port, now: nat)
    requires !c.pc.Done?
    ensures PortCallsLeft(Advanced(c, w, port, now).pc) < PortCallsLeft(c.pc) <= 6
  {
  }

  // ---------------------------------------------------------------------
  // The two use cases, over ports that change the shared state
  // ---------------------------------------------------------------------

  /** One call and the platform it runs on. foreign gives the steps others take
      before the call's n-th port call, ports how that port call turns out. */
  class Platform {
    const me: CallId
    const principal: Principal
    const foreign: nat -> seq<Step>
    const ports: nat -> Port
    ghost const init: State
    ghost var steps: seq<Step>
    var state: State
    var portCalls: nat

    constructor (me: CallId, principal: Principal, foreign: nat -> seq<Step>, ports: nat -> Port, init: State)
      requires Initial(init)
      ensures Valid() && state == init && portCalls == 0
      ensures this.me == me && this.principal == principal && this.foreign == foreign && this.ports == ports
          && this.init == init
    {
      this.me, this.principal, this.foreign, this.ports, this.init := me, principal, foreign, ports, init;
      steps := [];
      state := init;
      portCalls := 0;
    }

    /** The state is the outcome of a run, in which this call's principal is ours. */
    ghost predicate Valid()
      reads this
    {
      && Initial(init) && state == Run(init, steps)
      && (me in state.calls ==> state.calls[me].principal == principal)
    }

    /** This call stands at pc. */
    ghost predicate At(pc: Pc)
      reads this
    {
      Valid() && me in state.calls && state.calls[me].pc == pc
    }

    method Take(step: Step)
      requires Valid() && (step.Start? && step.call == me ==> step.principal == principal)
      modifies this`steps, this`state
      ensures Valid() && state == Apply(old(state), step)
    {
      assert (steps + [step])[..|steps|] == steps;
      if step.Advance? && step.call in state.calls {
        AdvancedPrincipal(state.calls[step.call], state.world, step.port, state.now);
      }
      steps := steps + [step];
      state := Apply(state, step);
    }

    /** What others do before the next port call. */
    method Interleave()
      requires Valid() && me in state.calls
      modifies this`steps, this`state
      ensures At(old(state.calls[me].pc)) && state.calls[me] == old(state.calls[me])
    {
      var others := foreign(portCalls);
      for i := 0 to |others|
        invariant At(old(state.calls[me].pc)) && state.calls[me] == old(state.calls[me])
      {
        if !(others[i].Advance? && others[i].call == me) && !(others[i].Start? && others[i].call == me) {
          Take(others[i]);
        }
      }
    }

    method ResolveTenantContext() returns (resolved: Option<Resolution>)
      requires Valid() && me in state.calls && (state.calls[me].pc.Resolving? || state.calls[me].pc.Rechecking?)
      modifies this
      ensures old(state.calls[me].pc.Resolving?) ==>
                At(if resolved.None? then Done(ContextUnavailable)
                   else AfterResolving(principal, old(state.calls[me].pc.request), resolved.value))
      ensures old(state.calls[me].pc.Rechecking?) ==>
                var pc := old(state.calls[me].pc);
                var still := if resolved.Some? then ChoiceFor(resolved.value, pc.choice.tenantId) else None;
                At(if still.None? then Undoing(pc.surface, pc.choice)
                   else RecordingBind(pc.surface, if pc.surface == Requested then pc.choice else still.value))
    {
      Interleave();
      var port := ports(portCalls);
      resolved := if port.answers then Some(Resolve(state.world, principal.user)) else None;
      Take(Advance(me, port));
      portCalls := portCalls + 1;
    }

    method BindSession(surface: Surface, choice: Choice) returns (error: Option<string>)
      requires At(Binding(surface, choice))
      modifies this
      ensures At(if error.None? then Rechecking(surface, choice)
                 else if surface == Requested then Done(BindingConflict)
                 else RecordingDenial(surface, choice.tenantId, error.value))
    {
      Interleave();
      var port := ports(portCalls);
      error := BindError(state.world, principal.user, principal.session, port);
      Take(Advance(me, port));
      portCalls := portCalls + 1;
    }

    /** Revokes the session this call is at revoking. */
    method RevokeSession(session: SessionId)
      requires Valid() && me in state.calls
      requires state.calls[me].pc == Reversing(session) || (state.calls[me].pc.Undoing? && session == principal.session)
      modifies this
      ensures Valid() && !Live(state.world, principal.user, session)
      ensures old(state.calls[me].pc.Reversing?) ==> At(Done(ContextUnavailable))
      ensures old(state.calls[me].pc.Undoing?) ==>
                At(RecordingDenial(old(state.calls[me].pc.surface), old(state.calls[me].pc.choice.tenantId),
                                   "membership_revoked_concurrently"))
    {
      Interleave();
      Take(Advance(me, ports(portCalls)));
      portCalls := portCalls + 1;
    }

    method SwitchTenant(choice: Choice) returns (error: Option<SwitchError>, minted: SessionId, previous: Option<TenantId>)
      requires At(Switching(choice))
      modifies this
      ensures At(if error.Some? then Done(SwitchAnswer(error.value)) else RecordingSwitch(choice, minted, previous))
    {
      Interleave();
      var port, w := ports(portCalls), state.world;
      error := SwitchFailure(w, principal.user, principal.session, port);
      minted := port.minted;
      previous := if error.None? then w.sessions[principal.session].tenant else None;
      Take(Advance(me, port));
      portCalls := portCalls + 1;
    }

    /** The pc of a call that is about to write this record. */
    ghost predicate AboutToRecord(record: Record)
      reads this
    {
      && Valid() && me in state.calls
      && match state.calls[me].pc
         case RecordingDenial(surface, tenant, reason) => record == DenialRecord(principal, surface, tenant, reason)
         case RecordingBind(surface, choice) => record == BindRecord(principal, surface, choice.tenantId)
         case RecordingSwitch(choice, _, previous) => record == SwitchRecord(principal, choice.tenantId, previous)
         case _ => false
    }

    function AfterRecording(pc: Pc, written: bool): Pc {
      match pc
      case RecordingDenial(surface, _, _) => if written then AfterDenial(surface) else Done(ContextUnavailable)
      case RecordingBind(surface, choice) =>
        if !written then Reversing(principal.session)
        else if surface == Requested then Done(BoundTo(choice)) else Enriching(BoundState(choice))
      case RecordingSwitch(choice, minted, _) => if written then Done(SwitchedTo(choice, minted)) else Reversing(minted)
      case _ => pc
    }

    /** True exactly when the record was appended; met: the world the write met. */
    method Audit(record: Record) returns (written: bool, ghost met: World)
      requires AboutToRecord(record)
      modifies this
      ensures At(AfterRecording(old(state.calls[me].pc), written))
      ensures written <==> state.world.audit == met.audit + [record]
      ensures !written ==> state.world == met && state.calls[me].did == old(state.calls[me].did)
      ensures written ==>
                && |state.calls[me].did| == |old(state.calls[me].did)| + 1
                && RecordedAt(state.calls[me], |old(state.calls[me].did)|, record)
    {
      Interleave();
      var port := ports(portCalls);
      written := port.answers;
      met := state.world;
      Take(Advance(me, port));
      portCalls := portCalls + 1;
    }

    method FirstBind(choice: Choice) returns (answer: Answer)
      requires At(Binding(Requested, choice))
      modifies this
      ensures At(Done(answer))
      ensures !answer.SwitchedTo?
      ensures answer.BoundTo? ==>
                answer.tenant == choice
                && exists i, j, k :: BoundCheckedRecorded(init, steps, principal, Requested, choice.tenantId, i, j, k)
    {
      var target := choice.tenantId;
      var bound := BindSession(Requested, choice);
      if bound.Some? {
        return BindingConflict;
      }
      var recheck := ResolveTenantContext();
      var still := if recheck.Some? then ChoiceFor(recheck.value, target) else None;
      if still.None? {
        RevokeSession(principal.session);
        var denialAudited, met :=
          Audit(DenialRecord(principal, Requested, target, "membership_revoked_concurrently"));
        if !denialAudited {
          return ContextUnavailable;
        }
        return MembershipRevokedConcurrently;
      }
      var audited, met := Audit(BindRecord(principal, Requested, target));
      if !audited {
        RevokeSession(principal.session);
        return ContextUnavailable;
      }
      BoundAnswersWereVerifiedAgain(init, steps, me);
      return BoundTo(choice);
    }

    method Switch(choice: Choice) returns (answer: Answer)
      requires At(Switching(choice))
      modifies this
      ensures At(Done(answer))
      ensures !answer.BoundTo?
      ensures answer.SwitchedTo? ==>
                && answer.tenant == choice
                && exists previous :: SwitchRecord(principal, choice.tenantId, previous) in state.world.audit
    {
      var error, minted, previous := SwitchTenant(choice);
      if error.Some? {
        return SwitchAnswer(error.value);
      }
      var audited, met := Audit(SwitchRecord(principal, choice.tenantId, previous));
      if !audited {
        RevokeSession(minted);
        return ContextUnavailable;
      }
      return SwitchedTo(choice, minted);
    }

    method SetTenantBinding(tenantId: Option<string>) returns (answer: Answer)
      requires Valid() && me !in state.calls
      modifies this
      ensures At(Done(answer))
      ensures answer.BoundTo? ==>
                tenantId == Some(answer.tenant.tenantId) && principal.tenant.None?
                && exists i, j, k :: BoundCheckedRecorded(init, steps, principal, Requested, answer.tenant.tenantId, i, j, k)
      ensures answer.SwitchedTo? ==>
                tenantId == Some(answer.tenant.tenantId) && principal.tenant.Some?
                && exists previous :: SwitchRecord(principal, answer.tenant.tenantId, previous) in state.world.audit
    {
      Take(Start(me, principal, SetBinding(tenantId)));
      if tenantId.None? || !Uuid.IsUuidShaped(tenantId.value) {
        return InvalidTenantSelection;
      }
      var resolved := ResolveTenantContext();
      if resolved.None? {
        return ContextUnavailable;
      }
      var targetChoice := ChoiceFor(resolved.value, tenantId.value);
      if targetChoice.None? {
        return MembershipRequired;
      }
      ChoiceBelongs(resolved.value, tenantId.value);
      if principal.tenant.None? {
        answer := FirstBind(targetChoice.value);
      } else {
        answer := Switch(targetChoice.value);
      }
    }

    /** None: the call fails with ContextUnavailable. */
    method AutoBind(choice: Choice) returns (binding: Option<BindingState>)
      requires At(Binding(Automatic, choice))
      modifies this
      ensures At(if binding.Some? then Enriching(binding.value) else Done(ContextUnavailable))
    {
      var tenantId := choice.tenantId;
      var bound := BindSession(Automatic, choice);
      if bound.Some? {
        var audited, met := Audit(DenialRecord(principal, Automatic, tenantId, bound.value));
        return if audited then Some(UnboundState) else None;
      }
      var recheck := ResolveTenantContext();
      var still := if recheck.Some? then ChoiceFor(recheck.value, tenantId) else None;
      if still.None? {
        RevokeSession(principal.session);
        var audited, met :=
          Audit(DenialRecord(principal, Automatic, tenantId, "membership_revoked_concurrently"));
        return if audited then Some(UnboundState) else None;
      }
      ChoiceBelongs(recheck.value, tenantId);
      var audited, met := Audit(BindRecord(principal, Automatic, tenantId));
      if !audited {
        RevokeSession(principal.session);
        return None;
      }
      return Some(BoundState(still.value));
    }

    method GetBootstrap() returns (answer: Answer)
      requires Valid() && me !in state.calls
      modifies this
      ensures At(Done(answer))
      ensures answer.Bootstrapped? && answer.binding.BoundState? ==>
                var tenant := answer.binding.tenant.tenantId;
                || principal.tenant == Some(tenant)
                || exists i, j, k :: BoundCheckedRecorded(init, steps, principal, Automatic, tenant, i, j, k)
      ensures answer.Bootstrapped? && |state.calls[me].did| == 0 ==> OfferedIn(init, steps, principal, answer.binding)
    {
      Take(Start(me, principal, Bootstrap));
      var resolved := ResolveTenantContext();
      if resolved.None? {
        return ContextUnavailable;
      }
      var resolution := resolved.value;
      var binding: BindingState;
      if principal.tenant.Some? {
        var choice := ChoiceFor(resolution, principal.tenant.value);
        binding := if choice.Some? then BoundState(choice.value) else StateForChoices(ChoicesOf(resolution));
      } else if resolution.OneTenant? {
        if !Uuid.IsUuidShaped(resolution.choice.tenantId) {
          return ContextUnavailable;
        }
        var outcome := AutoBind(resolution.choice);
        if outcome.None? {
          return ContextUnavailable;
        }
        binding := outcome.value;
      } else {
        binding := StateForChoices(ChoicesOf(resolution));
      }
      answer := Enrich(binding);
      BoundAnswersWereVerifiedAgain(init, steps, me);
      if answer.Bootstrapped? && |state.calls[me].did| == 0 {
        ReportsAreOffered(init, steps, me);
      }
    }

    /** The jurisdiction, policy pack and capability reads, as one port call. */
    method Enrich(binding: BindingState) returns (answer: Answer)
      requires At(Enriching(binding))
      modifies this
      ensures At(Done(answer))
    {
      Interleave();
      var port := ports(portCalls);
      answer := if port.answers then Bootstrapped(binding) else ResolutionUnavailable(port.retryable);
      Take(Advance(me, port));
      portCalls := portCalls + 1;
    }
  }
}
