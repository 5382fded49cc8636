/** Configuring the availability of a capability under its code ceiling
    (modules/capability/application/use-cases/manage-availability.ts,
    modules/capability/infrastructure/persistence/prisma-availability-repository.ts). */
module Availability {
  import opened Results
  import opened Strings
  import opened CapabilityResolution
  import opened Registry

  type CallId = nat
  type RowId = nat

  /** scope None: the row holds for the whole environment. */
  datatype Record = Record(
    id: RowId, environment: string, scope: Option<string>, capability: string,
    state: AvailabilityState, reason: string, actor: string, version: nat)

  datatype Stored = Stored(record: Record, updatedAt: Time)

  datatype Input = Input(
    environment: string, scope: Option<string>, capability: string, state: AvailabilityState,
    reason: string, actor: string, expectedVersion: Option<nat>, now: Time)

  datatype AuditRecord =
    | RefusedAboveCeiling(actor: string, environment: string, scope: Option<string>, capability: string,
        requested: AvailabilityState)
    | Changed(actor: string, after: Record)

  datatype Answer =
    | Set(record: Record)
    | Denied | InvalidInput | UnknownCapability | AboveCeiling | StoreFailure | AuditAppendFailed
    | AlreadyExists(id: RowId)
    | VersionConflict(id: RowId, expectedVersion: nat)

  datatype Pc =
    | Refusing
    | Reading
    | Inserting
    | Updating(existing: Record)
    | Recording(after: Record)
    | Done(answer: Answer)

  datatype Call = Call(input: Input, pc: Pc)

  /** writers: for each row, the calls that wrote its versions, first to last. */
  datatype State = State(
    rows: map<RowId, Stored>, audit: seq<AuditRecord>, calls: map<CallId, Call>, writers: map<RowId, seq<CallId>>)

  // ---------------------------------------------------------------------
  // The ceiling
  // ---------------------------------------------------------------------

  /** Why an allowing state would exceed what the code declares. */
  datatype Breach = NotImplemented | NotDeployed | NotDeclared

  function CeilingBreachFor(d: Descriptor, environment: string, scope: Option<string>): Option<Breach> {
    if !d.implemented then Some(NotImplemented)
    else if environment !in d.deployment || !d.deployment[environment] then Some(NotDeployed)
    else if scope.Some? && scope.value !in d.declaredJurisdictions then Some(NotDeclared)
    else None
  }

  /** Which breach is found: the first of the three. */
  lemma BreachIsTheFirst(d: Descriptor, environment: string, scope: Option<string>)
    ensures var breach := CeilingBreachFor(d, environment, scope);
            var deployed := environment in d.deployment && d.deployment[environment];
            && (breach == Some(NotImplemented) <==> !d.implemented)
            && (breach == Some(NotDeployed) <==> d.implemented && !deployed)
            && (breach == Some(NotDeclared)
                <==> d.implemented && deployed && scope != None && scope.value !in d.declaredJurisdictions)
  {
  }

  /** The registry's descriptor of a known capability. */
  function DescriptorFor(r: View, capability: string): Option<Descriptor> {
    if capability in r.ids && capability in r.descriptors then Some(r.descriptors[capability]) else None
  }

  /** The row's state does not exceed what its capability's code declares. */
  predicate UnderCeiling(r: View, record: Record) {
    record.state in {Available, Beta} ==>
      && record.capability in r.ids && record.capability in r.descriptors
      && var d := r.descriptors[record.capability];
         && d.implemented && record.environment in d.deployment && d.deployment[record.environment]
         && (record.scope.Some? ==> record.scope.value in d.declaredJurisdictions)
  }

  function Begin(r: View, input: Input, authorized: bool): Pc {
    if !authorized then Done(Denied)
    else if Blank(input.reason) || input.environment !in Environments || (input.scope.Some? && Blank(input.scope.value)) then
      Done(InvalidInput)
    else
      var d := DescriptorFor(r, input.capability);
      if d.None? then Done(UnknownCapability)
      else if Allowing(input.state) && CeilingBreachFor(d.value, input.environment, input.scope).Some? then Refusing
      else Reading
  }

  // ---------------------------------------------------------------------
  // The store
  // ---------------------------------------------------------------------

  predicate Matches(record: Record, environment: string, scope: Option<string>, capability: string) {
    record.environment == environment && record.scope == scope && record.capability == capability
  }

  /** orderBy updatedAt desc, id desc: a comes after b. */
  predicate After(a: Stored, b: Stored) {
    a.updatedAt < b.updatedAt || (a.updatedAt == b.updatedAt && a.record.id < b.record.id)
  }

  /** The first row in that order with exactly this scope. */
  ghost predicate IsLatest(rows: map<RowId, Stored>, environment: string, scope: Option<string>, capability: string,
      id: RowId) {
    && id in rows && Matches(rows[id].record, environment, scope, capability)
    && forall k :: k in rows && k != id && Matches(rows[k].record, environment, scope, capability) ==>
        After(rows[k], rows[id])
  }

  ghost predicate NoneMatches(rows: map<RowId, Stored>, environment: string, scope: Option<string>, capability: string) {
    forall k :: k in rows ==> !Matches(rows[k].record, environment, scope, capability)
  }

  /** findExact answers found. */
  ghost predicate Finds(rows: map<RowId, Stored>, environment: string, scope: Option<string>, capability: string,
      found: Option<RowId>) {
    match found
    case Some(id) => IsLatest(rows, environment, scope, capability, id)
    case None => NoneMatches(rows, environment, scope, capability)
  }

  function InsertedRecord(input: Input, id: RowId): Record {
    Record(id, input.environment, input.scope, input.capability, input.state, input.reason, input.actor, 1)
  }

  function UpdatedRecord(existing: Record, input: Input): Record
    requires input.expectedVersion.Some?
  {
    existing.(state := input.state, reason := input.reason, actor := input.actor, version := input.expectedVersion.value + 1)
  }

  /** The primary key, and the unique key over scoped rows. A key with a null scope
      is not unique. */
  predicate InsertWorks(rows: map<RowId, Stored>, record: Record) {
    && record.id !in rows
    && (record.scope.Some? ==>
          forall k :: k in rows ==> !Matches(rows[k].record, record.environment, record.scope, record.capability))
  }

  predicate UpdateWorks(rows: map<RowId, Stored>, id: RowId, expectedVersion: nat) {
    id in rows && rows[id].record.version == expectedVersion
  }

  // ---------------------------------------------------------------------
  // Runs
  // ---------------------------------------------------------------------

  /** works: the port did not throw. found: what findExact answers. stamp: the time
      an update is stored with. */
  datatype Step =
    | Start(call: CallId, input: Input, authorized: bool)
    | Advance(call: CallId, works: bool, found: Option<RowId>, newId: RowId, stamp: Time)

  ghost predicate Possible(s: State, step: Step) {
    step.Advance? && step.call in s.calls && s.calls[step.call].pc.Reading? ==>
      var input := s.calls[step.call].input;
      Finds(s.rows, input.environment, input.scope, input.capability, step.found)
  }

  function Apply(r: View, s: State, step: Step): State {
    match step
    case Start(call, input, authorized) =>
      if call in s.calls then s else s.(calls := s.calls[call := Call(input, Begin(r, input, authorized))])
    case Advance(call, works, found, newId, stamp) =>
      if call !in s.calls then s else Advanced(s, call, works, found, newId, stamp)
  }

  function Goto(s: State, call: CallId, pc: Pc): State
    requires call in s.calls
  {
    s.(calls := s.calls[call := s.calls[call].(pc := pc)])
  }

  function AfterReading(rows: map<RowId, Stored>, input: Input, found: Option<RowId>): Pc {
    if found.None? || found.value !in rows then Inserting
    else if input.expectedVersion.None? then Done(AlreadyExists(found.value))
    else Updating(rows[found.value].record)
  }

  function Advanced(s: State, call: CallId, works: bool, found: Option<RowId>, newId: RowId, stamp: Time): State
    requires call in s.calls
  {
    var c := s.calls[call];
    var input := c.input;
    match c.pc
    case Refusing =>
      if !works then Goto(s, call, Done(AuditAppendFailed))
      else Goto(s.(audit := s.audit + [RefusedAboveCeiling(input.actor, input.environment, input.scope,
          input.capability, input.state)]),
                call, Done(AboveCeiling))
    case Reading => Goto(s, call, if works then AfterReading(s.rows, input, found) else Done(StoreFailure))
    case Inserting =>
      var record := InsertedRecord(input, newId);
      if !works || !InsertWorks(s.rows, record) then Goto(s, call, Done(StoreFailure))
      else Goto(s.(rows := s.rows[newId := Stored(record, input.now)], writers := s.writers[newId := [call]]), call,
          Recording(record))
    case Updating(existing) =>
      if !works || input.expectedVersion.None? then Goto(s, call, Done(StoreFailure))
      else if !UpdateWorks(s.rows, existing.id, input.expectedVersion.value) then
        Goto(s, call, Done(VersionConflict(existing.id, input.expectedVersion.value)))
      else
        var record := s.rows[existing.id].record.(
          state := input.state, reason := input.reason, actor := input.actor, version := input.expectedVersion.value + 1);
        var writers := if existing.id in s.writers then s.writers[existing.id] else [];
        Goto(s.(rows := s.rows[existing.id := Stored(record, stamp)], writers := s.writers[existing.id := writers + [call]]),
             call, Recording(UpdatedRecord(existing, input)))
    case Recording(after) =>
      if !works then Goto(s, call, Done(AuditAppendFailed))
      else Goto(s.(audit := s.audit + [Changed(input.actor, after)]), call, Done(Set(after)))
    case Done(_) => s
  }

  function Run(r: View, steps: seq<Step>): State {
    if steps == [] then State(map[], [], map[], map[])
    else Apply(r, Run(r, steps[..|steps| - 1]), steps[|steps| - 1])
  }

  /** Every read of the run answered what the store held. */
  ghost predicate PossibleRun(r: View, steps: seq<Step>) {
    steps != [] ==>
      PossibleRun(r, steps[..|steps| - 1]) && Possible(Run(r, steps[..|steps| - 1]), steps[|steps| - 1])
  }

  // ---------------------------------------------------------------------
  // What every run keeps
  // ---------------------------------------------------------------------

  predicate InputUnderCeiling(r: View, input: Input) {
    Allowing(input.state) ==>
      var d := DescriptorFor(r, input.capability);
      d.Some? && CeilingBreachFor(d.value, input.environment, input.scope).None?
  }

  /** A row keeps its identity: id and scope never change after the insert. */
  predicate SameRow(a: Record, b: Record) {
    a.id == b.id && a.environment == b.environment && a.scope == b.scope && a.capability == b.capability
  }

  predicate CallHolds(r: View, s: State, id: CallId)
    requires id in s.calls
  {
    var c := s.calls[id];
    && (c.pc.Reading? || c.pc.Inserting? || c.pc.Updating? ==> InputUnderCeiling(r, c.input))
    && match c.pc
       case Updating(existing) =>
         && c.input.expectedVersion.Some? && existing.id in s.rows && SameRow(existing, s.rows[existing.id].record)
         && Matches(existing, c.input.environment, c.input.scope, c.input.capability)
       case Recording(after) => Wrote(s, id, after)
       case Done(Set(after)) => Wrote(s, id, after) && Changed(c.input.actor, after) in s.audit
       case Done(AboveCeiling) =>
         RefusedAboveCeiling(c.input.actor, c.input.environment, c.input.scope, c.input.capability, c.input.state) in s.audit
       case _ => true
  }

  /** The call wrote this version of this row, as it asked. */
  predicate Wrote(s: State, id: CallId, after: Record)
    requires id in s.calls
  {
    && after.id in s.rows && SameRow(after, s.rows[after.id].record)
    && after.id in s.writers && 1 <= after.version <= |s.writers[after.id]| && s.writers[after.id][after.version - 1] == id
    && IsAsAsked(s.calls[id].input, after)
  }

  /** The record says what was asked for, at the first version or the one after the
      version expected. */
  predicate IsAsAsked(input: Input, after: Record) {
    && after.environment == input.environment && after.scope == input.scope && after.capability == input.capability
    && after.state == input.state && after.reason == input.reason && after.actor == input.actor
    && (after.version == 1 || (input.expectedVersion.Some? && after.version == input.expectedVersion.value + 1))
  }

  predicate RowHolds(r: View, s: State, id: RowId)
    requires id in s.rows
  {
    var record := s.rows[id].record;
    && record.id == id && UnderCeiling(r, record)
    && id in s.writers && |s.writers[id]| == record.version
  }

  ghost predicate ScopedRowsUnique(s: State) {
    forall a, b :: a in s.rows && b in s.rows && a != b && s.rows[a].record.scope.Some? ==>
      !Matches(s.rows[a].record, s.rows[b].record.environment, s.rows[b].record.scope, s.rows[b].record.capability)
  }

  ghost predicate Invariant(r: View, s: State) {
    && (forall id :: id in s.rows ==> RowHolds(r, s, id))
    && (forall id :: id in s.calls ==> CallHolds(r, s, id))
    && ScopedRowsUnique(s) && s.writers.Keys == s.rows.Keys
  }

  /** Rows keep their identity and versions their writers. */
  ghost predicate Grows(s: State, t: State) {
    && (forall id :: id in s.rows ==> id in t.rows && SameRow(s.rows[id].record, t.rows[id].record))
    && (forall id :: id in s.writers ==>
          id in t.writers && |s.writers[id]| <= |t.writers[id]| && t.writers[id][..|s.writers[id]|] == s.writers[id])
    && (forall a :: a in s.audit ==> a in t.audit)
  }

  lemma WriteGrows(
    r: View, s: State, call: CallId, works: bool, found: Option<RowId>, newId: RowId, stamp: Time)
    requires Invariant(r, s) && call in s.calls && (s.calls[call].pc.Inserting? || s.calls[call].pc.Updating?)
    ensures Grows(s, Advanced(s, call, works, found, newId, stamp))
  {
    var t := Advanced(s, call, works, found, newId, stamp);
    assert CallHolds(r, s, call);
    forall id | id in s.rows ensures id in t.rows && SameRow(s.rows[id].record, t.rows[id].record) {
      assert RowHolds(r, s, id);
    }
    forall id | id in s.writers
      ensures id in t.writers && |s.writers[id]| <= |t.writers[id]| && t.writers[id][..|s.writers[id]|] == s.writers[id] {
      assert id in s.rows;
    }
  }

  lemma StepGrows(r: View, s: State, step: Step)
    requires Invariant(r, s)
    ensures Grows(s, Apply(r, s, step))
  {
    if step.Advance? && step.call in s.calls && (s.calls[step.call].pc.Inserting? || s.calls[step.call].pc.Updating?) {
      WriteGrows(r, s, step.call, step.works, step.found, step.newId, step.stamp);
    }
  }

  lemma CallStays(r: View, s: State, t: State, id: CallId)
    requires Grows(s, t) && id in s.calls && id in t.calls && s.calls[id] == t.calls[id] && CallHolds(r, s, id)
    ensures CallHolds(r, t, id)
  {
    var pc := s.calls[id].pc;
    if pc.Recording? || (pc.Done? && pc.answer.Set?) {
      var after := if pc.Recording? then pc.after else pc.answer.record;
      WroteStays(s, t, id, after);
    }
  }

  lemma WroteStays(s: State, t: State, id: CallId, after: Record)
    requires Grows(s, t) && id in s.calls && id in t.calls && s.calls[id].input == t.calls[id].input && Wrote(s, id, after)
    ensures Wrote(t, id, after)
  {
    assert t.writers[after.id][..|s.writers[after.id]|][after.version - 1] == t.writers[after.id][after.version - 1];
  }

  lemma BeginHolds(r: View, input: Input, authorized: bool)
    ensures Begin(r, input, authorized).Reading? ==> InputUnderCeiling(r, input)
    ensures !Begin(r, input, authorized).Inserting? && !Begin(r, input, authorized).Updating?
        && !Begin(r, input, authorized).Recording?
    ensures Begin(r, input, authorized).Done? ==>
              !Begin(r, input, authorized).answer.Set? && !Begin(r, input, authorized).answer.AboveCeiling?
  {
  }

  /** What an insert leaves. */
  lemma InsertKeeps(r: View, s: State, call: CallId, found: Option<RowId>, newId: RowId, stamp: Time)
    requires Invariant(r, s) && call in s.calls && s.calls[call].pc.Inserting?
    requires InsertWorks(s.rows, InsertedRecord(s.calls[call].input, newId))
    ensures var t := Advanced(s, call, true, found, newId, stamp);
            && t.rows[newId].record == InsertedRecord(s.calls[call].input, newId)
            && RowHolds(r, t, newId) && Wrote(t, call, t.rows[newId].record) && ScopedRowsUnique(t)
  {
    var t := Advanced(s, call, true, found, newId, stamp);
    assert CallHolds(r, s, call);
    var record := InsertedRecord(s.calls[call].input, newId);
    forall a, b | a in t.rows && b in t.rows && a != b && t.rows[a].record.scope.Some?
      ensures !Matches(t.rows[a].record, t.rows[b].record.environment, t.rows[b].record.scope, t.rows[b].record.capability) {
      if a == newId {
        assert !Matches(s.rows[b].record, record.environment, record.scope, record.capability);
      } else if b == newId {
        assert !Matches(s.rows[a].record, record.environment, record.scope, record.capability);
      } else {
        assert t.rows[a] == s.rows[a] && t.rows[b] == s.rows[b];
      }
    }
  }

  /** What an update leaves: the row it read the identity of, at the next version,
      exactly as it is answered. */
  lemma UpdateKeeps(r: View, s: State, call: CallId, found: Option<RowId>, newId: RowId, stamp: Time)
    requires Invariant(r, s) && call in s.calls && s.calls[call].pc.Updating? && s.calls[call].input.expectedVersion.Some?
    requires UpdateWorks(s.rows, s.calls[call].pc.existing.id, s.calls[call].input.expectedVersion.value)
    ensures var c, t := s.calls[call], Advanced(s, call, true, found, newId, stamp);
            && t.rows[c.pc.existing.id].record == UpdatedRecord(c.pc.existing, c.input)
            && RowHolds(r, t, c.pc.existing.id) && Wrote(t, call, UpdatedRecord(c.pc.existing, c.input))
                && ScopedRowsUnique(t)
  {
    var c, t := s.calls[call], Advanced(s, call, true, found, newId, stamp);
    var id := c.pc.existing.id;
    assert CallHolds(r, s, call) && RowHolds(r, s, id);
    forall a, b | a in t.rows && b in t.rows && a != b && t.rows[a].record.scope.Some?
      ensures !Matches(t.rows[a].record, t.rows[b].record.environment, t.rows[b].record.scope, t.rows[b].record.capability) {
      assert SameRow(s.rows[a].record, t.rows[a].record) && SameRow(s.rows[b].record, t.rows[b].record);
      assert !Matches(s.rows[a].record, s.rows[b].record.environment, s.rows[b].record.scope, s.rows[b].record.capability);
    }
  }

  lemma ReadKeeps(
    r: View, s: State, call: CallId, works: bool, found: Option<RowId>, newId: RowId, stamp: Time)
    requires Invariant(r, s) && call in s.calls && s.calls[call].pc.Reading?
    requires var input := s.calls[call].input; Finds(s.rows, input.environment, input.scope, input.capability, found)
    ensures CallHolds(r, Advanced(s, call, works, found, newId, stamp), call)
  {
    assert CallHolds(r, s, call);
    if found.Some? {
      assert RowHolds(r, s, found.value);
    }
  }

  lemma WriteKeepsCall(
    r: View, s: State, id: CallId, works: bool, found: Option<RowId>, newId: RowId, stamp: Time)
    requires Invariant(r, s) && id in s.calls && (s.calls[id].pc.Inserting? || s.calls[id].pc.Updating?)
    ensures CallHolds(r, Advanced(s, id, works, found, newId, stamp), id)
  {
    var c := s.calls[id];
    assert CallHolds(r, s, id);
    if works && c.pc.Inserting? && InsertWorks(s.rows, InsertedRecord(c.input, newId)) {
      InsertKeeps(r, s, id, found, newId, stamp);
    } else if works && c.pc.Updating? && UpdateWorks(s.rows, c.pc.existing.id, c.input.expectedVersion.value) {
      UpdateKeeps(r, s, id, found, newId, stamp);
    }
  }

  lemma RecordKeepsCall(
    r: View, s: State, id: CallId, works: bool, found: Option<RowId>, newId: RowId, stamp: Time)
    requires id in s.calls && (s.calls[id].pc.Recording? || s.calls[id].pc.Refusing?) && CallHolds(r, s, id)
    ensures CallHolds(r, Advanced(s, id, works, found, newId, stamp), id)
  {
    var t := Advanced(s, id, works, found, newId, stamp);
    if works {
      assert t.audit[|s.audit|] in t.audit;
    }
  }

  lemma StepKeepsCall(r: View, s: State, step: Step, id: CallId)
    requires Invariant(r, s) && Possible(s, step) && id in Apply(r, s, step).calls
    ensures CallHolds(r, Apply(r, s, step), id)
  {
    if step.Advance? && step.call == id && id in s.calls && !s.calls[id].pc.Done? {
      assert CallHolds(r, s, id);
      match s.calls[id].pc
      case Reading => ReadKeeps(r, s, id, step.works, step.found, step.newId, step.stamp);
      case Inserting => WriteKeepsCall(r, s, id, step.works, step.found, step.newId, step.stamp);
      case Updating(_) => WriteKeepsCall(r, s, id, step.works, step.found, step.newId, step.stamp);
      case Recording(_) => RecordKeepsCall(r, s, id, step.works, step.found, step.newId, step.stamp);
      case Refusing => RecordKeepsCall(r, s, id, step.works, step.found, step.newId, step.stamp);
    } else if id in s.calls {
      StepGrows(r, s, step);
      CallStays(r, s, Apply(r, s, step), id);
    } else {
      BeginHolds(r, step.input, step.authorized);
    }
  }

  lemma StepKeepsRows(r: View, s: State, step: Step)
    requires Invariant(r, s)
    ensures ScopedRowsUnique(Apply(r, s, step))
    ensures forall id :: id in Apply(r, s, step).rows ==> RowHolds(r, Apply(r, s, step), id)
    ensures Apply(r, s, step).writers.Keys == Apply(r, s, step).rows.Keys
  {
    if step.Advance? && step.call in s.calls {
      var c := s.calls[step.call];
      assert CallHolds(r, s, step.call);
      if c.pc.Inserting? && step.works && InsertWorks(s.rows, InsertedRecord(c.input, step.newId)) {
        InsertKeeps(r, s, step.call, step.found, step.newId, step.stamp);
      } else if c.pc.Updating? && step.works && UpdateWorks(s.rows, c.pc.existing.id, c.input.expectedVersion.value) {
        UpdateKeeps(r, s, step.call, step.found, step.newId, step.stamp);
      }
      forall id | id in Apply(r, s, step).rows ensures RowHolds(r, Apply(r, s, step), id) {
        assert id in s.rows ==> RowHolds(r, s, id);
      }
    }
  }

  lemma {:induction false} RunKeepsInvariant(r: View, steps: seq<Step>)
    requires PossibleRun(r, steps)
    ensures Invariant(r, Run(r, steps))
  {
    if steps != [] {
      var before, step := steps[..|steps| - 1], steps[|steps| - 1];
      RunKeepsInvariant(r, before);
      StepKeepsRows(r, Run(r, before), step);
      forall id | id in Run(r, steps).calls ensures CallHolds(r, Run(r, steps), id) {
        StepKeepsCall(r, Run(r, before), step, id);
      }
    }
  }

  // ---------------------------------------------------------------------
  // The ceiling holds
  // ---------------------------------------------------------------------

  /** Over every interleaving, a stored allowing row is for implemented code deployed
      in its environment and, if scoped, declared for its jurisdiction. */
  lemma StoredRowsAreUnderTheCeiling(r: View, steps: seq<Step>, id: RowId)
    requires PossibleRun(r, steps) && id in Run(r, steps).rows
    ensures UnderCeiling(r, Run(r, steps).rows[id].record)
  {
    RunKeepsInvariant(r, steps);
    assert RowHolds(r, Run(r, steps), id);
  }

  /** A request for an allowing state is refused exactly when it would break the
      ceiling, and then nothing is stored and the refusal is on record. */
  lemma RefusedExactlyAboveCeiling(r: View, input: Input, id: RowId)
    requires !Blank(input.reason) && input.environment in Environments && (input.scope.Some? ==> !Blank(input.scope.value))
    requires DescriptorFor(r, input.capability).Some?
    ensures var asked := Record(id, input.environment, input.scope, input.capability, input.state, input.reason,
        input.actor, 1);
            && (Begin(r, input, true) == Refusing <==> !UnderCeiling(r, asked))
            && (Begin(r, input, true) == Reading <==> UnderCeiling(r, asked))
  {
  }

  // ---------------------------------------------------------------------
  // What is written and answered, exactly
  // ---------------------------------------------------------------------

  /** A call told that it set a row is told the row it asked for, and that row was stored
      by this call and is on record. */
  lemma StoredAnswersAreAsAsked(r: View, steps: seq<Step>, id: CallId)
    requires PossibleRun(r, steps)
    requires id in Run(r, steps).calls && Run(r, steps).calls[id].pc.Done? && Run(r, steps).calls[id].pc.answer.Set?
    ensures var s := Run(r, steps);
            var input, after := s.calls[id].input, s.calls[id].pc.answer.record;
            && IsAsAsked(input, after) && Changed(input.actor, after) in s.audit
            && after.id in s.writers && 1 <= after.version <= |s.writers[after.id]|
            && s.writers[after.id][after.version - 1] == id
  {
    RunKeepsInvariant(r, steps);
    assert CallHolds(r, Run(r, steps), id);
  }

  /** The step stores this one row for this call, and changes no other. */
  predicate Stores(s: State, t: State, call: CallId, record: Record, stamp: Time)
    requires call in s.calls
  {
    && t.rows == s.rows[record.id := Stored(record, stamp)] && IsAsAsked(s.calls[call].input, record)
    && t.calls == s.calls[call := Call(s.calls[call].input, Recording(record))]
  }

  /** Rows change only by an insert under an unused id, which no row of the same
      jurisdiction precedes, or by an update of the row read, still at the version
      expected; and then to exactly what the call asked for. */
  lemma RowsChangeExactly(r: View, s: State, step: Step)
    requires Invariant(r, s) && Apply(r, s, step).rows != s.rows
    ensures step.Advance? && step.works && step.call in s.calls
    ensures var c, t := s.calls[step.call], Apply(r, s, step);
            && (c.pc.Inserting? || c.pc.Updating?)
            && (c.pc.Inserting? ==>
                  && step.newId !in s.rows && step.newId in t.rows && t.rows[step.newId].record.version == 1
                  && t.rows[step.newId].record.id == step.newId
                  && Stores(s, t, step.call, t.rows[step.newId].record, c.input.now)
                  && (c.input.scope != None ==> NoneMatches(s.rows, c.input.environment, c.input.scope, c.input.capability)))
            && (c.pc.Updating? ==>
                  && var id := c.pc.existing.id;
                  && id in s.rows && c.input.expectedVersion == Some(s.rows[id].record.version)
                  && t.rows[id].record.version == s.rows[id].record.version + 1
                  && t.rows[id].record.id == id && Stores(s, t, step.call, t.rows[id].record, step.stamp))
  {
    var c := s.calls[step.call];
    assert CallHolds(r, s, step.call);
    if c.pc.Updating? {
      assert RowHolds(r, s, c.pc.existing.id);
    }
  }

  /** The call the port call leaves, for each position. */
  lemma PortCallsLeadOn(r: View, s: State, step: Step)
    requires Invariant(r, s) && step.Advance? && step.call in s.calls
    ensures var c, pc := s.calls[step.call], Apply(r, s, step).calls[step.call].pc;
            match c.pc
            case Refusing => pc == Done(if step.works then AboveCeiling else AuditAppendFailed)
            case Reading =>
              if !step.works then pc == Done(StoreFailure)
              else if step.found == None || step.found.value !in s.rows then pc == Inserting
              else if c.input.expectedVersion == None then pc == Done(AlreadyExists(step.found.value))
              else pc == Updating(s.rows[step.found.value].record)
            case Inserting =>
              if Apply(r, s, step).rows == s.rows then
                && pc == Done(StoreFailure)
                && (step.works ==>
                      step.newId in s.rows
                      || (c.input.scope != None && !NoneMatches(s.rows, c.input.environment, c.input.scope,
                          c.input.capability)))
              else pc.Recording?
            case Updating(existing) =>
              if !step.works then pc == Done(StoreFailure)
              else if c.input.expectedVersion != Some(s.rows[existing.id].record.version) then
                c.input.expectedVersion.Some? && pc == Done(VersionConflict(existing.id, c.input.expectedVersion.value))
              else pc.Recording?
            case Recording(after) => pc == Done(if step.works then Answer.Set(after) else AuditAppendFailed)
            case Done(answer) => pc == Done(answer)
  {
    assert CallHolds(r, s, step.call);
  }

  /** The audit grows by exactly the record of the position left, and only by it. */
  lemma RecordsAreExact(r: View, s: State, step: Step)
    ensures Apply(r, s, step).audit
         == if !step.Advance? || step.call !in s.calls || !step.works then s.audit
            else
              var c := s.calls[step.call];
              match c.pc
              case Refusing =>
                s.audit + [RefusedAboveCeiling(c.input.actor, c.input.environment, c.input.scope, c.input.capability,
                    c.input.state)]
              case Recording(after) => s.audit + [Changed(c.input.actor, after)]
              case _ => s.audit
  {
  }

  /** A call is turned away before anything is read for the first of these it meets. */
  lemma TurnedAwayExactly(r: View, s: State, call: CallId, input: Input, authorized: bool)
    requires call !in s.calls
    ensures var pc := Apply(r, s, Start(call, input, authorized)).calls[call].pc;
            if !authorized then pc == Done(Denied)
            else if || Trim(input.reason) == "" || input.environment !in {"local", "dev", "staging", "production"}
                    || (input.scope.Some? && Trim(input.scope.value) == "") then
              pc == Done(InvalidInput)
            else if input.capability !in r.ids || input.capability !in r.descriptors then pc == Done(UnknownCapability)
            else
              var d := r.descriptors[input.capability];
              if && input.state in {Available, Beta}
                 && !(&& d.implemented && input.environment in d.deployment && d.deployment[input.environment]
                      && (input.scope == None || input.scope.value in d.declaredJurisdictions)) then
                pc == Refusing
              else pc == Reading
  {
    BlankTrimsToNothing(input.reason);
    if input.scope.Some? {
      BlankTrimsToNothing(input.scope.value);
    }
  }

  /** Each version of a row has one author: two calls told they set the same version
      of the same row are one call. */
  lemma VersionsHaveOneAuthor(r: View, steps: seq<Step>, a: CallId, b: CallId)
    requires PossibleRun(r, steps)
    requires var calls := Run(r, steps).calls;
             && a in calls && b in calls
             && calls[a].pc.Done? && calls[a].pc.answer.Set? && calls[b].pc.Done? && calls[b].pc.answer.Set?
             && calls[a].pc.answer.record.id == calls[b].pc.answer.record.id
             && calls[a].pc.answer.record.version == calls[b].pc.answer.record.version
    ensures a == b
  {
    RunKeepsInvariant(r, steps);
    SameVersionSameCall(r, Run(r, steps), a, b);
  }

  lemma SameVersionSameCall(r: View, s: State, a: CallId, b: CallId)
    requires Invariant(r, s) && a in s.calls && b in s.calls
    requires s.calls[a].pc.Done? && s.calls[a].pc.answer.Set? && s.calls[b].pc.Done? && s.calls[b].pc.answer.Set?
    requires s.calls[a].pc.answer.record.id == s.calls[b].pc.answer.record.id
    requires s.calls[a].pc.answer.record.version == s.calls[b].pc.answer.record.version
    ensures a == b
  {
    assert CallHolds(r, s, a) && CallHolds(r, s, b);
  }

  /** A call told ABOVE_CEILING is on record as refused, and never wrote. */
  lemma {:induction false} RefusedCallsWroteNothing(r: View, steps: seq<Step>, id: CallId)
    requires var calls := Run(r, steps).calls;
             id in calls && (calls[id].pc.Refusing? || calls[id].pc == Done(AboveCeiling))
    ensures var s := Run(r, steps);
            forall k :: k in s.writers ==> id !in s.writers[k]
  {
    if steps != [] {
      var before, step := steps[..|steps| - 1], steps[|steps| - 1];
      WritersGrowByWriting(r, Run(r, before), step, id);
      if id in Run(r, before).calls {
        RefusedCallsWroteNothing(r, before, id);
      } else {
        UnknownCallsWroteNothing(r, before, id);
      }
    }
  }

  /** A step makes a call a writer only from a writing position, which it leaves
      for the recording one or fails. */
  lemma WritersGrowByWriting(r: View, s: State, step: Step, id: CallId)
    requires id in Apply(r, s, step).calls
    requires Apply(r, s, step).calls[id].pc.Refusing? || Apply(r, s, step).calls[id].pc == Done(AboveCeiling)
    ensures id in s.calls ==> s.calls[id].pc.Refusing? || s.calls[id].pc == Done(AboveCeiling)
    ensures (forall k :: k in s.writers ==> id !in s.writers[k]) ==>
              forall k :: k in Apply(r, s, step).writers ==> id !in Apply(r, s, step).writers[k]
  {
  }

  lemma {:induction false} UnknownCallsWroteNothing(r: View, steps: seq<Step>, id: CallId)
    requires id !in Run(r, steps).calls
    ensures var s := Run(r, steps);
            forall k :: k in s.writers ==> id !in s.writers[k]
  {
    if steps != [] {
      UnknownCallsWroteNothing(r, steps[..|steps| - 1], id);
    }
  }

  // ---------------------------------------------------------------------
  // What the resolver reads
  // ---------------------------------------------------------------------

  /** factsFor reads row id: the jurisdiction's own row before the environment's, the
      latest written first. */
  ghost predicate Effective(rows: map<RowId, Stored>, environment: string, scope: Option<string>, capability: string,
      id: RowId) {
    if scope.Some? && !NoneMatches(rows, environment, scope, capability)
    then IsLatest(rows, environment, scope, capability, id)
    else IsLatest(rows, environment, None, capability, id)
  }

  /** What factsFor answers for a scope. text: how a row id reads. */
  ghost predicate FactsAre(
    rows: map<RowId, Stored>, environment: string, scope: Option<string>, capability: string, text: RowId -> string,
    facts: CapabilityResolution.Availability)
  {
    if HasEffective(rows, environment, scope, capability) then
      exists id :: && Effective(rows, environment, scope, capability, id)
                   && facts == Row(text(id), rows[id].record.state, rows[id].record.version)
    else
      facts == NoRow(exists k :: && k in rows && rows[k].record.capability == capability
                                 && rows[k].record.environment != environment)
  }

  ghost predicate HasEffective(rows: map<RowId, Stored>, environment: string, scope: Option<string>, capability: string) {
    !NoneMatches(rows, environment, None, capability) || (scope.Some? && !NoneMatches(rows, environment, scope, capability))
  }

  lemma {:induction false} LatestExists(
    rows: map<RowId, Stored>, ids: set<RowId>, environment: string, scope: Option<string>, capability: string)
        returns (id: RowId)
    requires ids <= rows.Keys && (forall k :: k in rows ==> rows[k].record.id == k)
    requires exists k :: k in ids && Matches(rows[k].record, environment, scope, capability)
    ensures id in ids && Matches(rows[id].record, environment, scope, capability)
    ensures forall k :: k in ids && k != id && Matches(rows[k].record, environment, scope, capability) ==>
        After(rows[k], rows[id])
    decreases ids
  {
    var k :| k in ids && Matches(rows[k].record, environment, scope, capability);
    var rest := ids - {k};
    if j :| j in rest && Matches(rows[j].record, environment, scope, capability) {
      var best := LatestExists(rows, rest, environment, scope, capability);
      id := if After(rows[k], rows[best]) then best else k;
    } else {
      id := k;
    }
  }

  /** Exactly one row is effective whenever any applies, so resolution does not depend
      on the order rows are stored in, duplicates included. */
  lemma EffectiveRowIsUnique(r: View, steps: seq<Step>, environment: string, scope: Option<string>, capability: string)
    returns (id: RowId)
    requires PossibleRun(r, steps) && HasEffective(Run(r, steps).rows, environment, scope, capability)
    ensures Effective(Run(r, steps).rows, environment, scope, capability, id)
    ensures forall k :: Effective(Run(r, steps).rows, environment, scope, capability, k) ==> k == id
  {
    RunKeepsInvariant(r, steps);
    var rows := Run(r, steps).rows;
    assert forall k :: k in rows ==> RowHolds(r, Run(r, steps), k);
    if scope.Some? && !NoneMatches(rows, environment, scope, capability) {
      id := LatestExists(rows, rows.Keys, environment, scope, capability);
    } else {
      id := LatestExists(rows, rows.Keys, environment, None, capability);
    }
  }

  /** Beside an effective allowing row the resolver never denies for missing or
      undeployed code, nor for another environment; and a row of the governing
      jurisdiction is for declared code. */
  lemma AllowingRowNeverDeniedAtDescriptor(r: View, steps: seq<Step>, x: Inputs, scope: Option<string>, id: RowId, at: Time)
    requires PossibleRun(r, steps)
    requires Effective(Run(r, steps).rows, x.environment, scope, x.capability, id)
    requires x.capability in r.descriptors && x.descriptor == DescriptorFactsFor(r.descriptors[x.capability], x.environment)
    requires x.availability.Row? && x.availability.state == Run(r, steps).rows[id].record.state
        && Allowing(x.availability.state)
    ensures Resolve(x, at).DeniedAt? ==> Resolve(x, at).gate != DESCRIPTOR && Resolve(x, at).gate != ENVIRONMENT
    ensures Resolve(x, at).DeniedAt? ==> Resolve(x, at).gate != AVAILABILITY
    ensures var row := Run(r, steps).rows[id].record;
            row.scope.Some? ==> row.scope == scope && row.scope.value in x.descriptor.declaredScopes
  {
    StoredRowsAreUnderTheCeiling(r, steps, id);
    ResolutionIsTheMeetOfTheGates(x, at);
    assert Passes(DESCRIPTOR, x, at) && Passes(ENVIRONMENT, x, at) && Passes(AVAILABILITY, x, at);
  }

  // ---------------------------------------------------------------------
  // How many rows one scope has
  // ---------------------------------------------------------------------

  /** A jurisdiction has at most one row per environment and capability. */
  lemma ScopedRowIsUnique(r: View, steps: seq<Step>, a: RowId, b: RowId)
    requires PossibleRun(r, steps)
    requires var rows := Run(r, steps).rows;
             && a in rows && b in rows && rows[a].record.scope.Some?
             && Matches(rows[a].record, rows[b].record.environment, rows[b].record.scope, rows[b].record.capability)
    ensures a == b
  {
    RunKeepsInvariant(r, steps);
  }

  predicate SameScope(rows: map<RowId, Stored>, a: RowId, b: RowId)
    requires a in rows && b in rows
  {
    Matches(rows[a].record, rows[b].record.environment, rows[b].record.scope, rows[b].record.capability)
  }

  ghost predicate AllScopesUnique(rows: map<RowId, Stored>) {
    forall a, b :: a in rows && b in rows && a != b ==> !SameScope(rows, a, b)
  }

  /** The step stores an environment-wide row under this key. */
  predicate InsertsFor(s: State, step: Step, environment: string, capability: string) {
    && step.Advance? && step.works && step.call in s.calls && s.calls[step.call].pc.Inserting? && step.newId !in s.rows
    && s.calls[step.call].input.scope.None? && s.calls[step.call].input.environment == environment
    && s.calls[step.call].input.capability == capability
  }

  /** A step makes a second row of a scope exactly by storing an environment-wide one
      beside another. */
  lemma SecondRowExactly(r: View, s: State, step: Step)
    requires Invariant(r, s) && AllScopesUnique(s.rows)
    ensures !AllScopesUnique(Apply(r, s, step).rows)
       <==> exists environment, capability ::
              InsertsFor(s, step, environment, capability) && !NoneMatches(s.rows, environment, None, capability)
  {
    var t := Apply(r, s, step);
    if step.Advance? && step.call in s.calls {
      assert CallHolds(r, s, step.call);
      var c := s.calls[step.call];
      if c.pc.Inserting? && step.works && InsertWorks(s.rows, InsertedRecord(c.input, step.newId)) {
        if k :| && k in s.rows && c.input.scope.None?
                && Matches(s.rows[k].record, c.input.environment, None, c.input.capability) {
          assert SameScope(t.rows, k, step.newId);
          assert InsertsFor(s, step, c.input.environment, c.input.capability);
        }
        if a, b :| a in t.rows && b in t.rows && a != b && SameScope(t.rows, a, b) {
          assert a in s.rows && b in s.rows ==> !SameScope(s.rows, a, b);
        }
      } else {
        StepGrows(r, s, step);
        assert t.rows.Keys == s.rows.Keys;
        forall a, b | a in t.rows && b in t.rows && a != b ensures !SameScope(t.rows, a, b) {
          assert !SameScope(s.rows, a, b);
        }
      }
    }
  }

  lemma {:induction false} RunAppends(r: View, steps: seq<Step>, step: Step)
    ensures Run(r, steps + [step]) == Apply(r, Run(r, steps), step)
    ensures PossibleRun(r, steps + [step]) <==> PossibleRun(r, steps) && Possible(Run(r, steps), step)
  {
    assert (steps + [step])[..|steps|] == steps;
  }

  /** Since the n-th step the call has been about to insert, having read at that step
      that its scope had no row. */
  ghost predicate InsertingSince(r: View, steps: seq<Step>, n: nat, call: CallId) {
    && 0 < n <= |steps| && steps[n - 1].Advance? && steps[n - 1].call == call
    && (forall m :: n <= m <= |steps| ==> IsInserting(Run(r, steps[..m]), call))
    && var s := Run(r, steps[..n]);
       call in s.calls && NoneMatches(s.rows, s.calls[call].input.environment, s.calls[call].input.scope,
           s.calls[call].input.capability)
  }

  predicate IsInserting(s: State, call: CallId) {
    call in s.calls && s.calls[call].pc.Inserting?
  }

  /** Every call about to insert has read that there was nothing. */
  lemma {:induction false} InsertingHasRead(r: View, steps: seq<Step>, call: CallId) returns (n: nat)
    requires PossibleRun(r, steps) && IsInserting(Run(r, steps), call)
    ensures InsertingSince(r, steps, n, call)
  {
    var before, step := steps[..|steps| - 1], steps[|steps| - 1];
    assert steps == before + [step];
    RunAppends(r, before, step);
    if IsInserting(Run(r, before), call) {
      n := InsertingHasRead(r, before, call);
      StillInserting(r, before, step, n, call);
    } else {
      n := |steps|;
      assert steps[..n] == steps;
      BecomesInserting(r, Run(r, before), step, call);
    }
  }

  lemma StillInserting(r: View, before: seq<Step>, step: Step, n: nat, call: CallId)
    requires InsertingSince(r, before, n, call) && IsInserting(Run(r, before + [step]), call)
    ensures InsertingSince(r, before + [step], n, call)
  {
    var steps := before + [step];
    assert steps[..n] == before[..n] && steps[..|steps|] == steps;
    forall m | n <= m <= |steps| ensures IsInserting(Run(r, steps[..m]), call) {
      if m < |steps| {
        assert steps[..m] == before[..m];
      }
    }
  }

  lemma BecomesInserting(r: View, s: State, step: Step, call: CallId)
    requires Possible(s, step) && !IsInserting(s, call) && IsInserting(Apply(r, s, step), call)
    ensures step.Advance? && step.call == call
    ensures var t := Apply(r, s, step);
            var input := t.calls[call].input;
            NoneMatches(t.rows, input.environment, input.scope, input.capability)
  {
  }

  /** Rows stored at a step of the run are still there, under the same identity. */
  lemma {:induction false} RowsStay(r: View, steps: seq<Step>, n: nat)
    requires PossibleRun(r, steps) && n <= |steps|
    ensures var u, v := Run(r, steps[..n]).rows, Run(r, steps).rows;
            forall k :: k in u ==> k in v && SameRow(u[k].record, v[k].record)
  {
    if n == |steps| {
      assert steps[..n] == steps;
    } else {
      var before := steps[..|steps| - 1];
      RowsStay(r, before, n);
      assert before[..n] == steps[..n];
      RunKeepsInvariant(r, before);
      StepGrows(r, Run(r, before), steps[|steps| - 1]);
    }
  }

  lemma {:induction false} PrefixIsPossible(r: View, steps: seq<Step>, n: nat)
    requires PossibleRun(r, steps) && n <= |steps|
    ensures PossibleRun(r, steps[..n])
  {
    if n == |steps| {
      assert steps[..n] == steps;
    } else {
      PrefixIsPossible(r, steps[..|steps| - 1], n);
      assert steps[..|steps| - 1][..n] == steps[..n];
    }
  }

  /** The m-th step stores an environment-wide row although row k of its key was stored
      after its call had read, at step n, that there was none. */
  ghost predicate InsertsAfterAnother(r: View, steps: seq<Step>, n: nat, m: nat, k: RowId) {
    && n <= m < |steps|
    && var s := Run(r, steps[..m]);
       exists environment, capability ::
         && InsertsFor(s, steps[m], environment, capability) && InsertingSince(r, steps[..m], n, steps[m].call)
         && k !in Run(r, steps[..n]).rows && k in s.rows && Matches(s.rows[k].record, environment, None, capability)
  }

  /** A step that finds a row of its key beside it stored it after its own read. */
  lemma FoundWasStoredSince(r: View, steps: seq<Step>, m: nat, environment: string, capability: string, k: RowId)
      returns (n: nat)
    requires m < |steps| && PossibleRun(r, steps[..m])
    requires var s := Run(r, steps[..m]);
             && InsertsFor(s, steps[m], environment, capability)
             && k in s.rows && Matches(s.rows[k].record, environment, None, capability)
    ensures InsertsAfterAnother(r, steps, n, m, k)
  {
    var before := steps[..m];
    n := InsertingHasRead(r, before, steps[m].call);
    InputStays(r, before, n, steps[m].call);
    RowsStay(r, before, n);
    assert before[..n] == steps[..n];
  }

  /** Over every run: some scope has two rows exactly when some environment-wide row was
      stored between another call's read that found none and that call's insert. */
  lemma {:induction false} DuplicateRowExactly(r: View, steps: seq<Step>)
    requires PossibleRun(r, steps)
    ensures !AllScopesUnique(Run(r, steps).rows) <==> exists n, m, k :: InsertsAfterAnother(r, steps, n, m, k)
  {
    if !AllScopesUnique(Run(r, steps).rows) {
      var n, m, k := DuplicateWasInserted(r, steps);
    }
    if n, m, k :| InsertsAfterAnother(r, steps, n, m, k) {
      InsertedStaysDuplicate(r, steps, n, m, k);
    }
  }

  lemma {:induction false} DuplicateWasInserted(r: View, steps: seq<Step>) returns (n: nat, m: nat, k: RowId)
    requires PossibleRun(r, steps) && !AllScopesUnique(Run(r, steps).rows)
    ensures InsertsAfterAnother(r, steps, n, m, k)
  {
    assert steps != [];
    var before, step := steps[..|steps| - 1], steps[|steps| - 1];
    var s := Run(r, before);
    if !AllScopesUnique(s.rows) {
      n, m, k := DuplicateWasInserted(r, before);
      assert before[..m] == steps[..m] && before[..n] == steps[..n];
    } else {
      RunKeepsInvariant(r, before);
      SecondRowExactly(r, s, step);
      var environment, capability :|
        InsertsFor(s, step, environment, capability) && !NoneMatches(s.rows, environment, None, capability);
      k :| k in s.rows && Matches(s.rows[k].record, environment, None, capability);
      m := |before|;
      n := FoundWasStoredSince(r, steps, m, environment, capability, k);
    }
  }

  lemma InsertedStaysDuplicate(r: View, steps: seq<Step>, n: nat, m: nat, k: RowId)
    requires PossibleRun(r, steps) && InsertsAfterAnother(r, steps, n, m, k)
    ensures !AllScopesUnique(Run(r, steps).rows)
  {
    var s, id := Run(r, steps[..m]), steps[m].newId;
    assert steps[..m + 1] == steps[..m] + [steps[m]];
    RunAppends(r, steps[..m], steps[m]);
    var t := Run(r, steps[..m + 1]);
    assert id in t.rows && k in t.rows && id != k && SameScope(t.rows, k, id);
    RowsStay(r, steps, m + 1);
    assert SameScope(Run(r, steps).rows, k, id);
  }

  /** At no moment are two calls both between a read that found no environment-wide row
      of a key and their insert of it. */
  ghost predicate WritersTakeTurns(r: View, steps: seq<Step>) {
    forall m, a, b :: 0 <= m <= |steps| && a != b ==> !BothInserting(Run(r, steps[..m]), a, b)
  }

  predicate BothInserting(s: State, a: CallId, b: CallId) {
    IsInserting(s, a) && IsInserting(s, b) && SameKey(s.calls[a].input, s.calls[b].input)
  }

  predicate SameKey(a: Input, b: Input) {
    a.scope.None? && b.scope.None? && a.environment == b.environment && a.capability == b.capability
  }

  /** A row that appeared in the run was stored by some call's insert. */
  lemma {:induction false} RowWasInserted(r: View, steps: seq<Step>, n: nat, k: RowId, environment: string,
      capability: string)
    returns (j: nat)
    requires PossibleRun(r, steps) && n <= |steps|
    requires k !in Run(r, steps[..n]).rows && k in Run(r, steps).rows
    requires Matches(Run(r, steps).rows[k].record, environment, None, capability)
    ensures n <= j < |steps| && InsertsFor(Run(r, steps[..j]), steps[j], environment, capability)
  {
    assert steps[..|steps|] == steps;
    var before, step := steps[..|steps| - 1], steps[|steps| - 1];
    assert before[..n] == steps[..n];
    RunKeepsInvariant(r, before);
    StepGrows(r, Run(r, before), step);
    if k in Run(r, before).rows {
      j := RowWasInserted(r, before, n, k, environment, capability);
      assert before[..j] == steps[..j];
    } else {
      j := |before|;
      NewRowIsInserted(r, Run(r, before), step, k);
    }
  }

  lemma NewRowIsInserted(r: View, s: State, step: Step, k: RowId)
    requires Invariant(r, s) && k !in s.rows && k in Apply(r, s, step).rows
    ensures step.Advance? && step.works && step.call in s.calls && s.calls[step.call].pc.Inserting? && step.newId == k
    ensures Apply(r, s, step).rows[k].record == InsertedRecord(s.calls[step.call].input, k)
  {
    if step.Advance? && step.call in s.calls {
      assert CallHolds(r, s, step.call);
    }
  }

  /** Writers of environment-wide rows that take turns never leave two of a kind. */
  lemma TurnsKeepScopesUnique(r: View, steps: seq<Step>)
    requires PossibleRun(r, steps) && WritersTakeTurns(r, steps)
    ensures AllScopesUnique(Run(r, steps).rows)
  {
    if !AllScopesUnique(Run(r, steps).rows) {
      var n, m, k := DuplicateWasInserted(r, steps);
      PrefixIsPossible(r, steps, m);
      LateInsertOverlaps(r, steps, n, m, k);
    }
  }

  /** An insert after another's is two calls between read and insert at once. */
  lemma LateInsertOverlaps(r: View, steps: seq<Step>, n: nat, m: nat, k: RowId)
    requires InsertsAfterAnother(r, steps, n, m, k) && PossibleRun(r, steps[..m])
    ensures !WritersTakeTurns(r, steps)
  {
    var before, a := steps[..m], steps[m].call;
    var environment, capability :|
      && InsertsFor(Run(r, before), steps[m], environment, capability) && InsertingSince(r, before, n, a)
      && k !in Run(r, steps[..n]).rows && k in Run(r, before).rows
      && Matches(Run(r, before).rows[k].record, environment, None, capability);
    assert before[..n] == steps[..n];
    var j := RowWasInserted(r, before, n, k, environment, capability);
    var b := before[j].call;
    InsertLeaves(r, before, j, a, b);
    InputStays(r, before, j, a);
    assert before[..j] == steps[..j];
    assert BothInserting(Run(r, steps[..j]), a, b);
  }

  /** A call that inserts is not about to afterwards. */
  lemma InsertLeaves(r: View, steps: seq<Step>, j: nat, a: CallId, b: CallId)
    requires j < |steps| && steps[j].Advance? && steps[j].call == b && IsInserting(Run(r, steps[..j]), b)
    requires IsInserting(Run(r, steps[..j + 1]), a)
    ensures a != b
  {
    assert steps[..j + 1] == steps[..j] + [steps[j]];
    RunAppends(r, steps[..j], steps[j]);
  }

  lemma CallKeepsInput(r: View, s: State, step: Step, call: CallId)
    requires call in s.calls
    ensures call in Apply(r, s, step).calls && Apply(r, s, step).calls[call].input == s.calls[call].input
  {
  }

  lemma {:induction false} InputStays(r: View, steps: seq<Step>, j: nat, call: CallId)
    requires j <= |steps| && call in Run(r, steps[..j]).calls
    ensures call in Run(r, steps).calls && Run(r, steps).calls[call].input == Run(r, steps[..j]).calls[call].input
  {
    if j == |steps| {
      assert steps[..j] == steps;
    } else {
      var before := steps[..|steps| - 1];
      assert before[..j] == steps[..j];
      InputStays(r, before, j, call);
      CallKeepsInput(r, Run(r, before), steps[|steps| - 1], call);
    }
  }

  /** Two calls that both read before either inserts leave two environment-wide rows. */
  lemma TwoWritersDuplicateARow(r: View, capability: string)
    requires capability in r.ids && capability in r.descriptors
    ensures exists steps :: PossibleRun(r, steps) && !AllScopesUnique(Run(r, steps).rows)
  {
    var input := Input("local", None, capability, Disabled, "r", "a", None, 0);
    assert input.reason[0] == 'r';
    assert Begin(r, input, true) == Reading;
    var starts := BothStarted(r, input);
    var readBoth := BothRead(r, input, starts);
    RunAppends(r, readBoth, Advance(1, true, None, 11, 0));
    var one := readBoth + [Advance(1, true, None, 11, 0)];
    assert Run(r, one).rows == map[11 := Stored(InsertedRecord(input, 11), 0)];
    assert Run(r, one).calls[2] == Call(input, Inserting);
    RunAppends(r, one, Advance(2, true, None, 12, 0));
    var two := one + [Advance(2, true, None, 12, 0)];
    assert Run(r, two).rows == map[11 := Stored(InsertedRecord(input, 11), 0), 12 := Stored(InsertedRecord(input, 12), 0)];
    assert SameScope(Run(r, two).rows, 11, 12);
  }

  lemma BothStarted(r: View, input: Input) returns (steps: seq<Step>)
    requires Begin(r, input, true) == Reading
    ensures PossibleRun(r, steps) && Run(r, steps) == State(map[], [],
        map[1 := Call(input, Reading), 2 := Call(input, Reading)], map[])
  {
    RunAppends(r, [], Start(1, input, true));
    RunAppends(r, [] + [Start(1, input, true)], Start(2, input, true));
    steps := [] + [Start(1, input, true)] + [Start(2, input, true)];
  }

  lemma BothRead(r: View, input: Input, starts: seq<Step>) returns (steps: seq<Step>)
    requires PossibleRun(r, starts)
    requires Run(r, starts) == State(map[], [], map[1 := Call(input, Reading), 2 := Call(input, Reading)], map[])
    ensures PossibleRun(r, steps) && Run(r, steps) == State(map[], [],
        map[1 := Call(input, Inserting), 2 := Call(input, Inserting)], map[])
  {
    var first := Advance(1, true, None, 0, 0);
    RunAppends(r, starts, first);
    RunAppends(r, starts + [first], Advance(2, true, None, 0, 0));
    steps := starts + [first] + [Advance(2, true, None, 0, 0)];
  }

  // ---------------------------------------------------------------------
  // The use case, over a store others write to
  // ---------------------------------------------------------------------

  class Service {
    const registry: View
    const me: CallId
    const input: Input
    const foreign: nat -> seq<Step>
    const works: nat -> bool
    const nextId: nat -> RowId
    const stamp: nat -> Time
    ghost var steps: seq<Step>
    var state: State
    var portCalls: nat

    constructor (
      registry: View, me: CallId, input: Input, foreign: nat -> seq<Step>, works: nat -> bool, nextId: nat -> RowId,
          stamp: nat -> Time)
      ensures Valid() && me !in state.calls && this.registry == registry && this.me == me && this.input == input
      ensures this.foreign == foreign && this.works == works && this.nextId == nextId && this.stamp == stamp
    {
      this.registry, this.me, this.input := registry, me, input;
      this.foreign, this.works, this.nextId, this.stamp := foreign, works, nextId, stamp;
      steps, state, portCalls := [], State(map[], [], map[], map[]), 0;
    }

    ghost predicate Valid()
      reads this
    {
      PossibleRun(registry, steps) && state == Run(registry, steps)
    }

    ghost predicate At(pc: Pc)
      reads this
    {
      Valid() && me in state.calls && state.calls[me] == Call(input, pc)
    }

    method Take(step: Step)
      requires Valid() && Possible(state, step)
      modifies this`steps, this`state
      ensures Valid() && state == Apply(registry, old(state), step)
    {
      RunAppends(registry, steps, step);
      steps := steps + [step];
      state := Apply(registry, state, step);
    }

    /** The first row of the scope in the store's order. */
    method FindFirst(environment: string, scope: Option<string>, capability: string) returns (found: Option<RowId>)
      requires Valid()
      ensures Finds(state.rows, environment, scope, capability, found)
    {
      RunKeepsInvariant(registry, steps);
      assert forall k :: k in state.rows ==> RowHolds(registry, state, k);
      found := None;
      var ids := state.rows.Keys;
      while ids != {}
        invariant ids <= state.rows.Keys
        invariant match found
                  case None =>
                    forall k :: k in state.rows && k !in ids ==>
                      !Matches(state.rows[k].record, environment, scope, capability)
                  case Some(best) =>
                    && best in state.rows && Matches(state.rows[best].record, environment, scope, capability)
                    && forall k :: k in state.rows && k !in ids && k != best ==>
                         Matches(state.rows[k].record, environment, scope, capability) ==>
                             After(state.rows[k], state.rows[best])
        decreases ids
      {
        var id :| id in ids;
        if Matches(state.rows[id].record, environment, scope, capability)
           && (found.None? || After(state.rows[found.value], state.rows[id])) {
          found := Some(id);
        }
        ids := ids - {id};
      }
    }

    /** Another call's step; a read of its answers what is stored. */
    method TakeForeign(step: Step)
      requires Valid() && me in state.calls && step.call != me
      modifies this`steps, this`state
      ensures Valid() && me in state.calls && state.calls[me] == old(state.calls[me])
    {
      if step.Advance? && step.call in state.calls {
        var request := state.calls[step.call].input;
        var found := FindFirst(request.environment, request.scope, request.capability);
        Take(step.(found := found));
      } else {
        Take(step);
      }
    }

    /** What others do before the next port call. */
    method Interleave()
      requires Valid() && me in state.calls
      modifies this`steps, this`state
      ensures Valid() && me in state.calls && state.calls[me] == old(state.calls[me])
    {
      var others := foreign(portCalls);
      for i := 0 to |others|
        invariant Valid() && me in state.calls && state.calls[me] == old(state.calls[me])
      {
        if others[i].call != me {
          TakeForeign(others[i]);
        }
      }
    }

    /** Err is the store's throw. */
    method FindExact() returns (existing: Result<Option<Record>, ()>)
      requires At(Reading)
      modifies this
      ensures existing.Err? ==> At(Done(StoreFailure))
      ensures existing == Ok(None) ==> At(Inserting)
      ensures existing.Ok? && existing.value.Some? ==>
                At(if input.expectedVersion.None? then Done(AlreadyExists(existing.value.value.id)) else Updating(existing.value.value))
    {
      Interleave();
      RunKeepsInvariant(registry, steps);
      var found := FindFirst(input.environment, input.scope, input.capability);
      var ok := works(portCalls);
      if !ok {
        existing := Err(());
      } else if found.None? {
        existing := Ok(None);
      } else {
        assert RowHolds(registry, state, found.value);
        existing := Ok(Some(state.rows[found.value].record));
      }
      Take(Advance(me, ok, found, 0, 0));
      portCalls := portCalls + 1;
    }

    /** False when the insert throws. */
    method Insert(record: Record) returns (ok: bool)
      requires At(Inserting) && record == InsertedRecord(input, record.id)
      modifies this
      ensures At(if ok then Recording(record) else Done(StoreFailure))
      ensures ok ==> record.id in state.rows && state.rows[record.id] == Stored(record, input.now)
    {
      Interleave();
      ok := works(portCalls) && InsertWorks(state.rows, record);
      Take(Advance(me, works(portCalls), None, record.id, 0));
      portCalls := portCalls + 1;
    }

    /** updated: whether the conditional update matched a row; Err is a throw. */
    method UpdateState(existing: Record, expectedVersion: nat) returns (updated: Result<bool, ()>)
      requires At(Updating(existing)) && input.expectedVersion == Some(expectedVersion)
      modifies this
      ensures At(if updated.Err? then Done(StoreFailure)
                 else if updated.value then Recording(UpdatedRecord(existing, input))
                 else Done(VersionConflict(existing.id, expectedVersion)))
      ensures updated == Ok(true) ==>
                existing.id in state.rows && state.rows[existing.id].record == UpdatedRecord(existing, input)
    {
      Interleave();
      RunKeepsInvariant(registry, steps);
      assert CallHolds(registry, state, me);
      if works(portCalls) && UpdateWorks(state.rows, existing.id, expectedVersion) {
        UpdateKeeps(registry, state, me, None, 0, stamp(portCalls));
      }
      updated := if !works(portCalls) then Err(()) else Ok(UpdateWorks(state.rows, existing.id, expectedVersion));
      Take(Advance(me, works(portCalls), None, 0, stamp(portCalls)));
      portCalls := portCalls + 1;
    }

    /** False when the record could not be appended. */
    method Audit(record: AuditRecord) returns (ok: bool)
      requires Valid() && me in state.calls && state.calls[me].input == input
      requires match state.calls[me].pc
               case Refusing => record == RefusedAboveCeiling(input.actor, input.environment, input.scope,
                   input.capability, input.state)
               case Recording(after) => record == Changed(input.actor, after)
               case _ => false
      modifies this
      ensures ok ==> record in state.audit
      ensures old(state.calls[me].pc.Refusing?) ==> At(Done(if ok then AboveCeiling else AuditAppendFailed))
      ensures old(state.calls[me].pc.Recording?) ==>
                At(Done(if ok then Answer.Set(old(state.calls[me].pc.after)) else AuditAppendFailed))
    {
      Interleave();
      ok := works(portCalls);
      ghost var before := state.audit;
      Take(Advance(me, ok, None, 0, 0));
      assert ok ==> state.audit == before + [record];
      portCalls := portCalls + 1;
    }

    method SetAvailability(authorized: bool) returns (answer: Answer)
      requires Valid() && me !in state.calls
      modifies this
      ensures At(Done(answer))
      ensures answer == AboveCeiling ==>
                RefusedAboveCeiling(input.actor, input.environment, input.scope, input.capability, input.state) in state.audit
      ensures answer.Set? ==> UnderCeiling(registry, answer.record) && Changed(input.actor, answer.record) in state.audit
    {
      Take(Start(me, input, authorized));
      if !authorized {
        return Denied;
      }
      if Blank(input.reason) || input.environment !in Environments || (input.scope.Some? && Blank(input.scope.value)) {
        return InvalidInput;
      }
      var descriptor := DescriptorFor(registry, input.capability);
      if descriptor.None? {
        return UnknownCapability;
      }
      if Allowing(input.state) {
        var breach := CeilingBreachFor(descriptor.value, input.environment, input.scope);
        if breach.Some? {
          var denied :=
            Audit(RefusedAboveCeiling(input.actor, input.environment, input.scope, input.capability, input.state));
          return if denied then AboveCeiling else AuditAppendFailed;
        }
      }
      var existing := FindExact();
      if existing.Err? {
        return StoreFailure;
      }
      var record: Record;
      if existing.value.None? {
        record := InsertedRecord(input, nextId(portCalls));
        var inserted := Insert(record);
        if !inserted {
          return StoreFailure;
        }
      } else {
        if input.expectedVersion.None? {
          return AlreadyExists(existing.value.value.id);
        }
        var updated := UpdateState(existing.value.value, input.expectedVersion.value);
        if updated.Err? {
          return StoreFailure;
        }
        if !updated.value {
          return VersionConflict(existing.value.value.id, input.expectedVersion.value);
        }
        record := UpdatedRecord(existing.value.value, input);
      }
      var audited := Audit(Changed(input.actor, record));
      if !audited {
        return AuditAppendFailed;
      }
      RunKeepsInvariant(registry, steps);
      assert CallHolds(registry, state, me);
      AnsweredUnderCeiling(registry, state, input, record);
      return Answer.Set(record);
    }
  }

  lemma AnsweredUnderCeiling(r: View, s: State, input: Input, record: Record)
    requires DescriptorFor(r, input.capability).Some?
    requires Allowing(input.state) ==> CeilingBreachFor(r.descriptors[input.capability], input.environment, input.scope).None?
    requires Matches(record, input.environment, input.scope, input.capability) && record.state == input.state
    ensures UnderCeiling(r, record)
  {
  }
}
