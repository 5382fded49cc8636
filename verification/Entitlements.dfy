/** Granting and revoking a tenant's entitlement to a capability: read, versioned
    write, record, interleaved with anyone else's
    (modules/capability/application/use-cases/manage-entitlements.ts,
    modules/capability/infrastructure/persistence/prisma-entitlement-repository.ts). */
module Entitlements {
  import opened Results
  import opened Strings
  import opened CapabilityResolution

  datatype Key = Key(tenant: string, capability: string)
  type CallId = nat

  datatype Row = EntitlementRecord(
    id: nat, status: EntitlementStatus, source: string, reason: string, actor: string,
    from: Time, to: Option<Time>, version: nat)

  /** What a caller asks for. */
  datatype Operation =
    | Grant(source: string, reason: string, actor: string, from: Time, to: Option<Time>)
    | Revoke(reason: string, actor: string, now: Time)

  /** before: the version and status replaced, None for a new row. */
  datatype AuditRecord = AuditRecord(actor: string, key: Key, before: Option<Row>, after: Row)

  datatype Answer =
    | Stored(row: Row)
    | Denied | InvalidInput | UnknownCapability | NotFound | StoreFailure
    | VersionConflict(id: nat, expectedVersion: nat)
    | AuditAppendFailed

  datatype Pc =
    | Reading
    | Writing(existing: Option<Row>)
    | Recording(before: Option<Row>, after: Row)
    | Done(answer: Answer)

  datatype Call = Call(key: Key, op: Operation, pc: Pc)

  /** A stored operation, the id a new row would take, and the call that stored it. */
  datatype Entry = Entry(op: Operation, newId: nat, call: CallId)

  /** done: the operations stored on each key so far, first to last. */
  datatype State = State(
    rows: map<Key, Row>, audit: seq<AuditRecord>, calls: map<CallId, Call>, done: map<Key, seq<Entry>>)

  // ---------------------------------------------------------------------
  // One operation
  // ---------------------------------------------------------------------

  function Max(a: Time, b: Time): Time {
    if a < b then b else a
  }

  /** The row an operation leaves, given the one it found. */
  function Changed(existing: Option<Row>, op: Operation, newId: nat): Row
    requires op.Grant? || existing.Some?
  {
    match op
    case Grant(source, reason, actor, from, to) =>
      if existing.None? then EntitlementRecord(newId, ACTIVE, source, reason, actor, from, to, 1)
      else EntitlementRecord(existing.value.id, ACTIVE, source, reason, actor, from, to, existing.value.version + 1)
    case Revoke(reason, actor, now) =>
      var row := existing.value;
      var alreadyEnded := row.to.Some? && row.to.value <= now;
      EntitlementRecord(row.id, REVOKED, row.source, reason, actor, row.from,
                        if alreadyEnded then row.to else Some(Max(now, row.from)), row.version + 1)
  }

  function Begin(op: Operation, authorized: bool, known: bool): Pc {
    if !authorized then Done(Denied)
    else if op.Grant? && Blank(op.source) then Done(InvalidInput)
    else if Blank(op.reason) then Done(InvalidInput)
    else if op.Grant? && op.to.Some? && op.to.value <= op.from then Done(InvalidInput)
    else if !known then Done(UnknownCapability)
    else Reading
  }

  function Find(rows: map<Key, Row>, key: Key): Option<Row> {
    if key in rows then Some(rows[key]) else None
  }

  function AfterReading(op: Operation, existing: Option<Row>): Pc {
    if op.Revoke? && existing.None? then Done(NotFound) else Writing(existing)
  }

  /** insert meets the unique key; transition needs the row still at the version read. */
  predicate Writes(rows: map<Key, Row>, key: Key, existing: Option<Row>) {
    if existing.None? then key !in rows
    else key in rows && rows[key].id == existing.value.id && rows[key].version == existing.value.version
  }

  function AfterWriting(rows: map<Key, Row>, c: Call, existing: Option<Row>, newId: nat): Pc
    requires c.op.Grant? || existing.Some?
  {
    if Writes(rows, c.key, existing) then Recording(existing, Changed(existing, c.op, newId))
    else if existing.None? then Done(StoreFailure)
    else Done(VersionConflict(existing.value.id, existing.value.version))
  }

  function AuditOf(c: Call, before: Option<Row>, after: Row): AuditRecord {
    AuditRecord(c.op.actor, c.key, before, after)
  }

  // ---------------------------------------------------------------------
  // Runs
  // ---------------------------------------------------------------------

  datatype Step =
    | Start(call: CallId, key: Key, op: Operation, authorized: bool, known: bool)
    | Advance(call: CallId, works: bool, newId: nat)

  /** A revocation past its read has found a row. */
  predicate Sensible(c: Call) {
    c.pc.Writing? ==> c.op.Grant? || c.pc.existing.Some?
  }

  function History(s: State, key: Key): seq<Entry> {
    if key in s.done then s.done[key] else []
  }

  function Apply(s: State, step: Step): State {
    match step
    case Start(call, key, op, authorized, known) =>
      if call in s.calls then s else s.(calls := s.calls[call := Call(key, op, Begin(op, authorized, known))])
    case Advance(call, works, newId) =>
      if call !in s.calls then s else Advanced(s, call, works, newId)
  }

  function Advanced(s: State, call: CallId, works: bool, newId: nat): State
    requires call in s.calls
  {
    var c := s.calls[call];
    match c.pc
    case Reading =>
      s.(calls := s.calls[call := c.(pc := if works then AfterReading(c.op, Find(s.rows, c.key)) else Done(StoreFailure))])
    case Writing(existing) =>
      if !Sensible(c) then s
      else if !works then s.(calls := s.calls[call := c.(pc := Done(StoreFailure))])
      else if !Writes(s.rows, c.key, existing) then
        s.(calls := s.calls[call := c.(pc := AfterWriting(s.rows, c, existing, newId))])
      else
        State(s.rows[c.key := Changed(existing, c.op, newId)], s.audit,
              s.calls[call := c.(pc := AfterWriting(s.rows, c, existing, newId))],
              s.done[c.key := History(s, c.key) + [Entry(c.op, newId, call)]])
    case Recording(before, after) =>
      s.(audit := if works then s.audit + [AuditOf(c, before, after)] else s.audit,
         calls := s.calls[call := c.(pc := Done(if works then Stored(after) else AuditAppendFailed))])
    case Done(_) => s
  }

  function Run(init: State, steps: seq<Step>): State {
    if steps == [] then init else Apply(Run(init, steps[..|steps| - 1]), steps[|steps| - 1])
  }

  const Empty := State(map[], [], map[], map[])

  // ---------------------------------------------------------------------
  // Serial replay
  // ---------------------------------------------------------------------

  /** The row one operation after another leaves, with nobody in between. */
  function Replay(ops: seq<Entry>): Option<Row> {
    if ops == [] then None
    else
      var before, last := Replay(ops[..|ops| - 1]), ops[|ops| - 1];
      if last.op.Revoke? && before.None? then None else Some(Changed(before, last.op, last.newId))
  }

  predicate ValidOperation(op: Operation) {
    op.Grant? && op.to.Some? ==> op.from < op.to.value
  }

  /** A history starts with a grant, and its grants are not empty windows. */
  predicate Serial(ops: seq<Entry>) {
    && (ops != [] ==> ops[0].op.Grant?)
    && forall i :: 0 <= i < |ops| ==> ValidOperation(ops[i].op)
  }

  /** The k-th operation of a history leaves version k, under the id of the first. */
  lemma {:induction false} ReplayVersion(ops: seq<Entry>)
    requires Serial(ops) && ops != []
    ensures Replay(ops).Some? && Replay(ops).value.version == |ops| && Replay(ops).value.id == ops[0].newId
  {
    if |ops| > 1 {
      ReplayVersion(ops[..|ops| - 1]);
    }
  }

  predicate SoundWindow(row: Row) {
    && (row.to.Some? ==> row.from <= row.to.value)
    && (row.status == REVOKED ==> row.to.Some?)
    && row.status != EXPIRED
  }

  lemma {:induction false} ReplayWindow(ops: seq<Entry>)
    requires Serial(ops) && ops != []
    ensures Replay(ops).Some? && SoundWindow(Replay(ops).value)
  {
    ReplayVersion(ops);
    if |ops| > 1 {
      ReplayWindow(ops[..|ops| - 1]);
    }
  }

  /** A revocation keeps the start and never moves the end later; what was open
      ends, and nothing is entitled from the revocation on. */
  lemma RevokeNeverExtends(ops: seq<Entry>)
    requires Serial(ops) && |ops| > 1 && ops[|ops| - 1].op.Revoke?
    ensures var before, after := Replay(ops[..|ops| - 1]), Replay(ops);
            && before.Some? && after.Some? && after.value.from == before.value.from && after.value.to.Some?
            && (before.value.to.Some? ==> after.value.to.value <= before.value.to.value)
            && (after.value.to.value <= ops[|ops| - 1].op.now || after.value.to.value == after.value.from)
  {
    ReplayWindow(ops[..|ops| - 1]);
  }

  // ---------------------------------------------------------------------
  // Every run
  // ---------------------------------------------------------------------

  /** The stored row is what the operations of its key leave when run serially. */
  ghost predicate RowHolds(s: State, key: Key) {
    && Serial(History(s, key))
    && (key in s.rows <==> History(s, key) != [])
    && Find(s.rows, key) == Replay(History(s, key))
  }

  /** row is the one after the first row.version operations of the key. */
  ghost predicate Past(s: State, key: Key, row: Row) {
    && 1 <= row.version <= |History(s, key)|
    && Replay(History(s, key)[..row.version]) == Some(row)
  }

  ghost predicate CallHolds(s: State, id: CallId, c: Call) {
    && Sensible(c)
    && (!c.pc.Done? ==> ValidOperation(c.op))
    && match c.pc
       case Writing(Some(row)) => Past(s, c.key, row)
       case Recording(before, after) => Past(s, c.key, after) && OneStep(s, id, c, before, after)
       case Done(Stored(row)) =>
         Past(s, c.key, row) && exists before :: OneStep(s, id, c, before, row) && AuditOf(c, before, row) in s.audit
       case _ => true
  }

  /** after came from before by this call's operation, with nothing in between. */
  ghost predicate OneStep(s: State, id: CallId, c: Call, before: Option<Row>, after: Row) {
    && 1 <= after.version <= |History(s, c.key)|
    && History(s, c.key)[after.version - 1].op == c.op && History(s, c.key)[after.version - 1].call == id
    && before == Replay(History(s, c.key)[..after.version - 1])
  }

  ghost predicate Invariant(s: State) {
    && (forall key :: RowHolds(s, key))
    && (forall id :: id in s.calls ==> CallHolds(s, id, s.calls[id]))
  }

  /** Histories and the audit only grow. */
  ghost predicate Grows(s: State, t: State) {
    && (forall key :: |History(s, key)| <= |History(t, key)| && History(t, key)[..|History(s, key)|] == History(s, key))
    && (forall r :: r in s.audit ==> r in t.audit)
  }

  lemma StepGrows(s: State, step: Step)
    ensures Grows(s, Apply(s, step))
  {
  }

  lemma PastStays(s: State, t: State, key: Key, row: Row)
    requires Grows(s, t) && Past(s, key, row)
    ensures Past(t, key, row)
  {
    assert History(t, key)[..|History(s, key)|][..row.version] == History(t, key)[..row.version];
  }

  lemma OneStepStays(s: State, t: State, id: CallId, c: Call, before: Option<Row>, after: Row)
    requires Grows(s, t) && OneStep(s, id, c, before, after)
    ensures OneStep(t, id, c, before, after)
  {
    var h := History(t, c.key)[..|History(s, c.key)|];
    assert h[..after.version - 1] == History(t, c.key)[..after.version - 1];
    assert h[after.version - 1] == History(t, c.key)[after.version - 1];
  }

  lemma CallStays(s: State, t: State, id: CallId, c: Call)
    requires Grows(s, t) && CallHolds(s, id, c)
    ensures CallHolds(t, id, c)
  {
    match c.pc
    case Writing(Some(row)) => PastStays(s, t, c.key, row);
    case Recording(before, after) =>
      PastStays(s, t, c.key, after);
      OneStepStays(s, t, id, c, before, after);
    case Done(Stored(row)) =>
      PastStays(s, t, c.key, row);
      var before :| OneStep(s, id, c, before, row) && AuditOf(c, before, row) in s.audit;
      OneStepStays(s, t, id, c, before, row);
    case _ =>
  }

  /** Optimistic concurrency: a write that goes through found the very row it had
      read, so nothing was lost in between. */
  lemma WrittenRowWasCurrent(s: State, key: Key, row: Row)
    requires RowHolds(s, key) && Past(s, key, row) && Writes(s.rows, key, Some(row))
    ensures s.rows[key] == row && |History(s, key)| == row.version
  {
    ReplayVersion(History(s, key));
    assert History(s, key)[..|History(s, key)|] == History(s, key);
  }

  /** A successful write appends exactly its operation to the key's serial history. */
  lemma WriteExtendsHistory(s: State, call: CallId, newId: nat)
    requires Invariant(s) && call in s.calls && s.calls[call].pc.Writing?
    requires Writes(s.rows, s.calls[call].key, s.calls[call].pc.existing)
    ensures var c, t := s.calls[call], Advanced(s, call, true, newId);
            && History(t, c.key) == History(s, c.key) + [Entry(c.op, newId, call)]
            && RowHolds(t, c.key) && CallHolds(t, call, t.calls[call])
  {
    var c, t := s.calls[call], Advanced(s, call, true, newId);
    CurrentRowIsReplay(s, call, c);
    var h, op := History(s, c.key), Entry(c.op, newId, call);
    assert CallHolds(s, call, c) && RowHolds(s, c.key);
    ReplayExtends(h, op, c.pc.existing);
    assert History(t, c.key)[..|h| + 1] == History(t, c.key);
    assert History(t, c.key)[..|h|] == h;
  }

  /** A writing call that may write has read the row its history ends in. */
  lemma CurrentRowIsReplay(s: State, id: CallId, c: Call)
    requires RowHolds(s, c.key) && CallHolds(s, id, c) && c.pc.Writing? && Writes(s.rows, c.key, c.pc.existing)
    ensures c.pc.existing == Replay(History(s, c.key)) == Find(s.rows, c.key)
  {
    if c.pc.existing.Some? {
      WrittenRowWasCurrent(s, c.key, c.pc.existing.value);
    }
  }

  lemma ReplayExtends(h: seq<Entry>, op: Entry, existing: Option<Row>)
    requires Serial(h) && existing == Replay(h) && (op.op.Grant? || existing.Some?) && ValidOperation(op.op)
    ensures Serial(h + [op])
    ensures Replay(h + [op]) == Some(Changed(existing, op.op, op.newId))
        && Changed(existing, op.op, op.newId).version == |h| + 1
  {
    assert (h + [op])[..|h|] == h;
    if h != [] {
      ReplayVersion(h);
    }
  }

  lemma ReadingKeepsCall(s: State, id: CallId, works: bool)
    requires Invariant(s) && id in s.calls && s.calls[id].pc.Reading?
    ensures CallHolds(Advanced(s, id, works, 0), id, Advanced(s, id, works, 0).calls[id])
  {
    var c := s.calls[id];
    assert CallHolds(s, id, c) && RowHolds(s, c.key);
    if c.key in s.rows {
      ReplayVersion(History(s, c.key));
      assert History(s, c.key)[..|History(s, c.key)|] == History(s, c.key);
    }
  }

  lemma RecordingKeepsCall(s: State, id: CallId, works: bool)
    requires id in s.calls && s.calls[id].pc.Recording? && CallHolds(s, id, s.calls[id])
    ensures CallHolds(Advanced(s, id, works, 0), id, Advanced(s, id, works, 0).calls[id])
  {
    var c, t := s.calls[id], Advanced(s, id, works, 0);
    var before, after := c.pc.before, c.pc.after;
    assert Past(t, c.key, after);
    if works {
      assert t.audit[|s.audit|] == AuditOf(c, before, after);
      assert OneStep(t, id, t.calls[id], before, after);
      assert AuditOf(t.calls[id], before, after) in t.audit;
    }
  }

  lemma WritingKeepsCall(s: State, id: CallId, works: bool, newId: nat)
    requires Invariant(s) && id in s.calls && s.calls[id].pc.Writing?
    ensures CallHolds(Advanced(s, id, works, newId), id, Advanced(s, id, works, newId).calls[id])
  {
    assert CallHolds(s, id, s.calls[id]);
    if works && Writes(s.rows, s.calls[id].key, s.calls[id].pc.existing) {
      WriteExtendsHistory(s, id, newId);
    }
  }

  lemma StepKeepsCall(s: State, step: Step, id: CallId)
    requires Invariant(s) && id in Apply(s, step).calls
    ensures CallHolds(Apply(s, step), id, Apply(s, step).calls[id])
  {
    if step.Advance? && id == step.call && id in s.calls && !s.calls[id].pc.Done? {
      match s.calls[id].pc
      case Reading => ReadingKeepsCall(s, id, step.works);
      case Writing(_) => WritingKeepsCall(s, id, step.works, step.newId);
      case Recording(_, _) => RecordingKeepsCall(s, id, step.works);
    } else if id in s.calls {
      StepGrows(s, step);
      CallStays(s, Apply(s, step), id, s.calls[id]);
    }
  }

  lemma StepKeepsRow(s: State, step: Step, key: Key)
    requires Invariant(s)
    ensures RowHolds(Apply(s, step), key)
  {
    assert RowHolds(s, key);
    if step.Advance? && step.call in s.calls {
      var c := s.calls[step.call];
      assert CallHolds(s, step.call, c);
      if c.pc.Writing? && step.works && Writes(s.rows, c.key, c.pc.existing) && c.key == key {
        WriteExtendsHistory(s, step.call, step.newId);
      }
    }
  }

  lemma StepKeepsInvariant(s: State, step: Step)
    requires Invariant(s)
    ensures Invariant(Apply(s, step))
  {
    forall key ensures RowHolds(Apply(s, step), key) {
      StepKeepsRow(s, step, key);
    }
    forall id | id in Apply(s, step).calls ensures CallHolds(Apply(s, step), id, Apply(s, step).calls[id]) {
      StepKeepsCall(s, step, id);
    }
  }

  lemma {:induction false} RunKeepsInvariant(steps: seq<Step>)
    ensures Invariant(Run(Empty, steps))
  {
    if steps != [] {
      RunKeepsInvariant(steps[..|steps| - 1]);
      StepKeepsInvariant(Run(Empty, steps[..|steps| - 1]), steps[|steps| - 1]);
    }
  }

  // ---------------------------------------------------------------------
  // No update lost
  // ---------------------------------------------------------------------

  /** Every interleaving leaves each row as the serial replay of the operations that
      succeeded on it, its version counting them, over a sound window. */
  lemma RowsAreSerialReplays(steps: seq<Step>, key: Key)
    ensures var s := Run(Empty, steps);
            && Find(s.rows, key) == Replay(History(s, key))
            && (key in s.rows ==>
                  && s.rows[key].version == |History(s, key)| && s.rows[key].id == History(s, key)[0].newId
                  && SoundWindow(s.rows[key]))
  {
    RunKeepsInvariant(steps);
    var s := Run(Empty, steps);
    assert RowHolds(s, key);
    if key in s.rows {
      ReplayVersion(History(s, key));
      ReplayWindow(History(s, key));
    }
  }

  /** Each version of a row has one author: two calls told they stored the same version
      are one call. No update is lost, identical ones included. */
  lemma VersionsHaveOneAuthor(steps: seq<Step>, a: CallId, b: CallId)
    requires var s := Run(Empty, steps);
             && a in s.calls && b in s.calls && s.calls[a].key == s.calls[b].key
             && s.calls[a].pc.Done? && s.calls[a].pc.answer.Stored? && s.calls[b].pc.Done? && s.calls[b].pc.answer.Stored?
             && s.calls[a].pc.answer.row.version == s.calls[b].pc.answer.row.version
    ensures a == b
  {
    RunKeepsInvariant(steps);
    var s := Run(Empty, steps);
    assert CallHolds(s, a, s.calls[a]) && CallHolds(s, b, s.calls[b]);
  }

  /** A call told its entitlement is stored finds its operation in the history, at the
      version it was told, applied to the row just before, and recorded so. */
  lemma StoredAnswersAreInHistory(steps: seq<Step>, id: CallId)
    requires var s := Run(Empty, steps); id in s.calls && s.calls[id].pc.Done? && s.calls[id].pc.answer.Stored?
    ensures var s := Run(Empty, steps);
            var c := s.calls[id];
            var row := c.pc.answer.row;
            var h := History(s, c.key);
            && 1 <= row.version <= |h| && h[row.version - 1].op == c.op && h[row.version - 1].call == id
                && Replay(h[..row.version]) == Some(row)
            && AuditRecord(c.op.actor, c.key, Replay(h[..row.version - 1]), row) in s.audit
  {
    RunKeepsInvariant(steps);
    assert CallHolds(Run(Empty, steps), id, Run(Empty, steps).calls[id]);
  }

  // ---------------------------------------------------------------------
  // What a write stores, field by field
  // ---------------------------------------------------------------------

  /** after is what the operation makes of before, under the new id if there was none. */
  predicate StoresExactly(op: Operation, before: Option<Row>, newId: nat, after: Row) {
    match op
    case Grant(source, reason, actor, from, to) =>
      && after.status == ACTIVE && after.source == source && after.reason == reason && after.actor == actor
      && after.from == from && after.to == to
      && (before.None? ==> after.id == newId && after.version == 1)
      && (before.Some? ==> after.id == before.value.id && after.version == before.value.version + 1)
    case Revoke(reason, actor, now) =>
      && before.Some? && after.status == REVOKED && after.reason == reason && after.actor == actor
      && after.id == before.value.id && after.version == before.value.version + 1
      && after.source == before.value.source && after.from == before.value.from
      && (if before.value.to.Some? && before.value.to.value <= now then after.to == before.value.to
          else if now < before.value.from then after.to == Some(before.value.from)
          else after.to == Some(now))
  }

  /** The row stored under the key in that state. */
  predicate Holds(s: State, key: Key, row: Option<Row>) {
    match row
    case Some(r) => key in s.rows && s.rows[key] == r
    case None => key !in s.rows
  }

  /** Rows change by one call at a time, about to write, to exactly what its operation
      makes of the row stored; and that call then has this row to record. */
  lemma WritesAreExact(s: State, step: Step)
    requires Invariant(s) && Apply(s, step).rows != s.rows
    ensures step.Advance? && step.works && step.call in s.calls && s.calls[step.call].pc.Writing?
    ensures var c, t := s.calls[step.call], Apply(s, step);
            && c.key in t.rows && t.rows == s.rows[c.key := t.rows[c.key]]
            && exists before :: && Holds(s, c.key, before) && StoresExactly(c.op, before, step.newId, t.rows[c.key])
                                && t.calls[step.call] == Call(c.key, c.op, Recording(before, t.rows[c.key]))
  {
    var c := s.calls[step.call];
    assert CallHolds(s, step.call, c);
    if c.pc.existing.Some? {
      assert RowHolds(s, c.key);
      WrittenRowWasCurrent(s, c.key, c.pc.existing.value);
    }
    assert Holds(s, c.key, c.pc.existing);
  }

  /** Step n of the run stored this row for the call. */
  ghost predicate StoredAt(steps: seq<Step>, n: int, id: CallId, c: Call, row: Row) {
    && 0 <= n < |steps| && steps[n].Advance? && steps[n].call == id
    && var s, t := Run(Empty, steps[..n]), Run(Empty, steps[..n + 1]);
       && Holds(t, c.key, Some(row))
       && exists before :: Holds(s, c.key, before) && StoresExactly(c.op, before, steps[n].newId, row)
  }

  /** The row a call has written, while it records it and when it answers it. */
  function WrittenRow(pc: Pc): Option<Row> {
    match pc
    case Recording(_, after) => Some(after)
    case Done(Stored(row)) => Some(row)
    case _ => None
  }

  lemma AdvanceKeepsWritten(s: State, step: Step, id: CallId)
    requires Invariant(s) && id in Apply(s, step).calls && WrittenRow(Apply(s, step).calls[id].pc).Some?
    requires Apply(s, step).rows == s.rows || !(step.Advance? && step.call == id)
    ensures id in s.calls && WrittenRow(s.calls[id].pc) == WrittenRow(Apply(s, step).calls[id].pc)
    ensures s.calls[id].key == Apply(s, step).calls[id].key && s.calls[id].op == Apply(s, step).calls[id].op
  {
    if step.Advance? && step.call == id && s.calls[id].pc.Writing? {
      assert CallHolds(s, id, s.calls[id]);
      if step.works && Writes(s.rows, s.calls[id].key, s.calls[id].pc.existing) {
        WriteExtendsHistory(s, id, step.newId);
        VersionMoves(s, step);
      }
    }
  }

  /** A write always changes the stored row. */
  lemma VersionMoves(s: State, step: Step)
    requires Invariant(s) && step.Advance? && step.works && step.call in s.calls && s.calls[step.call].pc.Writing?
    requires Writes(s.rows, s.calls[step.call].key, s.calls[step.call].pc.existing)
    ensures Apply(s, step).rows != s.rows
  {
    var c := s.calls[step.call];
    assert CallHolds(s, step.call, c);
    var t := Apply(s, step);
    assert c.key in t.rows && (c.key in s.rows ==> t.rows[c.key].version != s.rows[c.key].version);
  }

  lemma StoredStays(steps: seq<Step>, step: Step, n: int, id: CallId, c: Call, row: Row)
    requires StoredAt(steps, n, id, c, row)
    ensures StoredAt(steps + [step], n, id, c, row)
  {
    assert (steps + [step])[..n] == steps[..n] && (steps + [step])[..n + 1] == steps[..n + 1];
  }

  lemma {:induction false} WrittenRowsWereStored(steps: seq<Step>, id: CallId) returns (n: nat)
    requires id in Run(Empty, steps).calls && WrittenRow(Run(Empty, steps).calls[id].pc).Some?
    ensures var c := Run(Empty, steps).calls[id]; StoredAt(steps, n, id, c, WrittenRow(c.pc).value)
  {
    var before, step := steps[..|steps| - 1], steps[|steps| - 1];
    assert steps == before + [step];
    RunAppends(before, step);
    RunKeepsInvariant(before);
    var s, t := Run(Empty, before), Run(Empty, steps);
    if t.rows != s.rows && step.Advance? && step.call == id {
      WritesAreExact(s, step);
      n := |before|;
      assert steps[..n] == before && steps[..n + 1] == steps;
    } else {
      AdvanceKeepsWritten(s, step, id);
      n := WrittenRowsWereStored(before, id);
      StoredStays(before, step, n, id, s.calls[id], WrittenRow(t.calls[id].pc).value);
    }
  }

  /** What a call told STORED stored: at a step of its own, over the row then stored or
      under its new id, exactly the fields it asked for; and for a revocation the
      end is the old one if that had passed, else now, or the start if that is later. */
  lemma StoredRowsAreExact(steps: seq<Step>, id: CallId) returns (n: nat)
    requires var s := Run(Empty, steps); id in s.calls && s.calls[id].pc.Done? && s.calls[id].pc.answer.Stored?
    ensures var c := Run(Empty, steps).calls[id]; StoredAt(steps, n, id, c, c.pc.answer.row)
  {
    n := WrittenRowsWereStored(steps, id);
  }

  /** While a granted row stands, the entitlement gate passes exactly inside the window
      asked for. */
  lemma GrantEntitlesExactly(steps: seq<Step>, id: CallId, x: Inputs, text: nat -> string, at: Time)
    requires var s := Run(Empty, steps);
             && id in s.calls && s.calls[id].op.Grant? && s.calls[id].pc.Done? && s.calls[id].pc.answer.Stored?
             && Holds(s, s.calls[id].key, Some(s.calls[id].pc.answer.row))
             && x.entitlement == FactsFor(s, s.calls[id].key, text)
    ensures var op := Run(Empty, steps).calls[id].op;
            Passes(ENTITLEMENT, x, at) <==> op.from <= at && (op.to.None? || at < op.to.value)
    ensures Passes(ENTITLEMENT, x, at) || (Resolve(x, at).DeniedAt? && Rank(Resolve(x, at).gate) <= Rank(ENTITLEMENT))
  {
    var n := StoredRowsAreExact(steps, id);
    ResolutionIsTheMeetOfTheGates(x, at);
  }

  /** What the gate reads is the stored row. */
  lemma FactsAreTheRow(s: State, key: Key, text: nat -> string)
    ensures match FactsFor(s, key, text)
            case NoEntitlement => key !in s.rows
            case EntitlementRow(id, status, from, to, version) =>
              && key in s.rows && id == text(s.rows[key].id)
              && s.rows[key].status == status && s.rows[key].from == from && s.rows[key].to == to
                  && s.rows[key].version == version
  {
  }

  /** What each port call leads to: nothing to revoke, a row read, a write that goes
      through, finds another row under the key or another version, or throws, and a
      record made or not. Every other call stays as it is. */
  lemma PortCallsLeadOn(s: State, step: Step)
    requires Invariant(s) && step.Advance? && step.call in s.calls
    ensures var t := Apply(s, step);
            var c, pc := s.calls[step.call], t.calls[step.call].pc;
            && t.calls == s.calls[step.call := Call(c.key, c.op, pc)]
            && match c.pc
               case Reading =>
                 if !step.works then pc == Done(StoreFailure)
                 else if c.key in s.rows then pc == Writing(Some(s.rows[c.key]))
                 else if c.op.Grant? then pc == Writing(None)
                 else pc == Done(NotFound)
               case Writing(None) => if step.works && c.key !in s.rows then pc.Recording? else pc == Done(StoreFailure)
               case Writing(Some(row)) =>
                 if !step.works then pc == Done(StoreFailure)
                 else if c.key in s.rows && s.rows[c.key].id == row.id
                     && s.rows[c.key].version == row.version then pc.Recording?
                 else pc == Done(VersionConflict(row.id, row.version))
               case Recording(_, after) => pc == Done(if step.works then Stored(after) else AuditAppendFailed)
               case Done(answer) => pc == Done(answer)
  {
    assert CallHolds(s, step.call, s.calls[step.call]);
  }

  /** The audit grows by exactly the record of a call that recorded: who acted, on which
      key, the row before and the row after. */
  lemma RecordsAreExact(s: State, step: Step)
    ensures Apply(s, step).audit
         == if step.Advance? && step.works && step.call in s.calls && s.calls[step.call].pc.Recording? then
              var c := s.calls[step.call];
              s.audit + [AuditRecord(match c.op case Grant(_, _, actor, _, _) => actor case Revoke(_, actor, _) => actor,
                                     c.key, c.pc.before, c.pc.after)]
            else s.audit
  {
  }

  /** Who is turned away before anything is read, and how. */
  lemma TurnedAwayExactly(s: State, id: CallId, key: Key, op: Operation, authorized: bool, known: bool)
    requires id !in s.calls
    ensures var pc := Apply(s, Start(id, key, op, authorized, known)).calls[id].pc;
            var valid := match op
                         case Grant(source, reason, _, from, to) => !Blank(source) && !Blank(reason)
                             && (to.None? || from < to.value)
                         case Revoke(reason, _, _) => !Blank(reason);
            && (pc == Done(Denied) <==> !authorized)
            && (pc == Done(InvalidInput) <==> authorized && !valid)
            && (pc == Done(UnknownCapability) <==> authorized && valid && !known)
            && (pc == Reading <==> authorized && valid && known)
  {
  }

  /** What the fifth gate reads. text: how a row id reads. */
  function FactsFor(s: State, key: Key, text: nat -> string): Entitlement {
    if key !in s.rows then NoEntitlement
    else
      var row := s.rows[key];
      EntitlementRow(text(row.id), row.status, row.from, row.to, row.version)
  }

  /** While the last operation stored is a revocation, nothing resolves as allowed on
      this entitlement: the denial comes at the entitlement gate or before. */
  lemma RevokedStaysDenied(steps: seq<Step>, key: Key, x: Inputs, text: nat -> string, at: Time)
    requires var h := History(Run(Empty, steps), key); h != [] && h[|h| - 1].op.Revoke?
    requires x.entitlement == FactsFor(Run(Empty, steps), key, text)
    ensures Resolve(x, at).DeniedAt? && Rank(Resolve(x, at).gate) <= Rank(ENTITLEMENT)
    ensures Resolve(x, at).gate == ENTITLEMENT ==> Resolve(x, at).reason == ENTITLEMENT_MISSING
  {
    RowsAreSerialReplays(steps, key);
    ResolutionIsTheMeetOfTheGates(x, at);
    assert !Passes(ENTITLEMENT, x, at);
  }

  lemma {:induction false} RunAppends(steps: seq<Step>, step: Step)
    ensures Run(Empty, steps + [step]) == Apply(Run(Empty, steps), step)
  {
    assert (steps + [step])[..|steps|] == steps;
  }

  /** The history of a key only grows. */
  lemma {:induction false} HistoryGrows(steps: seq<Step>, more: seq<Step>, key: Key)
    ensures var h, g := History(Run(Empty, steps), key), History(Run(Empty, steps + more), key);
            |h| <= |g| && g[..|h|] == h
  {
    if more == [] {
      assert steps + more == steps;
    } else {
      var front, last := more[..|more| - 1], more[|more| - 1];
      HistoryGrows(steps, front, key);
      assert steps + more == (steps + front) + [last];
      RunAppends(steps + front, last);
      StepGrows(Run(Empty, steps + front), last);
      var h, m, g := History(Run(Empty, steps), key), History(Run(Empty, steps + front), key),
          History(Run(Empty, steps + more), key);
      assert g[..|h|] == g[..|m|][..|h|];
    }
  }

  /** After a revocation only a grant restores: whatever else is stored on the key, for
      as long as none of it is a grant, resolution denies at the entitlement gate
      or before. */
  lemma OnlyAGrantRestores(
    steps: seq<Step>, more: seq<Step>, key: Key, x: Inputs, text: nat -> string, at: Time)
    requires var h := History(Run(Empty, steps), key); h != [] && h[|h| - 1].op.Revoke?
    requires var h, g := History(Run(Empty, steps), key), History(Run(Empty, steps + more), key);
             forall i :: |h| <= i < |g| ==> !g[i].op.Grant?
    requires x.entitlement == FactsFor(Run(Empty, steps + more), key, text)
    ensures Resolve(x, at).DeniedAt? && Rank(Resolve(x, at).gate) <= Rank(ENTITLEMENT)
  {
    HistoryGrows(steps, more, key);
    var h, g := History(Run(Empty, steps), key), History(Run(Empty, steps + more), key);
    assert g[|g| - 1].op.Revoke? by {
      if |g| == |h| {
        assert g == g[..|h|];
      }
    }
    RevokedStaysDenied(steps + more, key, x, text, at);
  }

  // ---------------------------------------------------------------------
  // The use cases, over a store others write to
  // ---------------------------------------------------------------------

  class Service {
    const me: CallId
    const foreign: nat -> seq<Step>
    const works: nat -> bool
    const nextId: nat -> nat
    ghost var steps: seq<Step>
    var state: State
    var portCalls: nat

    constructor (me: CallId, foreign: nat -> seq<Step>, works: nat -> bool, nextId: nat -> nat)
      ensures Valid() && state == Empty && portCalls == 0 && this.me == me
      ensures this.foreign == foreign && this.works == works && this.nextId == nextId
    {
      this.me, this.foreign, this.works, this.nextId := me, foreign, works, nextId;
      steps, state, portCalls := [], Empty, 0;
    }

    ghost predicate Valid()
      reads this
    {
      state == Run(Empty, steps)
    }

    /** This call serves op on key and stands at pc. */
    ghost predicate At(key: Key, op: Operation, pc: Pc)
      reads this
    {
      Valid() && me in state.calls && state.calls[me] == Call(key, op, pc)
    }

    method Take(step: Step)
      requires Valid()
      modifies this`steps, this`state
      ensures Valid() && state == Apply(old(state), step)
    {
      assert (steps + [step])[..|steps|] == steps;
      steps := steps + [step];
      state := Apply(state, step);
    }

    method Interleave()
      requires Valid() && me in state.calls
      modifies this`steps, this`state
      ensures Valid() && me in state.calls && state.calls[me] == old(state.calls[me])
    {
      var others := foreign(portCalls);
      for i := 0 to |others|
        invariant Valid() && me in state.calls && state.calls[me] == old(state.calls[me])
      {
        if others[i].call != me {
          Take(others[i]);
        }
      }
    }

    /** Err is the store's throw. */
    method FindByCapability(key: Key, op: Operation) returns (existing: Result<Option<Row>, ()>)
      requires At(key, op, Reading)
      modifies this
      ensures At(key, op, if existing.Err? then Done(StoreFailure) else AfterReading(op, existing.value))
    {
      Interleave();
      existing := if works(portCalls) then Ok(Find(state.rows, key)) else Err(());
      Take(Advance(me, works(portCalls), 0));
      portCalls := portCalls + 1;
    }

    /** False when the insert throws. */
    method Insert(key: Key, op: Operation, row: Row, newId: nat) returns (ok: bool)
      requires At(key, op, Writing(None)) && op.Grant? && row == Changed(None, op, newId)
      modifies this
      ensures At(key, op, if ok then Recording(None, row) else Done(StoreFailure))
      ensures ok ==> Find(state.rows, key) == Some(row)
    {
      Interleave();
      ok := works(portCalls) && key !in state.rows;
      Take(Advance(me, works(portCalls), newId));
      portCalls := portCalls + 1;
    }

    /** updated: whether the conditional update matched a row; Err is a throw. */
    method Transition(key: Key, op: Operation, existing: Row, row: Row) returns (updated: Result<bool, ()>)
      requires At(key, op, Writing(Some(existing))) && row == Changed(Some(existing), op, 0)
      modifies this
      ensures At(key, op, if updated.Err? then Done(StoreFailure)
                          else if updated.value then Recording(Some(existing), row)
                          else Done(VersionConflict(existing.id, existing.version)))
      ensures updated == Ok(true) ==> Find(state.rows, key) == Some(row)
    {
      Interleave();
      updated := if !works(portCalls) then Err(())
                 else Ok(key in state.rows && state.rows[key].id == existing.id
                     && state.rows[key].version == existing.version);
      Take(Advance(me, works(portCalls), 0));
      portCalls := portCalls + 1;
    }

    method RecordChange(key: Key, op: Operation, before: Option<Row>, after: Row) returns (ok: bool)
      requires At(key, op, Recording(before, after))
      modifies this
      ensures At(key, op, Done(if ok then Stored(after) else AuditAppendFailed))
      ensures ok ==> AuditRecord(op.actor, key, before, after) in state.audit
    {
      Interleave();
      ok := works(portCalls);
      Take(Advance(me, works(portCalls), 0));
      portCalls := portCalls + 1;
    }

    method GrantEntitlement(
      key: Key, source: string, reason: string, actor: string, from: Time, to: Option<Time>, authorized: bool, known: bool)
      returns (answer: Answer)
      requires Valid() && me !in state.calls
      modifies this
      ensures At(key, Grant(source, reason, actor, from, to), Done(answer))
      ensures answer.Stored? ==>
                && answer.row.status == ACTIVE && answer.row.source == source && answer.row.reason == reason
                && answer.row.actor == actor && answer.row.from == from && answer.row.to == to
    {
      var op := Grant(source, reason, actor, from, to);
      Take(Start(me, key, op, authorized, known));
      if !authorized {
        return Denied;
      }
      if Blank(source) || Blank(reason) || (to.Some? && to.value <= from) {
        return InvalidInput;
      }
      if !known {
        return UnknownCapability;
      }
      var read := FindByCapability(key, op);
      if read.Err? {
        return StoreFailure;
      }
      var existing := read.value;
      var entitlement: Row;
      if existing.None? {
        var newId := nextId(portCalls);
        entitlement := EntitlementRecord(newId, ACTIVE, source, reason, actor, from, to, 1);
        var inserted := Insert(key, op, entitlement, newId);
        if !inserted {
          return StoreFailure;
        }
      } else {
        var row := existing.value;
        entitlement := row.(status := ACTIVE, source := source, reason := reason, actor := actor,
                            from := from, to := to, version := row.version + 1);
        var updated := Transition(key, op, row, entitlement);
        if updated.Err? {
          return StoreFailure;
        }
        if !updated.value {
          return VersionConflict(row.id, row.version);
        }
      }
      var audited := RecordChange(key, op, existing, entitlement);
      return if audited then Stored(entitlement) else AuditAppendFailed;
    }

    method RevokeEntitlement(key: Key, reason: string, actor: string, now: Time, authorized: bool, known: bool)
      returns (answer: Answer)
      requires Valid() && me !in state.calls
      modifies this
      ensures At(key, Revoke(reason, actor, now), Done(answer))
      ensures answer.Stored? ==>
                && answer.row.status == REVOKED && answer.row.reason == reason && answer.row.actor == actor
                && answer.row.to.Some? && (answer.row.to.value <= now || answer.row.to.value == answer.row.from)
    {
      var op := Revoke(reason, actor, now);
      Take(Start(me, key, op, authorized, known));
      if !authorized {
        return Denied;
      }
      if Blank(reason) {
        return InvalidInput;
      }
      if !known {
        return UnknownCapability;
      }
      var read := FindByCapability(key, op);
      if read.Err? {
        return StoreFailure;
      }
      if read.value.None? {
        return NotFound;
      }
      var existing := read.value.value;
      var alreadyEnded := existing.to.Some? && existing.to.value <= now;
      var entitlement := existing.(
        status := REVOKED, reason := reason, actor := actor,
        to := if alreadyEnded then existing.to else Some(Max(now, existing.from)), version := existing.version + 1);
      var updated := Transition(key, op, existing, entitlement);
      if updated.Err? {
        return StoreFailure;
      }
      if !updated.value {
        return VersionConflict(existing.id, existing.version);
      }
      var audited := RecordChange(key, op, Some(existing), entitlement);
      return if audited then Stored(entitlement) else AuditAppendFailed;
    }
  }
}
