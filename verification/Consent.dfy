/** Consent grants and the legal documents they pin
    (modules/consent/infrastructure/persistence/prisma-consent-grant-repository.ts,
    prisma-legal-document-repository.ts, modules/consent/domain/consent-status.ts,
    legal-document.ts, with the guards of the 0064 and 0065 migrations). */
module Consent {
  import opened Results

  type Time = int
  type Entity = string
  type DocumentId = nat
  type VersionId = nat
  type GrantId = nat

  datatype Subject = Subject(user: string, tenant: string)

  /** What a grant is for: a subject, an entity, a purpose, a jurisdiction. */
  datatype Key = Key(subject: Subject, entity: Entity, purpose: string, jurisdiction: string)

  datatype GrantStatus = ACTIVE | WITHDRAWN | SUPERSEDED

  datatype Grant = Grant(
    id: GrantId, key: Key, consentVersion: string, versionId: VersionId,
    grantedAt: Time, withdrawnAt: Option<Time>, status: GrantStatus)

  /** A document's id is its place in the list of documents. */
  datatype Document = Document(entity: Entity, jurisdiction: string, purposes: seq<string>)

  datatype Classification = Material | Notice | NoAction

  datatype Version = Version(
    document: DocumentId, version: string, contentHash: string,
    classification: Option<Classification>, effectiveAt: Option<Time>, publishedAt: Option<Time>)

  /** grants: in the order they were created. */
  datatype State = State(documents: seq<Document>, versions: map<VersionId, Version>, grants: seq<Grant>)

  // ---------------------------------------------------------------------
  // The stores
  // ---------------------------------------------------------------------

  /** The prior ACTIVE grants of the key become SUPERSEDED. */
  function Superseded(grants: seq<Grant>, key: Key): (r: seq<Grant>)
    ensures |r| == |grants|
  {
    seq(|grants|, i requires 0 <= i < |grants| =>
      if grants[i].key == key && grants[i].status == ACTIVE then grants[i].(status := SUPERSEDED) else grants[i])
  }

  function Accepted(grants: seq<Grant>, grant: Grant): seq<Grant> {
    Superseded(grants, grant.key) + [grant]
  }

  /** ACTIVE to WITHDRAWN: the trigger refuses any other row, and the table's check a
      withdrawal stamped before the grant. */
  predicate Withdrawable(grants: seq<Grant>, subject: Subject, i: int, at: Time) {
    0 <= i < |grants| && grants[i].key.subject == subject && grants[i].status == ACTIVE && grants[i].grantedAt <= at
  }

  function WithdrawnAt(grants: seq<Grant>, i: nat, at: Time): seq<Grant>
    requires i < |grants|
  {
    grants[i := grants[i].(status := WITHDRAWN, withdrawnAt := Some(at))]
  }

  predicate HasId(grants: seq<Grant>, id: GrantId) {
    exists i :: 0 <= i < |grants| && grants[i].id == id
  }

  predicate Resolving(g: Grant, key: Key) {
    g.key == key && (g.status == ACTIVE || g.status == WITHDRAWN)
  }

  /** The first ACTIVE or WITHDRAWN grant of the key by grantedAt desc, then newest. */
  function LatestResolutionGrant(grants: seq<Grant>, key: Key): Option<Grant> {
    if grants == [] then None
    else
      var g, rest := grants[|grants| - 1], LatestResolutionGrant(grants[..|grants| - 1], key);
      if Resolving(g, key) && (rest.None? || g.grantedAt >= rest.value.grantedAt) then Some(g) else rest
  }

  predicate Published(v: Version) {
    v.publishedAt.Some?
  }

  datatype Refusal = Unclassified | AlreadyPublished

  /** versionMayPublish: None when it may. */
  function VersionMayPublish(v: Version): Option<Refusal> {
    if Published(v) then Some(AlreadyPublished) else if v.classification.None? then Some(Unclassified) else None
  }

  predicate InForce(v: Version, document: DocumentId, at: Time) {
    v.document == document && Published(v) && v.effectiveAt.Some? && v.effectiveAt.value <= at
  }

  /** currentEffectiveVersion answers found: the latest effectiveAt, then publishedAt;
      ties may be answered either way. */
  ghost predicate IsCurrent(versions: map<VersionId, Version>, document: DocumentId, at: Time, found: Option<VersionId>) {
    match found
    case None => forall k :: k in versions ==> !InForce(versions[k], document, at)
    case Some(id) =>
      && id in versions && InForce(versions[id], document, at)
      && forall k :: k in versions && InForce(versions[k], document, at) ==> NotLater(versions[k], versions[id])
  }

  predicate NotLater(v: Version, w: Version)
    requires v.effectiveAt.Some? && w.effectiveAt.Some? && v.publishedAt.Some? && w.publishedAt.Some?
  {
    || v.effectiveAt.value < w.effectiveAt.value
    || (v.effectiveAt.value == w.effectiveAt.value && v.publishedAt.value <= w.publishedAt.value)
  }

  // ---------------------------------------------------------------------
  // Runs
  // ---------------------------------------------------------------------

  datatype Step =
    | CreateDocument(document: Document)
    | Draft(id: VersionId, documentId: DocumentId, version: string, contentHash: string)
    | Classify(id: VersionId, classification: Classification)
    | Publish(id: VersionId, effectiveAt: Time, now: Time)
    | Accept(grantId: GrantId, subject: Subject, entity: Entity, versionId: VersionId, purpose: string, now: Time)
    | Withdraw(subject: Subject, grantId: GrantId, now: Time)

  predicate CanDraft(s: State, id: VersionId, document: DocumentId, version: string) {
    && id !in s.versions && document < |s.documents|
    && forall k :: k in s.versions && s.versions[k].document == document ==> s.versions[k].version != version
  }

  predicate CanPublish(s: State, id: VersionId) {
    id in s.versions && VersionMayPublish(s.versions[id]).None?
  }

  /** The version is published, of a document of this entity that covers the purpose. */
  predicate CanAccept(s: State, entity: Entity, versionId: VersionId, purpose: string) {
    && versionId in s.versions && Published(s.versions[versionId]) && s.versions[versionId].document < |s.documents|
    && var d := s.documents[s.versions[versionId].document];
       purpose in d.purposes && d.entity == entity
  }

  function GrantOf(s: State, id: GrantId, subject: Subject, versionId: VersionId, purpose: string, now: Time): Grant
    requires versionId in s.versions && s.versions[versionId].document < |s.documents|
  {
    var v := s.versions[versionId];
    var d := s.documents[v.document];
    Grant(id, Key(subject, d.entity, purpose, d.jurisdiction), v.version, versionId, now, None, ACTIVE)
  }

  function IndexOf(grants: seq<Grant>, id: GrantId): int {
    if grants == [] then -1
    else if grants[|grants| - 1].id == id then |grants| - 1
    else IndexOf(grants[..|grants| - 1], id)
  }

  /** A step the store refuses changes nothing. */
  function Apply(s: State, step: Step): State {
    match step
    case CreateDocument(document) => s.(documents := s.documents + [document])
    case Draft(id, document, version, contentHash) =>
      if !CanDraft(s, id, document, version) then s
      else s.(versions := s.versions[id := Version(document, version, contentHash, None, None, None)])
    case Classify(id, classification) =>
      if id !in s.versions || Published(s.versions[id]) then s
      else s.(versions := s.versions[id := s.versions[id].(classification := Some(classification))])
    case Publish(id, effectiveAt, now) =>
      if !CanPublish(s, id) then s
      else s.(versions := s.versions[id := s.versions[id].(effectiveAt := Some(effectiveAt), publishedAt := Some(now))])
    case Accept(grantId, subject, entity, versionId, purpose, now) =>
      if HasId(s.grants, grantId) || !CanAccept(s, entity, versionId, purpose) then s
      else s.(grants := Accepted(s.grants, GrantOf(s, grantId, subject, versionId, purpose, now)))
    case Withdraw(subject, grantId, now) =>
      var i := IndexOf(s.grants, grantId);
      if !Withdrawable(s.grants, subject, i, now) then s else s.(grants := WithdrawnAt(s.grants, i, now))
  }

  const Empty := State([], map[], [])

  function Run(steps: seq<Step>): State {
    if steps == [] then Empty else Apply(Run(steps[..|steps| - 1]), steps[|steps| - 1])
  }

  // ---------------------------------------------------------------------
  // Grants on every run
  // ---------------------------------------------------------------------

  /** Grant i is the last one created for its key. */
  ghost predicate IsLast(grants: seq<Grant>, i: int) {
    0 <= i < |grants| && forall j :: i < j < |grants| ==> grants[j].key != grants[i].key
  }

  /** Only the last grant of a key can be ACTIVE, and it is never SUPERSEDED. */
  ghost predicate GrantsHold(grants: seq<Grant>) {
    && (forall i, j :: 0 <= i < j < |grants| ==> grants[i].id != grants[j].id)
    && (forall i :: 0 <= i < |grants| && grants[i].status == ACTIVE ==> IsLast(grants, i))
    && (forall i :: IsLast(grants, i) ==> grants[i].status != SUPERSEDED)
    && (forall i :: 0 <= i < |grants| ==> (grants[i].withdrawnAt.Some? <==> grants[i].status == WITHDRAWN))
    && (forall i :: 0 <= i < |grants| && grants[i].withdrawnAt.Some? ==> grants[i].grantedAt <= grants[i].withdrawnAt.value)
  }

  lemma AcceptKeepsGrants(grants: seq<Grant>, grant: Grant)
    requires GrantsHold(grants) && !HasId(grants, grant.id) && grant.status == ACTIVE && grant.withdrawnAt.None?
    ensures GrantsHold(Accepted(grants, grant))
  {
    var after := Accepted(grants, grant);
    forall i | IsLast(after, i) ensures after[i].status != SUPERSEDED {
      if i < |grants| {
        assert after[|grants|].key != after[i].key;
        assert forall j :: i < j < |grants| ==> after[j].key == grants[j].key;
        assert IsLast(grants, i);
      }
    }
    forall i | 0 <= i < |after| && after[i].status == ACTIVE ensures IsLast(after, i) {
      if i < |grants| {
        assert IsLast(grants, i) && grants[i].key != grant.key;
      }
    }
  }

  lemma WithdrawKeepsGrants(grants: seq<Grant>, i: nat, at: Time)
    requires GrantsHold(grants) && i < |grants| && grants[i].status == ACTIVE && grants[i].grantedAt <= at
    ensures GrantsHold(WithdrawnAt(grants, i, at))
  {
    var after := WithdrawnAt(grants, i, at);
    forall k | 0 <= k < |after| && after[k].status == ACTIVE ensures IsLast(after, k) {
      assert IsLast(grants, k);
    }
    forall k | IsLast(after, k) ensures after[k].status != SUPERSEDED {
      assert forall j :: k < j < |grants| ==> after[j].key == grants[j].key;
      assert IsLast(grants, k);
    }
  }

  lemma {:induction false} RunKeepsGrants(steps: seq<Step>)
    ensures GrantsHold(Run(steps).grants)
  {
    if steps != [] {
      var s, step := Run(steps[..|steps| - 1]), steps[|steps| - 1];
      RunKeepsGrants(steps[..|steps| - 1]);
      match step
      case Accept(grantId, subject, entity, versionId, purpose, now) =>
        if !HasId(s.grants, grantId) && CanAccept(s, entity, versionId, purpose) {
          AcceptKeepsGrants(s.grants, GrantOf(s, grantId, subject, versionId, purpose, now));
        }
      case Withdraw(subject, grantId, now) =>
        var i := IndexOf(s.grants, grantId);
        if Withdrawable(s.grants, subject, i, now) {
          WithdrawKeepsGrants(s.grants, i, now);
        }
      case _ =>
    }
  }

  /** What the steps on documents and versions do: exactly this, or nothing. A draft takes a
      new id and a version string new to its document; once published a version is neither
      classified nor published again, and unclassified it is not published. */
  lemma VersionStepsExactly(s: State, step: Step)
    ensures var t := Apply(s, step);
            match step
            case CreateDocument(document) => t == State(s.documents + [document], s.versions, s.grants)
            case Draft(id, document, version, contentHash) =>
              if && id !in s.versions && document < |s.documents|
                 && (forall k :: k in s.versions && s.versions[k].document == document ==> s.versions[k].version != version) then
                t == s.(versions := s.versions[id := Version(document, version, contentHash, None, None, None)])
              else t == s
            case Classify(id, classification) =>
              if id in s.versions && s.versions[id].publishedAt == None then
                t == s.(versions := s.versions[id := s.versions[id].(classification := Some(classification))])
              else t == s
            case Publish(id, effectiveAt, now) =>
              if id in s.versions && s.versions[id].publishedAt == None && s.versions[id].classification != None then
                t == s.(versions := s.versions[id := s.versions[id].(effectiveAt := Some(effectiveAt),
                    publishedAt := Some(now))])
              else t == s
            case _ => t.documents == s.documents && t.versions == s.versions
  {
  }

  /** The version is published, of a document of the entity that covers the purpose. */
  predicate Acceptable(s: State, entity: Entity, versionId: VersionId, purpose: string) {
    && versionId in s.versions && s.versions[versionId].publishedAt != None
    && s.versions[versionId].document < |s.documents|
    && s.documents[s.versions[versionId].document].entity == entity
    && purpose in s.documents[s.versions[versionId].document].purposes
  }

  /** An acceptance under a new id adds one ACTIVE grant that pins the version accepted, and
      supersedes the ACTIVE grants of its key, no others; any other changes nothing. */
  lemma AcceptsExactly(s: State, step: Step)
    requires step.Accept?
    ensures var t := Apply(s, step);
            if (exists i :: 0 <= i < |s.grants| && s.grants[i].id == step.grantId)
               || !Acceptable(s, step.entity, step.versionId, step.purpose) then t == s
            else
              var v := s.versions[step.versionId];
              var key := Key(step.subject, step.entity, step.purpose, s.documents[v.document].jurisdiction);
              && |t.grants| == |s.grants| + 1
              && t.grants[|s.grants|] == Grant(step.grantId, key, v.version, step.versionId, step.now, None, ACTIVE)
              && forall i :: 0 <= i < |s.grants| ==>
                   t.grants[i] == if s.grants[i].key == key && s.grants[i].status == ACTIVE
                                  then s.grants[i].(status := SUPERSEDED) else s.grants[i]
  {
  }

  /** A withdrawal changes the store exactly when it names an own ACTIVE grant that was
      not granted later than its own stamp. */
  lemma WithdrawsExactly(steps: seq<Step>, subject: Subject, grantId: GrantId, now: Time)
    ensures var grants := Run(steps).grants;
            Apply(Run(steps), Withdraw(subject, grantId, now)) != Run(steps)
            <==> exists i :: && 0 <= i < |grants| && grants[i].id == grantId && grants[i].key.subject == subject
                             && grants[i].status == ACTIVE && grants[i].grantedAt <= now
    ensures var grants, after := Run(steps).grants, Apply(Run(steps), Withdraw(subject, grantId, now)).grants;
            after != grants ==>
              exists i :: && 0 <= i < |grants| && grants[i].id == grantId
                          && after == grants[i := grants[i].(status := WITHDRAWN, withdrawnAt := Some(now))]
  {
    RunKeepsGrants(steps);
    var s, k := Run(steps), IndexOf(Run(steps).grants, grantId);
    WithdrawableExactly(s.grants, subject, grantId, now);
    if Withdrawable(s.grants, subject, k, now) {
      assert WithdrawnAt(s.grants, k, now)[k].status != s.grants[k].status;
      IndexOfFinds(s.grants, grantId);
    }
  }

  lemma WithdrawableExactly(grants: seq<Grant>, subject: Subject, grantId: GrantId, now: Time)
    requires GrantsHold(grants)
    ensures Withdrawable(grants, subject, IndexOf(grants, grantId), now)
       <==> exists i :: && 0 <= i < |grants| && grants[i].id == grantId && grants[i].key.subject == subject
                        && grants[i].status == ACTIVE && grants[i].grantedAt <= now
  {
    IndexOfFinds(grants, grantId);
    if i :| 0 <= i < |grants| && grants[i].id == grantId {
      assert HasId(grants, grantId);
      assert i == IndexOf(grants, grantId);
    }
  }

  lemma {:induction false} IndexOfFinds(grants: seq<Grant>, id: GrantId)
    ensures var i := IndexOf(grants, id);
            if i < 0 then !HasId(grants, id) else i < |grants| && grants[i].id == id
  {
    if grants != [] && grants[|grants| - 1].id != id {
      IndexOfFinds(grants[..|grants| - 1], id);
    }
  }

  /** At most one grant of a key is ACTIVE, whatever the clock says. */
  lemma OneActiveGrant(steps: seq<Step>, i: nat, j: nat)
    requires var grants := Run(steps).grants;
             && i < |grants| && j < |grants| && grants[i].key == grants[j].key
             && grants[i].status == ACTIVE && grants[j].status == ACTIVE
    ensures i == j
  {
    RunKeepsGrants(steps);
    assert IsLast(Run(steps).grants, i) && IsLast(Run(steps).grants, j);
  }

  // ---------------------------------------------------------------------
  // The query and its contract
  // ---------------------------------------------------------------------

  /** What the port promises: the ACTIVE grant of the key if there is one, else the
      last WITHDRAWN one. */
  ghost predicate MeetsContract(grants: seq<Grant>, key: Key, answer: Option<Grant>) {
    if exists i :: 0 <= i < |grants| && grants[i].key == key && grants[i].status == ACTIVE then
      answer.Some? && answer.value in grants && answer.value.key == key && answer.value.status == ACTIVE
    else if exists i :: 0 <= i < |grants| && grants[i].key == key && grants[i].status == WITHDRAWN then
      exists i :: && 0 <= i < |grants| && answer == Some(grants[i]) && grants[i].key == key && grants[i].status == WITHDRAWN
                  && forall j :: i < j < |grants| && grants[j].key == key ==> grants[j].status != WITHDRAWN
    else answer == None
  }

  /** The query's answer is grant i: the largest grantedAt, the newest among equals. */
  ghost predicate IsAnswer(grants: seq<Grant>, key: Key, i: int) {
    && 0 <= i < |grants| && grants[i].key == key && grants[i].status != SUPERSEDED
    && (forall j :: 0 <= j < |grants| && grants[j].key == key && grants[j].status != SUPERSEDED ==>
        grants[j].grantedAt <= grants[i].grantedAt)
    && (forall j :: i < j < |grants| && grants[j].key == key && grants[j].status != SUPERSEDED ==>
        grants[j].grantedAt < grants[i].grantedAt)
  }

  lemma {:induction false} QueryAnswers(grants: seq<Grant>, key: Key) returns (i: int)
    ensures match LatestResolutionGrant(grants, key)
            case Some(g) => IsAnswer(grants, key, i) && grants[i] == g
            case None => forall j :: 0 <= j < |grants| && grants[j].key == key ==> grants[j].status == SUPERSEDED
  {
    i := -1;
    if grants != [] {
      var front, g := grants[..|grants| - 1], grants[|grants| - 1];
      i := QueryAnswers(front, key);
      var rest := LatestResolutionGrant(front, key);
      if Resolving(g, key) && (rest.None? || g.grantedAt >= rest.value.grantedAt) {
        i := |front|;
      }
    }
  }

  /** The last grant of the key was granted no earlier than any that can resolve. */
  ghost predicate LastIsLatest(grants: seq<Grant>, key: Key) {
    forall i, j :: && IsLast(grants, i) && grants[i].key == key
                   && 0 <= j < |grants| && grants[j].key == key && grants[j].status != SUPERSEDED ==>
      grants[j].grantedAt <= grants[i].grantedAt
  }

  lemma {:induction false} LastExists(grants: seq<Grant>, key: Key) returns (i: int)
    requires exists j :: 0 <= j < |grants| && grants[j].key == key
    ensures IsLast(grants, i) && grants[i].key == key
  {
    i := |grants| - 1;
    while grants[i].key != key
      invariant 0 <= i < |grants| && forall j :: i < j < |grants| ==> grants[j].key != key
      decreases i
    {
      i := i - 1;
    }
  }

  /** The contract's answer is the last grant of the key. */
  lemma ContractIsTheLastGrant(grants: seq<Grant>, key: Key, i: int, answer: Option<Grant>)
    requires GrantsHold(grants) && IsLast(grants, i) && grants[i].key == key
    ensures MeetsContract(grants, key, answer) <==> answer == Some(grants[i])
  {
    if MeetsContract(grants, key, answer) && grants[i].status == ACTIVE {
      var j :| 0 <= j < |grants| && grants[j] == answer.value;
      assert IsLast(grants, j);
    }
  }

  /** The last grant of the key is the query's answer exactly when it is the latest. */
  lemma LastIsAnswerWhenLatest(grants: seq<Grant>, key: Key, i: int, k: int)
    requires GrantsHold(grants) && IsLast(grants, i) && grants[i].key == key && IsAnswer(grants, key, k)
    ensures grants[k] == grants[i] <==> LastIsLatest(grants, key)
  {
    assert Resolving(grants[i], key);
    assert k <= i;
    if grants[k] == grants[i] {
      assert k == i;
      forall m, j | IsLast(grants, m) && grants[m].key == key && 0 <= j < |grants| && Resolving(grants[j], key)
        ensures grants[j].grantedAt <= grants[m].grantedAt {
        assert m == i;
      }
    }
  }

  /** On every reachable store: the sorted query meets its contract exactly when the
      last grant of the key is also the latest by its own timestamp. */
  lemma QueryMeetsContractExactly(steps: seq<Step>, key: Key)
    ensures var grants := Run(steps).grants;
            MeetsContract(grants, key, LatestResolutionGrant(grants, key)) <==> LastIsLatest(grants, key)
  {
    RunKeepsGrants(steps);
    var grants := Run(steps).grants;
    var k := QueryAnswers(grants, key);
    if exists j :: 0 <= j < |grants| && grants[j].key == key {
      var i := LastExists(grants, key);
      assert Resolving(grants[i], key);
      ContractIsTheLastGrant(grants, key, i, LatestResolutionGrant(grants, key));
      LastIsAnswerWhenLatest(grants, key, i, k);
    }
  }

  /** Acceptances happen at non-decreasing times. */
  predicate ClockNeverGoesBack(steps: seq<Step>) {
    forall i, j :: 0 <= i < j < |steps| && steps[i].Accept? && steps[j].Accept? ==> steps[i].now <= steps[j].now
  }

  /** A step keeps every grant's key and time, and adds at most one, at its own time. */
  lemma StepGrantTimes(s: State, step: Step)
    ensures var before, after := s.grants, Apply(s, step).grants;
            && |before| <= |after| <= |before| + 1
            && (forall i :: 0 <= i < |before| ==> after[i].key == before[i].key && after[i].grantedAt == before[i].grantedAt)
            && (|after| > |before| ==> step.Accept? && after[|before|].grantedAt == step.now)
  {
  }

  /** An acceptance of the run has this time. */
  ghost predicate GrantedBySome(steps: seq<Step>, at: Time) {
    exists k :: 0 <= k < |steps| && steps[k].Accept? && steps[k].now == at
  }

  ghost predicate TimesFollow(steps: seq<Step>, grants: seq<Grant>) {
    && (forall i, j :: 0 <= i < j < |grants| ==> grants[i].grantedAt <= grants[j].grantedAt)
    && forall g :: g in grants ==> GrantedBySome(steps, g.grantedAt)
  }

  lemma StepTimesFollow(before: seq<Step>, step: Step, s: State)
    requires ClockNeverGoesBack(before + [step]) && TimesFollow(before, s.grants)
    ensures TimesFollow(before + [step], Apply(s, step).grants)
  {
    StepGrantTimes(s, step);
    var steps, earlier, grants := before + [step], s.grants, Apply(s, step).grants;
    assert steps[|before|] == step;
    forall i | 0 <= i < |earlier|
      ensures GrantedBySome(steps, grants[i].grantedAt) && (step.Accept? ==> grants[i].grantedAt <= step.now) {
      assert earlier[i] in earlier;
      var k :| 0 <= k < |before| && before[k].Accept? && before[k].now == earlier[i].grantedAt;
      assert steps[k] == before[k];
    }
    forall g | g in grants ensures GrantedBySome(steps, g.grantedAt) {
      var i :| 0 <= i < |grants| && grants[i] == g;
    }
  }

  lemma {:induction false} GrantTimesFollowTheClock(steps: seq<Step>)
    requires ClockNeverGoesBack(steps)
    ensures TimesFollow(steps, Run(steps).grants)
  {
    if steps != [] {
      GrantTimesFollowTheClock(steps[..|steps| - 1]);
      assert steps == steps[..|steps| - 1] + [steps[|steps| - 1]];
      StepTimesFollow(steps[..|steps| - 1], steps[|steps| - 1], Run(steps[..|steps| - 1]));
    }
  }

  /** Times that follow the order of creation make the last grant the latest. */
  lemma InOrderLastIsLatest(grants: seq<Grant>, key: Key)
    requires forall i, j :: 0 <= i < j < |grants| ==> grants[i].grantedAt <= grants[j].grantedAt
    ensures LastIsLatest(grants, key)
  {
    forall i, j | IsLast(grants, i) && grants[i].key == key && 0 <= j < |grants| && Resolving(grants[j], key)
      ensures grants[j].grantedAt <= grants[i].grantedAt {
      assert j <= i;
    }
  }

  /** With a clock that never goes back the sorted query always meets its contract. */
  lemma QueryMeetsContract(steps: seq<Step>, key: Key)
    requires ClockNeverGoesBack(steps)
    ensures MeetsContract(Run(steps).grants, key, LatestResolutionGrant(Run(steps).grants, key))
  {
    GrantTimesFollowTheClock(steps);
    InOrderLastIsLatest(Run(steps).grants, key);
    QueryMeetsContractExactly(steps, key);
  }

  /** A clock that goes back breaks it: a withdrawn grant with a later timestamp hides
      the active one. */
  lemma ClockGoingBackHidesActiveGrant()
    ensures exists steps, key :: !MeetsContract(Run(steps).grants, key, LatestResolutionGrant(Run(steps).grants, key))
  {
    var who := Subject("u", "t");
    var key := Key(who, "E", "P", "J");
    var published := OnePublishedVersion();
    var steps := WithdrawnThenAcceptedEarlier(published, who);
    QueryMeetsContractExactly(steps, key);
    var grants := Run(steps).grants;
    assert IsLast(grants, 1) && grants[1].key == key && Resolving(grants[0], key);
  }

  const OneVersion := State([Document("E", "J", ["P"])],
      map[1 := Version(0, "v1", "h", Some(NoAction), Some(0), Some(0))], [])

  lemma OnePublishedVersion() returns (steps: seq<Step>)
    ensures Run(steps) == OneVersion
  {
    var document, draft := Document("E", "J", ["P"]), Version(0, "v1", "h", None, None, None);
    RunAppends([], CreateDocument(document));
    var s1 := [] + [CreateDocument(document)];
    assert Run(s1) == State([document], map[], []);
    RunAppends(s1, Draft(1, 0, "v1", "h"));
    var s2 := s1 + [Draft(1, 0, "v1", "h")];
    assert Run(s2) == State([document], map[1 := draft], []);
    RunAppends(s2, Classify(1, NoAction));
    var s3 := s2 + [Classify(1, NoAction)];
    assert Run(s3) == State([document], map[1 := draft.(classification := Some(NoAction))], []);
    RunAppends(s3, Publish(1, 0, 0));
    steps := s3 + [Publish(1, 0, 0)];
  }

  lemma WithdrawnThenAcceptedEarlier(published: seq<Step>, who: Subject) returns (steps: seq<Step>)
    requires Run(published) == OneVersion
    ensures var key := Key(who, "E", "P", "J");
            Run(steps).grants == [Grant(1, key, "v1", 1, 20, Some(21), WITHDRAWN), Grant(2, key, "v1", 1, 10, None, ACTIVE)]
  {
    var key := Key(who, "E", "P", "J");
    RunAppends(published, Accept(1, who, "E", 1, "P", 20));
    var s1 := published + [Accept(1, who, "E", 1, "P", 20)];
    assert Run(s1) == OneVersion.(grants := [Grant(1, key, "v1", 1, 20, None, ACTIVE)]);
    RunAppends(s1, Withdraw(who, 1, 21));
    var s2 := s1 + [Withdraw(who, 1, 21)];
    assert Run(s2) == OneVersion.(grants := [Grant(1, key, "v1", 1, 20, Some(21), WITHDRAWN)]);
    RunAppends(s2, Accept(2, who, "E", 1, "P", 10));
    steps := s2 + [Accept(2, who, "E", 1, "P", 10)];
  }

  lemma {:induction false} RunAppends(steps: seq<Step>, step: Step)
    ensures Run(steps + [step]) == Apply(Run(steps), step)
  {
    assert (steps + [step])[..|steps|] == steps;
  }
}
