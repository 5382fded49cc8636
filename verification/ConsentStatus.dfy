/** Whether a subject's consent stands, and the text it was given to
    (modules/consent/domain/consent-status.ts,
    modules/consent/application/use-cases/consent.ts, legal-document-content.ts). */
module ConsentStatus {
  import opened Results
  import opened Strings
  import opened Consent

  datatype StatusState = ActiveConsent | WithdrawnConsent | ReconsentRequired | NoGrant

  datatype StatusView = StatusView(state: StatusState, noticeRequired: bool, grantId: Option<GrantId>,
      effectiveVersion: Option<VersionId>)

  datatype StatusError = NoEffectiveEntity | AmbiguousJurisdiction

  /** resolveConsentStatus; effective is the version in force and its row. */
  function ResolveStatus(grant: Option<Grant>, grantedEffectiveAt: Option<Time>,
      effective: Option<(VersionId, Version)>): StatusView {
    var effectiveId := if effective.Some? then Some(effective.value.0) else None;
    if grant.None? then StatusView(NoGrant, false, None, effectiveId)
    else
      var g := grant.value;
      if g.status == WITHDRAWN then StatusView(WithdrawnConsent, false, Some(g.id), effectiveId)
      else if g.status != ACTIVE then StatusView(NoGrant, false, Some(g.id), effectiveId)
      else if effective.None? || effective.value.0 == g.versionId then
        StatusView(ActiveConsent, false, Some(g.id), effectiveId)
      else
        var v := effective.value.1;
        var newer := grantedEffectiveAt.None? || v.effectiveAt.None? || v.effectiveAt.value > grantedEffectiveAt.value;
        if !newer then StatusView(ActiveConsent, false, Some(g.id), effectiveId)
        else match v.classification
             case Some(Notice) => StatusView(ActiveConsent, true, Some(g.id), effectiveId)
             case Some(NoAction) => StatusView(ActiveConsent, false, Some(g.id), effectiveId)
             case _ => StatusView(ReconsentRequired, false, Some(g.id), effectiveId)
  }

  /** findDocumentsCoveringPurpose: ids in creation order. */
  function Covering(documents: seq<Document>, entity: Entity, purpose: string,
      jurisdiction: Option<string>): (ids: seq<DocumentId>)
    ensures forall i :: 0 <= i < |ids| ==> ids[i] < |documents| && Covers(documents[ids[i]], entity, purpose, jurisdiction)
  {
    if documents == [] then []
    else
      var d := |documents| - 1;
      Covering(documents[..d], entity, purpose, jurisdiction)
      + if Covers(documents[d], entity, purpose, jurisdiction) then [d] else []
  }

  predicate Covers(d: Document, entity: Entity, purpose: string, jurisdiction: Option<string>) {
    d.entity == entity && purpose in d.purposes && (jurisdiction.Some? ==> d.jurisdiction == jurisdiction.value)
  }

  function VersionOf(s: State, id: Option<VersionId>): Option<(VersionId, Version)> {
    if id.Some? && id.value in s.versions then Some((id.value, s.versions[id.value])) else None
  }

  function EffectiveAtOf(s: State, grant: Option<Grant>): Option<Time> {
    if grant.Some? && grant.value.versionId in s.versions then s.versions[grant.value.versionId].effectiveAt else None
  }

  /** GetOwnConsentStatus; entity None: no effective entity resolves. current: what
      currentEffectiveVersion answers for the covering document. */
  function OwnStatus(
    s: State, subject: Subject, entity: Option<Entity>, purpose: string, jurisdiction: Option<string>,
        current: Option<VersionId>)
    : Result<StatusView, StatusError>
  {
    if entity.None? then Err(NoEffectiveEntity)
    else
      var candidates := Covering(s.documents, entity.value, purpose, jurisdiction);
      if |candidates| > 1 then Err(AmbiguousJurisdiction)
      else if |candidates| == 0 then Ok(StatusView(NoGrant, false, None, None))
      else
        var key := Key(subject, entity.value, purpose, s.documents[candidates[0]].jurisdiction);
        var grant := LatestResolutionGrant(s.grants, key);
        Ok(ResolveStatus(grant, EffectiveAtOf(s, grant), VersionOf(s, current)))
  }

  /** AssertConsentFor lets processing proceed. */
  predicate Permitted(
    s: State, subject: Subject, entity: Option<Entity>, purpose: string, jurisdiction: Option<string>,
        current: Option<VersionId>)
  {
    var status := OwnStatus(s, subject, entity, purpose, jurisdiction, current);
    status.Ok? && status.value.state == ActiveConsent
  }

  // ---------------------------------------------------------------------
  // Documents on every run
  // ---------------------------------------------------------------------

  predicate VersionHolds(v: Version) {
    Published(v) ==> v.classification.Some? && v.effectiveAt.Some?
  }

  predicate SameText(v: Version, w: Version) {
    v.document == w.document && v.version == w.version && v.contentHash == w.contentHash
  }

  predicate SamePins(g: Grant, h: Grant) {
    g.id == h.id && g.key == h.key && g.consentVersion == h.consentVersion && g.versionId == h.versionId
        && g.grantedAt == h.grantedAt
  }

  /** What a grant may become: itself, or, once ACTIVE, withdrawn or superseded. */
  predicate Succeeds(g: Grant, h: Grant) {
    SamePins(g, h) && (h == g || (g.status == ACTIVE && h.status != ACTIVE))
  }

  /** Documents and the text of versions never change, a published version not at all,
      and a classification is never taken back;
      grants stay, and are withdrawn or superseded at most once. */
  ghost predicate Grows(s: State, t: State) {
    && |s.documents| <= |t.documents| && t.documents[..|s.documents|] == s.documents
    && (forall id :: id in s.versions ==>
          && id in t.versions && SameText(s.versions[id], t.versions[id])
          && (s.versions[id].classification.Some? ==> t.versions[id].classification.Some?)
          && (Published(s.versions[id]) ==> t.versions[id] == s.versions[id]))
    && |s.grants| <= |t.grants|
    && forall i :: 0 <= i < |s.grants| ==> Succeeds(s.grants[i], t.grants[i])
  }

  lemma GrowsTransitive(s: State, t: State, u: State)
    requires Grows(s, t) && Grows(t, u)
    ensures Grows(s, u)
  {
    assert u.documents[..|s.documents|] == u.documents[..|t.documents|][..|s.documents|];
  }

  lemma StepGrows(s: State, step: Step)
    ensures Grows(s, Apply(s, step))
  {
  }

  lemma {:induction false} RunGrows(steps: seq<Step>, more: seq<Step>)
    ensures Grows(Run(steps), Run(steps + more))
  {
    if more == [] {
      assert steps + more == steps;
    } else {
      var n := |more| - 1;
      RunGrows(steps, more[..n]);
      assert steps + more == (steps + more[..n]) + [more[n]];
      RunAppends(steps + more[..n], more[n]);
      StepGrows(Run(steps + more[..n]), more[n]);
      GrowsTransitive(Run(steps), Run(steps + more[..n]), Run(steps + more));
    }
  }

  /** The grant pins a published version, and its document's entity, jurisdiction and
      purpose. */
  ghost predicate Pins(s: State, g: Grant) {
    && g.versionId in s.versions
    && var v := s.versions[g.versionId];
       && Published(v) && g.consentVersion == v.version && v.document < |s.documents|
       && var d := s.documents[v.document];
          d.entity == g.key.entity && d.jurisdiction == g.key.jurisdiction && g.key.purpose in d.purposes
  }

  ghost predicate DocumentsHold(s: State) {
    && (forall id :: id in s.versions ==> VersionHolds(s.versions[id]) && s.versions[id].document < |s.documents|)
    && (forall i :: 0 <= i < |s.grants| ==> Pins(s, s.grants[i]))
  }

  lemma PinStays(s: State, t: State, g: Grant)
    requires Grows(s, t) && Pins(s, g)
    ensures Pins(t, g)
  {
    assert t.documents[..|s.documents|][s.versions[g.versionId].document] == t.documents[s.versions[g.versionId].document];
  }

  /** Statuses and withdrawal times aside, a step keeps every grant; an acceptance
      adds one that pins its version. */
  lemma StepGrants(s: State, step: Step, i: nat)
    requires i < |Apply(s, step).grants|
    ensures var g := Apply(s, step).grants[i];
            if i < |s.grants| then SamePins(s.grants[i], g) else Pins(s, g)
  {
  }

  lemma StepKeepsDocuments(s: State, step: Step)
    requires DocumentsHold(s)
    ensures DocumentsHold(Apply(s, step))
  {
    StepGrows(s, step);
    var t := Apply(s, step);
    forall i | 0 <= i < |t.grants| ensures Pins(t, t.grants[i]) {
      StepGrants(s, step, i);
      if i < |s.grants| {
        PinStays(s, t, s.grants[i]);
      } else {
        PinStays(s, t, t.grants[i]);
      }
    }
  }

  /** On every run each published version is classified and carries its effective
      instant, and each grant pins a published version of its own document. */
  lemma {:induction false} RunKeepsDocuments(steps: seq<Step>)
    ensures DocumentsHold(Run(steps))
  {
    if steps != [] {
      RunKeepsDocuments(steps[..|steps| - 1]);
      StepKeepsDocuments(Run(steps[..|steps| - 1]), steps[|steps| - 1]);
    }
  }

  /** The only way to be published is to have been classified first. */
  lemma PublicationNeedsClassification(s: State, step: Step, id: VersionId)
    requires id in s.versions && !Published(s.versions[id]) && Published(Apply(s, step).versions[id])
    ensures step.Publish? && step.id == id && s.versions[id].classification.Some?
    ensures Apply(s, step).versions[id] ==
            s.versions[id].(effectiveAt := Some(step.effectiveAt), publishedAt := Some(step.now))
  {
  }

  // ---------------------------------------------------------------------
  // The text shown
  // ---------------------------------------------------------------------

  datatype Content = Content(language: string, text: string)

  datatype ContentView = ContentView(
    documentId: DocumentId, versionId: VersionId, version: string, contentHash: string,
    effectiveAt: Option<Time>, language: string, content: string)

  datatype ContentError =
    NoEntity | NotFound | NoEffectiveVersion | NotRetrievable | LanguageNotStated | IntegrityMismatch

  /** GetLegalDocumentContent; content: what the source fetches for the version in force. */
  function Serve(
    s: State, entity: Option<Entity>, documentId: DocumentId, current: Option<VersionId>, content: Option<Content>,
        sha256: string -> string)
    : Result<ContentView, ContentError>
  {
    if entity.None? then Err(NoEntity)
    else if documentId >= |s.documents| || s.documents[documentId].entity != entity.value then Err(NotFound)
    else
      var version := VersionOf(s, current);
      if version.None? then Err(NoEffectiveVersion)
      else if content.None? then Err(NotRetrievable)
      else if Blank(content.value.language) then Err(LanguageNotStated)
      else
        var v := version.value.1;
        if Lower(sha256(content.value.text)) != Lower(v.contentHash) then Err(IntegrityMismatch)
        else Ok(ContentView(documentId, version.value.0, v.version, v.contentHash, v.effectiveAt,
                            content.value.language, content.value.text))
  }

  /** Text served for a version hashes to what every later grant of that version pins,
      and the version served is one in force for the document asked for. */
  lemma ServedTextIsWhatGrantsPin(
    steps: seq<Step>, more: seq<Step>, entity: Option<Entity>, documentId: DocumentId, at: Time, current: Option<VersionId>,
    content: Option<Content>, sha256: string -> string, g: Grant)
    requires var s := Run(steps);
             && IsCurrent(s.versions, documentId, at, current)
             && Serve(s, entity, documentId, current, content, sha256).Ok?
    requires g in Run(steps + more).grants
    requires g.versionId == Serve(Run(steps), entity, documentId, current, content, sha256).value.versionId
    ensures var served := Serve(Run(steps), entity, documentId, current, content, sha256).value;
            var s, t := Run(steps), Run(steps + more);
            && InForce(s.versions[served.versionId], documentId, at)
            && g.versionId in t.versions && t.versions[g.versionId] == s.versions[served.versionId]
            && g.consentVersion == served.version && Some(g.key.entity) == entity
            && Lower(sha256(served.content)) == Lower(t.versions[g.versionId].contentHash)
  {
    RunGrows(steps, more);
    RunKeepsDocuments(steps);
    RunKeepsDocuments(steps + more);
    var i :| 0 <= i < |Run(steps + more).grants| && Run(steps + more).grants[i] == g;
    assert Pins(Run(steps + more), g);
    assert Run(steps + more).documents[..|Run(steps).documents|][documentId] == Run(steps + more).documents[documentId];
  }

  /** Another entity's document answers exactly as an absent one. */
  lemma ForeignDocumentsLookAbsent(
    s: State, entity: Entity, documentId: DocumentId, current: Option<VersionId>, content: Option<Content>,
        sha256: string -> string)
    ensures Serve(s, Some(entity), documentId, current, content, sha256) == Err(NotFound)
       <==> !(documentId < |s.documents| && s.documents[documentId].entity == entity)
  {
  }

  // ---------------------------------------------------------------------
  // Accepting what was served
  // ---------------------------------------------------------------------

  lemma NewestAnswers(grants: seq<Grant>, grant: Grant)
    requires grant.status == ACTIVE && forall i :: 0 <= i < |grants| ==> grants[i].grantedAt <= grant.grantedAt
    ensures LatestResolutionGrant(Accepted(grants, grant), grant.key) == Some(grant)
  {
    var front := Superseded(grants, grant.key);
    assert Accepted(grants, grant)[..|grants|] == front;
    var i := QueryAnswers(front, grant.key);
  }

  lemma AcceptedAnswers(s: State, accept: Step)
    requires accept.Accept? && !HasId(s.grants, accept.grantId)
        && CanAccept(s, accept.entity, accept.versionId, accept.purpose)
    requires forall i, j :: 0 <= i < j < |Apply(s, accept).grants| ==>
               Apply(s, accept).grants[i].grantedAt <= Apply(s, accept).grants[j].grantedAt
    ensures var grant := GrantOf(s, accept.grantId, accept.subject, accept.versionId, accept.purpose, accept.now);
            LatestResolutionGrant(Apply(s, accept).grants, grant.key) == Some(grant)
  {
    var t := Apply(s, accept);
    var grant := GrantOf(s, accept.grantId, accept.subject, accept.versionId, accept.purpose, accept.now);
    StepGrantTimes(s, accept);
    assert t.grants[|s.grants|] == grant;
    forall i | 0 <= i < |s.grants| ensures s.grants[i].grantedAt <= accept.now {
      assert t.grants[i].grantedAt <= t.grants[|s.grants|].grantedAt;
    }
    NewestAnswers(s.grants, grant);
  }

  /** Accepting the version served at an instant makes the subject's status ACTIVE with
      no notice pending, at that instant, whatever tie the version query breaks. */
  lemma AcceptingServedIsActive(
    steps: seq<Step>, newId: GrantId, subject: Subject, entity: Entity, document: DocumentId, version: VersionId,
    purpose: string, jurisdiction: Option<string>, now: Time, current: Option<VersionId>)
    requires var accept := Accept(newId, subject, entity, version, purpose, now);
             && ClockNeverGoesBack(steps + [accept])
             && !HasId(Run(steps).grants, newId) && CanAccept(Run(steps), entity, version, purpose)
             && Covering(Run(steps).documents, entity, purpose, jurisdiction) == [document]
             && IsCurrent(Run(steps).versions, document, now, Some(version))
             && IsCurrent(Run(steps).versions, document, now, current)
    ensures OwnStatus(Run(steps + [Accept(newId, subject, entity, version, purpose, now)]), subject, Some(entity), purpose,
                      jurisdiction, current)
         == Ok(StatusView(ActiveConsent, false, Some(newId), current))
  {
    var accept := Accept(newId, subject, entity, version, purpose, now);
    RunAppends(steps, accept);
    var s, t := Run(steps), Run(steps + [accept]);
    GrantTimesFollowTheClock(steps + [accept]);
    AcceptedAnswers(s, accept);
    ServedGrantIsActive(t, GrantOf(s, newId, subject, version, purpose, now), document, now, current);
  }

  lemma ServedGrantIsActive(t: State, grant: Grant, document: DocumentId, now: Time, current: Option<VersionId>)
    requires grant.status == ACTIVE
    requires IsCurrent(t.versions, document, now, Some(grant.versionId)) && IsCurrent(t.versions, document, now, current)
    ensures ResolveStatus(Some(grant), EffectiveAtOf(t, Some(grant)), VersionOf(t, current))
         == StatusView(ActiveConsent, false, Some(grant.id), current)
  {
    assert current.Some?;
    assert NotLater(t.versions[current.value], t.versions[grant.versionId]);
  }

  // ---------------------------------------------------------------------
  // After a withdrawal
  // ---------------------------------------------------------------------

  ghost predicate NoneActive(grants: seq<Grant>, key: Key) {
    forall i :: 0 <= i < |grants| && grants[i].key == key ==> grants[i].status != ACTIVE
  }

  /** The step is an acceptance for the key. */
  predicate AcceptsFor(s: State, step: Step, key: Key) {
    && step.Accept? && CanAccept(s, step.entity, step.versionId, step.purpose)
    && GrantOf(s, step.grantId, step.subject, step.versionId, step.purpose, step.now).key == key
  }

  /** Withdrawing the active grant leaves its key with none. */
  lemma WithdrawalDeactivates(steps: seq<Step>, subject: Subject, grantId: GrantId, now: Time)
    requires var grants := Run(steps).grants; Withdrawable(grants, subject, IndexOf(grants, grantId), now)
    ensures var s := Run(steps);
            NoneActive(Apply(s, Withdraw(subject, grantId, now)).grants, s.grants[IndexOf(s.grants, grantId)].key)
  {
    RunKeepsGrants(steps);
    var grants := Run(steps).grants;
    var i := IndexOf(grants, grantId);
    forall j | 0 <= j < |grants| && grants[j].key == grants[i].key && j != i ensures grants[j].status != ACTIVE {
      assert IsLast(grants, i);
      assert grants[j].status == ACTIVE ==> IsLast(grants, j);
    }
  }

  lemma StepKeepsNoneActive(s: State, step: Step, key: Key)
    requires NoneActive(s.grants, key) && !AcceptsFor(s, step, key)
    ensures NoneActive(Apply(s, step).grants, key)
  {
  }

  /** No step of more, taken after steps, is an acceptance for the key. */
  ghost predicate NeverAccepted(steps: seq<Step>, more: seq<Step>, key: Key) {
    more == [] ||
    var front := more[..|more| - 1];
    NeverAccepted(steps, front, key) && !AcceptsFor(Run(steps + front), more[|more| - 1], key)
  }

  lemma {:induction false} NoneActiveStays(steps: seq<Step>, more: seq<Step>, key: Key)
    requires NoneActive(Run(steps).grants, key) && NeverAccepted(steps, more, key)
    ensures NoneActive(Run(steps + more).grants, key)
  {
    if more == [] {
      assert steps + more == steps;
    } else {
      var front, last := more[..|more| - 1], more[|more| - 1];
      NoneActiveStays(steps, front, key);
      assert steps + more == (steps + front) + [last];
      RunAppends(steps + front, last);
      StepKeepsNoneActive(Run(steps + front), last, key);
    }
  }

  lemma NoneActiveIsDenied(
    s: State, subject: Subject, entity: Option<Entity>, purpose: string, jurisdiction: Option<string>,
        current: Option<VersionId>, key: Key)
    requires NoneActive(s.grants, key) && subject == key.subject && entity == Some(key.entity) && purpose == key.purpose
    requires var ids := Covering(s.documents, key.entity, purpose, jurisdiction);
             |ids| == 1 ==> s.documents[ids[0]].jurisdiction == key.jurisdiction
    ensures !Permitted(s, subject, entity, purpose, jurisdiction, current)
  {
    var i := QueryAnswers(s.grants, key);
    var ids := Covering(s.documents, key.entity, purpose, jurisdiction);
    if |ids| == 1 {
      assert Key(subject, key.entity, purpose, s.documents[ids[0]].jurisdiction) == key;
    }
  }

  /** After a subject withdraws, processing for that entity, purpose and jurisdiction is
      denied until they accept again, whatever else happens and whatever is
      published, at every clock. */
  lemma WithdrawnIsDeniedUntilAccepted(
    steps: seq<Step>, subject: Subject, grantId: GrantId, now: Time, more: seq<Step>, current: Option<VersionId>)
    requires var grants := Run(steps).grants; Withdrawable(grants, subject, IndexOf(grants, grantId), now)
    requires var key := Run(steps).grants[IndexOf(Run(steps).grants, grantId)].key;
             NeverAccepted(steps + [Withdraw(subject, grantId, now)], more, key)
    ensures var key := Run(steps).grants[IndexOf(Run(steps).grants, grantId)].key;
            !Permitted(Run(steps + [Withdraw(subject, grantId, now)] + more), subject, Some(key.entity), key.purpose,
                       Some(key.jurisdiction), current)
  {
    var key := Run(steps).grants[IndexOf(Run(steps).grants, grantId)].key;
    var withdrawn := steps + [Withdraw(subject, grantId, now)];
    WithdrawalDeactivates(steps, subject, grantId, now);
    RunAppends(steps, Withdraw(subject, grantId, now));
    NoneActiveStays(withdrawn, more, key);
    NoneActiveIsDenied(Run(withdrawn + more), subject, Some(key.entity), key.purpose, Some(key.jurisdiction), current, key);
  }

  // ---------------------------------------------------------------------
  // When processing is permitted
  // ---------------------------------------------------------------------

  /** Document d is the entity's, names the purpose, and is of the jurisdiction asked for. */
  predicate IsCovering(documents: seq<Document>, d: int, entity: Entity, purpose: string, jurisdiction: Option<string>) {
    && 0 <= d < |documents| && documents[d].entity == entity && purpose in documents[d].purposes
    && (jurisdiction == None || jurisdiction == Some(documents[d].jurisdiction))
  }

  lemma {:induction false} CoveringMember(
    documents: seq<Document>, entity: Entity, purpose: string, jurisdiction: Option<string>, d: nat)
    ensures d in Covering(documents, entity, purpose, jurisdiction) <==> IsCovering(documents, d, entity, purpose,
        jurisdiction)
  {
    if documents != [] {
      CoveringMember(documents[..|documents| - 1], entity, purpose, jurisdiction, d);
    }
  }

  predicate Increasing(ids: seq<nat>) {
    forall i, j :: 0 <= i < j < |ids| ==> ids[i] < ids[j]
  }

  lemma AppendIncreases(ids: seq<nat>, n: nat)
    requires Increasing(ids) && forall i :: 0 <= i < |ids| ==> ids[i] < n
    ensures Increasing(ids + [n])
  {
  }

  lemma {:induction false} CoveringIncreases(documents: seq<Document>, entity: Entity, purpose: string,
      jurisdiction: Option<string>)
    ensures Increasing(Covering(documents, entity, purpose, jurisdiction))
  {
    if documents != [] {
      var n := |documents| - 1;
      var ids := Covering(documents[..n], entity, purpose, jurisdiction);
      CoveringIncreases(documents[..n], entity, purpose, jurisdiction);
      AppendIncreases(ids, n);
      assert Covering(documents, entity, purpose, jurisdiction) in {ids + [n], ids + []};
      assert ids + [] == ids;
    }
  }

  /** The documents listed are all that cover the purpose, each once, in order. */
  lemma CoveringExactly(documents: seq<Document>, entity: Entity, purpose: string, jurisdiction: Option<string>)
    ensures var ids := Covering(documents, entity, purpose, jurisdiction);
            Increasing(ids) && forall d: nat :: d in ids <==> IsCovering(documents, d, entity, purpose, jurisdiction)
  {
    CoveringIncreases(documents, entity, purpose, jurisdiction);
    forall d: nat
      ensures d in Covering(documents, entity, purpose, jurisdiction) <==> IsCovering(documents, d, entity, purpose,
          jurisdiction) {
      CoveringMember(documents, entity, purpose, jurisdiction, d);
    }
  }

  /** One and only one document covers. */
  ghost predicate OnlyCovering(documents: seq<Document>, d: int, entity: Entity, purpose: string,
      jurisdiction: Option<string>) {
    && IsCovering(documents, d, entity, purpose, jurisdiction)
    && forall e :: IsCovering(documents, e, entity, purpose, jurisdiction) ==> e == d
  }

  /** Two documents cover. */
  ghost predicate TwoCover(documents: seq<Document>, entity: Entity, purpose: string, jurisdiction: Option<string>) {
    exists d, e :: d != e && IsCovering(documents, d, entity, purpose, jurisdiction)
                   && IsCovering(documents, e, entity, purpose, jurisdiction)
  }

  lemma CoveringCounts(documents: seq<Document>, entity: Entity, purpose: string, jurisdiction: Option<string>)
    ensures var ids := Covering(documents, entity, purpose, jurisdiction);
            && (|ids| > 1 <==> TwoCover(documents, entity, purpose, jurisdiction))
            && (|ids| == 0 <==> forall d :: !IsCovering(documents, d, entity, purpose, jurisdiction))
            && (forall d: nat :: ids == [d] <==> OnlyCovering(documents, d, entity, purpose, jurisdiction))
  {
    CoveringExactly(documents, entity, purpose, jurisdiction);
    var ids := Covering(documents, entity, purpose, jurisdiction);
    if |ids| > 0 {
      assert ids[0] in ids;
    }
    if |ids| > 1 {
      assert ids[1] in ids;
      assert IsCovering(documents, ids[0], entity, purpose, jurisdiction)
          && IsCovering(documents, ids[1], entity, purpose, jurisdiction);
    }
    if TwoCover(documents, entity, purpose, jurisdiction) {
      var d, e :| d != e && IsCovering(documents, d, entity, purpose, jurisdiction)
                  && IsCovering(documents, e, entity, purpose, jurisdiction);
      MembersCount(ids, d, e);
    }
    forall d: nat ensures ids == [d] <==> OnlyCovering(documents, d, entity, purpose, jurisdiction) {
      OneCovers(documents, entity, purpose, jurisdiction, d);
    }
  }

  lemma MembersCount(ids: seq<nat>, d: nat, e: nat)
    requires d in ids && e in ids && d != e
    ensures |ids| > 1
  {
  }

  lemma OneCovers(documents: seq<Document>, entity: Entity, purpose: string, jurisdiction: Option<string>, d: nat)
    ensures Covering(documents, entity, purpose, jurisdiction) == [d] <==> OnlyCovering(documents, d, entity, purpose,
        jurisdiction)
  {
    CoveringExactly(documents, entity, purpose, jurisdiction);
    var ids := Covering(documents, entity, purpose, jurisdiction);
    if OnlyCovering(documents, d, entity, purpose, jurisdiction) {
      assert d in ids;
      forall i | 0 <= i < |ids| ensures ids[i] == d {
        assert ids[i] in ids;
      }
      SingleIncreasing(ids, d);
    }
    if ids == [d] {
      assert d in ids;
      forall e | IsCovering(documents, e, entity, purpose, jurisdiction) ensures e == d {
        assert e in ids;
      }
    }
  }

  lemma SingleIncreasing(ids: seq<nat>, d: nat)
    requires Increasing(ids) && d in ids && forall i :: 0 <= i < |ids| ==> ids[i] == d
    ensures ids == [d]
  {
    FirstBelowLast(ids);
  }

  lemma FirstBelowLast(ids: seq<nat>)
    requires Increasing(ids)
    ensures |ids| <= 1 || ids[0] < ids[|ids| - 1]
  {
  }

  /** The version in force asks nothing of someone who accepted accepted. */
  predicate StillCovers(s: State, accepted: VersionId, current: Option<VersionId>)
    requires accepted in s.versions && s.versions[accepted].effectiveAt.Some?
  {
    current.Some? && current.value in s.versions && current.value != accepted ==>
      var v := s.versions[current.value];
      || (v.effectiveAt.Some? && v.effectiveAt.value <= s.versions[accepted].effectiveAt.value)
      || v.classification == Some(Notice) || v.classification == Some(NoAction)
  }

  /** With a clock that never goes back: processing is permitted exactly when one
      document covers the purpose, the subject's ACTIVE grant for it exists, and the
      version in force is the accepted one, no newer, or asks for no re-acceptance. */
  lemma PermittedExactly(
    steps: seq<Step>, subject: Subject, entity: Option<Entity>, purpose: string, jurisdiction: Option<string>,
        current: Option<VersionId>)
    requires ClockNeverGoesBack(steps)
    ensures var s := Run(steps);
            Permitted(s, subject, entity, purpose, jurisdiction, current)
            <==> entity.Some?
                 && exists d: nat, i: int ::
                      && OnlyCovering(s.documents, d, entity.value, purpose, jurisdiction)
                      && Standing(s, Key(subject, entity.value, purpose, s.documents[d].jurisdiction), current, i)
  {
    var s := Run(steps);
    if entity.Some? {
      CoveringCounts(s.documents, entity.value, purpose, jurisdiction);
      var ids := Covering(s.documents, entity.value, purpose, jurisdiction);
      if |ids| == 1 {
        assert ids == [ids[0]];
        OneDocumentPermits(steps, subject, entity.value, purpose, jurisdiction, current, ids[0]);
      } else {
        OtherwiseRefused(s, subject, entity.value, purpose, jurisdiction, current);
        forall d: int ensures !OnlyCovering(s.documents, d, entity.value, purpose, jurisdiction) {
          assert d >= 0 && OnlyCovering(s.documents, d, entity.value, purpose, jurisdiction) ==> ids == [d];
        }
      }
    }
  }

  lemma OneDocumentPermits(
    steps: seq<Step>, subject: Subject, entity: Entity, purpose: string, jurisdiction: Option<string>,
    current: Option<VersionId>, d: nat)
    requires ClockNeverGoesBack(steps)
    requires d < |Run(steps).documents| && Covering(Run(steps).documents, entity, purpose, jurisdiction) == [d]
    ensures var s := Run(steps);
            var key := Key(subject, entity, purpose, s.documents[d].jurisdiction);
            Permitted(s, subject, Some(entity), purpose, jurisdiction, current) <==> exists i :: Standing(s, key, current, i)
  {
    var s := Run(steps);
    RunKeepsGrants(steps);
    RunKeepsDocuments(steps);
    var key := Key(subject, entity, purpose, s.documents[d].jurisdiction);
    QueryMeetsContract(steps, key);
    GrantDecides(s, key, current);
    GrantPermits(s, subject, entity, purpose, jurisdiction, current, d);
  }

  lemma GrantPermits(
    s: State, subject: Subject, entity: Entity, purpose: string, jurisdiction: Option<string>, current: Option<VersionId>,
    d: nat)
    requires d < |s.documents| && Covering(s.documents, entity, purpose, jurisdiction) == [d]
    ensures var grant := LatestResolutionGrant(s.grants, Key(subject, entity, purpose, s.documents[d].jurisdiction));
            Permitted(s, subject, Some(entity), purpose, jurisdiction, current)
            <==> ResolveStatus(grant, EffectiveAtOf(s, grant), VersionOf(s, current)).state == ActiveConsent
  {
  }

  lemma OtherwiseRefused(
    s: State, subject: Subject, entity: Entity, purpose: string, jurisdiction: Option<string>, current: Option<VersionId>)
    requires |Covering(s.documents, entity, purpose, jurisdiction)| != 1
    ensures !Permitted(s, subject, Some(entity), purpose, jurisdiction, current)
  {
  }

  /** Grant i is an ACTIVE one of the key that the version in force does not unsettle. */
  predicate Standing(s: State, key: Key, current: Option<VersionId>, i: int) {
    && 0 <= i < |s.grants| && s.grants[i].status == ACTIVE && s.grants[i].key == key
    && s.grants[i].versionId in s.versions && s.versions[s.grants[i].versionId].effectiveAt.Some?
    && StillCovers(s, s.grants[i].versionId, current)
  }

  /** The resolution row decides, once it is the one its contract promises. */
  lemma GrantDecides(s: State, key: Key, current: Option<VersionId>)
    requires GrantsHold(s.grants) && DocumentsHold(s)
    requires MeetsContract(s.grants, key, LatestResolutionGrant(s.grants, key))
    ensures var grant := LatestResolutionGrant(s.grants, key);
            ResolveStatus(grant, EffectiveAtOf(s, grant), VersionOf(s, current)).state == ActiveConsent
            <==> exists i :: Standing(s, key, current, i)
  {
    if i :| 0 <= i < |s.grants| && s.grants[i].status == ACTIVE && s.grants[i].key == key {
      ActiveGrantAnswers(s.grants, key, i);
      assert Pins(s, s.grants[i]);
      ActiveGrantDecides(s, s.grants[i], current);
      assert Standing(s, key, current, i) <==> StillCovers(s, s.grants[i].versionId, current);
      forall k | Standing(s, key, current, k) ensures k == i {
        assert IsLast(s.grants, i) && IsLast(s.grants, k);
      }
    }
  }

  lemma ActiveGrantAnswers(grants: seq<Grant>, key: Key, i: nat)
    requires GrantsHold(grants) && i < |grants| && grants[i].status == ACTIVE && grants[i].key == key
    requires MeetsContract(grants, key, LatestResolutionGrant(grants, key))
    ensures LatestResolutionGrant(grants, key) == Some(grants[i])
  {
    var grant := LatestResolutionGrant(grants, key);
    var j :| 0 <= j < |grants| && grants[j] == grant.value;
    assert IsLast(grants, i) && IsLast(grants, j);
  }

  lemma ActiveGrantDecides(s: State, g: Grant, current: Option<VersionId>)
    requires g.status == ACTIVE && g.versionId in s.versions && s.versions[g.versionId].effectiveAt.Some?
    ensures ResolveStatus(Some(g), EffectiveAtOf(s, Some(g)), VersionOf(s, current)).state == ActiveConsent
       <==> StillCovers(s, g.versionId, current)
  {
  }

  // ---------------------------------------------------------------------
  // The exact answers
  // ---------------------------------------------------------------------

  /** Which answers need no grant: no entity, two covering documents, none. */
  lemma UndecidedExactly(
    s: State, subject: Subject, entity: Option<Entity>, purpose: string, jurisdiction: Option<string>,
        current: Option<VersionId>)
    ensures var status := OwnStatus(s, subject, entity, purpose, jurisdiction, current);
            && (status == Err(NoEffectiveEntity) <==> entity == None)
            && (status == Err(AmbiguousJurisdiction)
                <==> entity.Some? && TwoCover(s.documents, entity.value, purpose, jurisdiction))
            && (entity.Some? && (forall d :: !IsCovering(s.documents, d, entity.value, purpose, jurisdiction)) ==>
                  status == Ok(StatusView(NoGrant, false, None, None)))
  {
    if entity.Some? {
      CoveringCounts(s.documents, entity.value, purpose, jurisdiction);
    }
  }

  predicate HasStatus(grants: seq<Grant>, i: int, key: Key, status: GrantStatus) {
    0 <= i < |grants| && grants[i].key == key && grants[i].status == status
  }

  /** The version in force is another than the accepted one, and took effect later. */
  predicate Supersedes(s: State, current: Option<VersionId>, accepted: VersionId) {
    && current.Some? && current.value in s.versions && current.value != accepted
    && (s.versions[current.value].effectiveAt == None || accepted !in s.versions || s.versions[accepted].effectiveAt == None
        || s.versions[accepted].effectiveAt.value < s.versions[current.value].effectiveAt.value)
  }

  /** The view of the one covering document, by the grants of its key and the version in
      force: WITHDRAWN without an ACTIVE grant but with a withdrawn one, NO_GRANT
      without either, RECONSENT_REQUIRED or a notice by the class of a later
      version in force. */
  ghost predicate ViewFits(s: State, key: Key, current: Option<VersionId>, view: StatusView) {
    var active := exists i :: HasStatus(s.grants, i, key, ACTIVE);
    && view.effectiveVersion == (if current.Some? && current.value in s.versions then current else None)
    && (view.state == NoGrant <==> !active && forall i :: !HasStatus(s.grants, i, key, WITHDRAWN))
    && (view.state == WithdrawnConsent <==> !active && exists i :: HasStatus(s.grants, i, key, WITHDRAWN))
    && (view.state == ReconsentRequired
        <==> exists i :: && HasStatus(s.grants, i, key, ACTIVE) && Supersedes(s, current, s.grants[i].versionId)
                         && s.versions[current.value].classification !in {Some(Notice), Some(NoAction)})
    && (view.noticeRequired
        <==> exists i :: && HasStatus(s.grants, i, key, ACTIVE) && Supersedes(s, current, s.grants[i].versionId)
                         && s.versions[current.value].classification == Some(Notice))
    && (view.noticeRequired ==> view.state == ActiveConsent)
    && (forall i :: HasStatus(s.grants, i, key, ACTIVE) ==> view.grantId == Some(s.grants[i].id))
    && (view.state == NoGrant ==> view.grantId == None)
    && (view.state == WithdrawnConsent ==>
          exists i :: && HasStatus(s.grants, i, key, WITHDRAWN) && view.grantId == Some(s.grants[i].id)
                      && forall j :: HasStatus(s.grants, j, key, WITHDRAWN) ==> j <= i)
  }

  lemma ViewOfGrant(s: State, key: Key, current: Option<VersionId>)
    requires GrantsHold(s.grants) && MeetsContract(s.grants, key, LatestResolutionGrant(s.grants, key))
    ensures var grant := LatestResolutionGrant(s.grants, key);
            ViewFits(s, key, current, ResolveStatus(grant, EffectiveAtOf(s, grant), VersionOf(s, current)))
  {
    if i :| HasStatus(s.grants, i, key, ACTIVE) {
      ActiveGrantAnswers(s.grants, key, i);
      forall k | HasStatus(s.grants, k, key, ACTIVE) ensures k == i {
        assert IsLast(s.grants, i) && IsLast(s.grants, k);
      }
      ActiveViewFits(s, key, current, i);
    } else {
      assert forall i :: HasStatus(s.grants, i, key, WITHDRAWN) <==>
                           0 <= i < |s.grants| && s.grants[i].key == key && s.grants[i].status == WITHDRAWN;
      assert forall i :: HasStatus(s.grants, i, key, ACTIVE) <==>
                           0 <= i < |s.grants| && s.grants[i].key == key && s.grants[i].status == ACTIVE;
      if i :| HasStatus(s.grants, i, key, WITHDRAWN) {
        var last :| && 0 <= last < |s.grants| && LatestResolutionGrant(s.grants, key) == Some(s.grants[last])
                    && HasStatus(s.grants, last, key, WITHDRAWN)
                    && forall j :: last < j < |s.grants| && s.grants[j].key == key ==> s.grants[j].status != WITHDRAWN;
      }
    }
  }

  lemma ActiveViewFits(s: State, key: Key, current: Option<VersionId>, i: int)
    requires HasStatus(s.grants, i, key, ACTIVE) && forall k :: HasStatus(s.grants, k, key, ACTIVE) ==> k == i
    ensures ViewFits(s, key, current, ResolveStatus(Some(s.grants[i]), EffectiveAtOf(s, Some(s.grants[i])),
        VersionOf(s, current)))
  {
    var g := s.grants[i];
    var view := ResolveStatus(Some(g), EffectiveAtOf(s, Some(g)), VersionOf(s, current));
    assert VersionOf(s, current).Some? ==> VersionOf(s, current).value == (current.value, s.versions[current.value]);
  }

  /** With a clock that never goes back: the exact view where one document covers. */
  lemma StatusIsExact(
    steps: seq<Step>, subject: Subject, entity: Entity, purpose: string, jurisdiction: Option<string>,
        current: Option<VersionId>,
    d: nat)
    requires ClockNeverGoesBack(steps) && OnlyCovering(Run(steps).documents, d, entity, purpose, jurisdiction)
    ensures var s := Run(steps);
            var status := OwnStatus(s, subject, Some(entity), purpose, jurisdiction, current);
            && status.Ok?
            && ViewFits(s, Key(subject, entity, purpose, s.documents[d].jurisdiction), current, status.value)
  {
    var s := Run(steps);
    RunKeepsGrants(steps);
    CoveringCounts(s.documents, entity, purpose, jurisdiction);
    assert Covering(s.documents, entity, purpose, jurisdiction) == [d];
    var key := Key(subject, entity, purpose, s.documents[d].jurisdiction);
    QueryMeetsContract(steps, key);
    ViewOfGrant(s, key, current);
  }

  /** The version is published of the document, and in effect by then. */
  predicate InEffect(v: Version, document: DocumentId, at: Time) {
    v.document == document && v.publishedAt != None && v.effectiveAt != None && v.effectiveAt.value <= at
  }

  /** The version in force is exactly the one published and in effect that none follows by
      effective instant, then by publication; there is none exactly when nothing is in effect. */
  lemma CurrentIsTheLatestInEffect(versions: map<VersionId, Version>, document: DocumentId, at: Time,
      current: Option<VersionId>)
    ensures IsCurrent(versions, document, at, current)
       <==> match current
            case Some(id) =>
              && id in versions && InEffect(versions[id], document, at)
              && forall k :: k in versions && InEffect(versions[k], document, at) ==>
                   || versions[k].effectiveAt.value < versions[id].effectiveAt.value
                   || (versions[k].effectiveAt.value == versions[id].effectiveAt.value
                       && versions[k].publishedAt.value <= versions[id].publishedAt.value)
            case None => forall k :: k in versions ==> !InEffect(versions[k], document, at)
  {
    assert forall k :: k in versions ==> (InForce(versions[k], document, at) <==> InEffect(versions[k], document, at));
  }

  /** Every refusal to serve, by its condition; and what is served otherwise. */
  lemma ServesExactly(
    s: State, entity: Option<Entity>, documentId: DocumentId, current: Option<VersionId>, content: Option<Content>,
    sha256: string -> string)
    ensures var served := Serve(s, entity, documentId, current, content, sha256);
            if entity == None then served == Err(NoEntity)
            else if documentId >= |s.documents| || Some(s.documents[documentId].entity) != entity then served == Err(NotFound)
            else if current == None || current.value !in s.versions then served == Err(NoEffectiveVersion)
            else if content == None then served == Err(NotRetrievable)
            else if Trim(content.value.language) == "" then served == Err(LanguageNotStated)
            else
              var v := s.versions[current.value];
              if Lower(sha256(content.value.text)) != Lower(v.contentHash) then served == Err(IntegrityMismatch)
              else && served.Ok? && served.value.documentId == documentId && served.value.versionId == current.value
                   && served.value.version == v.version && served.value.contentHash == v.contentHash
                   && served.value.effectiveAt == v.effectiveAt && served.value.language == content.value.language
                   && served.value.content == content.value.text
  {
    if content.Some? {
      BlankTrimsToNothing(content.value.language);
    }
  }
}
