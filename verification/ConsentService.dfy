/** The consent use cases: checks, one store write, one record, with other callers'
    steps before every port call
    (modules/consent/application/use-cases/consent.ts, legal-documents.ts). */
module ConsentService {
  import opened Results
  import opened Strings
  import opened Consent
  import opened ConsentStatus

  datatype AuditEvent =
    | GrantRecorded(id: GrantId, superseded: seq<GrantId>)
    | GrantWithdrawn(id: GrantId)
    | VersionDrafted(id: VersionId)
    | VersionClassified(id: VersionId, before: Option<Classification>, after: Classification)
    | VersionPublished(id: VersionId, effectiveAt: Time)

  datatype Failure =
    | NotFound | StoreFailure | AuditAppendFailed | InvalidInput | AuthorizationDenied
    | VersionNotPublished | PurposeNotCovered | NoEntity | DocumentNotApplicable
    | GrantNotActive(status: GrantStatus)
    | VersionImmutable | UnclassifiedPublicationBlocked

  function FindOwn(grants: seq<Grant>, subject: Subject, id: GrantId): Option<Grant> {
    var i := IndexOf(grants, id);
    if 0 <= i < |grants| && grants[i].key.subject == subject then Some(grants[i]) else None
  }

  /** The ids an acceptance for the key supersedes, in order. */
  function ActiveIds(grants: seq<Grant>, key: Key): seq<GrantId> {
    if grants == [] then []
    else
      var last := grants[|grants| - 1];
      ActiveIds(grants[..|grants| - 1], key) + if last.key == key && last.status == ACTIVE then [last.id] else []
  }

  lemma {:induction false} ActiveIdsExactly(grants: seq<Grant>, key: Key, id: GrantId)
    ensures id in ActiveIds(grants, key)
       <==> exists i :: 0 <= i < |grants| && grants[i].id == id && grants[i].key == key && grants[i].status == ACTIVE
  {
    if grants != [] {
      var front := grants[..|grants| - 1];
      ActiveIdsExactly(front, key, id);
      assert forall i :: 0 <= i < |front| ==> front[i] == grants[i];
    }
  }

  /** The id, or the version string among the document's, is in use. */
  ghost predicate Taken(s: State, id: VersionId, document: DocumentId, version: string) {
    id in s.versions || exists k :: k in s.versions && s.versions[k].document == document && s.versions[k].version == version
  }

  /** ids are the key's ACTIVE grants before, and superseded after. */
  ghost predicate Superseding(before: seq<Grant>, after: seq<Grant>, key: Key, ids: seq<GrantId>) {
    && (forall i :: 0 <= i < |before| ==> (before[i].id in ids <==> before[i].key == key && before[i].status == ACTIVE))
    && forall i :: 0 <= i < |after| && after[i].id in ids ==> after[i].status == SUPERSEDED
  }

  class Service {
    const foreign: nat -> seq<Step>
    const works: nat -> bool
    ghost var steps: seq<Step>
    ghost var own: seq<Step>
    var state: State
    var audit: seq<AuditEvent>
    var portCalls: nat

    constructor (foreign: nat -> seq<Step>, works: nat -> bool)
      ensures Valid() && state == Empty && own == [] && audit == [] && this.foreign == foreign && this.works == works
    {
      this.foreign, this.works := foreign, works;
      steps, own, state, audit, portCalls := [], [], Empty, [], 0;
    }

    /** The state is the outcome of the run of everybody's steps; own are ours. */
    ghost predicate Valid()
      reads this
    {
      state == Run(steps)
    }

    method Take(step: Step)
      requires Valid()
      modifies this`steps, this`state
      ensures Valid() && state == Apply(old(state), step) && steps == old(steps) + [step]
      ensures Grows(old(state), state)
    {
      RunAppends(steps, step);
      StepGrows(state, step);
      steps := steps + [step];
      state := Apply(state, step);
    }

    /** What others do before the next port call. */
    method Interleave()
      requires Valid()
      modifies this`steps, this`state
      ensures Valid() && Grows(old(state), state)
    {
      var others := foreign(portCalls);
      for i := 0 to |others|
        invariant Valid() && Grows(old(state), state)
      {
        ghost var before := state;
        Take(others[i]);
        GrowsTransitive(old(state), before, state);
      }
    }

    /** One step of ours, at the end of the run so far. */
    method Write(step: Step)
      requires Valid()
      modifies this`steps, this`state, this`own, this`portCalls
      ensures Valid() && state == Apply(old(state), step) && own == old(own) + [step] && Grows(old(state), state)
      ensures portCalls == old(portCalls) + 1
    {
      Take(step);
      own := own + [step];
      portCalls := portCalls + 1;
    }

    /** False when the record could not be appended. */
    method Record(event: AuditEvent) returns (ok: bool)
      requires Valid()
      modifies this`steps, this`state, this`audit, this`portCalls
      ensures Valid() && Grows(old(state), state)
      ensures ok == works(old(portCalls)) && portCalls == old(portCalls) + 1
      ensures audit == if ok then old(audit) + [event] else old(audit)
    {
      Interleave();
      ok := works(portCalls);
      if ok {
        audit := audit + [event];
      }
      portCalls := portCalls + 1;
    }

    /** The version and its document, as they stand; Err is the store's throw. */
    method ReadVersion(id: VersionId) returns (read: Result<Option<Version>, ()>)
      requires Valid()
      modifies this`steps, this`state, this`portCalls
      ensures Valid() && Grows(old(state), state) && portCalls == old(portCalls) + 1
      ensures read.Ok? <==> works(old(portCalls))
      ensures read.Ok? ==> (read.value.Some? <==> id in state.versions)
      ensures read.Ok? && read.value.Some? ==>
                state.versions[id] == read.value.value && read.value.value.document < |state.documents|
    {
      Interleave();
      RunKeepsDocuments(steps);
      read := if !works(portCalls) then Err(())
              else if id in state.versions then Ok(Some(state.versions[id])) else Ok(None);
      portCalls := portCalls + 1;
    }

    /** Whether there is such a document; Err is the store's throw. */
    method FindDocument(id: DocumentId) returns (read: Result<bool, ()>)
      requires Valid()
      modifies this`steps, this`state, this`portCalls
      ensures Valid() && Grows(old(state), state) && portCalls == old(portCalls) + 1
      ensures read == if works(old(portCalls)) then Ok(id < |state.documents|) else Err(())
    {
      Interleave();
      read := if works(portCalls) then Ok(id < |state.documents|) else Err(());
      portCalls := portCalls + 1;
    }

    /** entity: what the directory answers. found, met: the store as the call read it, and
        as its write met it. A grant returned is the one created, pins the version
        accepted, and is on record with the ids it superseded, which are those ACTIVE in
        the store the write met; every refusal has its one condition. */
    method RecordOwnAcceptance(
      subject: Subject, versionId: VersionId, purpose: string, evidence: string, entity: Option<Entity>, newId: GrantId,
          now: Time)
      returns (result: Result<Grant, Failure>, ghost found: State, ghost met: State)
      requires Valid()
      modifies this
      ensures Valid() && Grows(old(state), found) && Grows(found, met) && Grows(met, state)
      ensures if Blank(evidence) then result == Err(InvalidInput)
              else if !works(old(portCalls)) then result == Err(StoreFailure)
              else if versionId !in found.versions then result == Err(Failure.NotFound)
              else if found.versions[versionId].publishedAt == None then result == Err(VersionNotPublished)
              else if found.versions[versionId].document >= |found.documents| then false
              else
                var document := found.documents[found.versions[versionId].document];
                if purpose !in document.purposes then result == Err(PurposeNotCovered)
                else if entity == None then result == Err(Failure.NoEntity)
                else if entity != Some(document.entity) then result == Err(DocumentNotApplicable)
                else if !works(old(portCalls) + 1) || HasId(met.grants, newId) then result == Err(StoreFailure)
                else if works(old(portCalls) + 2) then
                  result == Ok(Grant(newId, Key(subject, document.entity, purpose, document.jurisdiction),
                                     found.versions[versionId].version, versionId, now, None, ACTIVE))
                else result == Err(AuditAppendFailed)
      ensures result.Ok? ==>
                && var g := result.value;
                   && g.id == newId && g.key.subject == subject && g.key.purpose == purpose && Some(g.key.entity) == entity
                   && g.versionId == versionId && g.grantedAt == now && g.status == ACTIVE && g.withdrawnAt.None?
                   && Pins(state, g) && HasId(state.grants, newId)
                   && own == old(own) + [Accept(newId, subject, g.key.entity, versionId, purpose, now)]
                   && audit == old(audit) + [GrantRecorded(newId, ActiveIds(met.grants, g.key))]
      ensures result.Err? && result.error != AuditAppendFailed ==> own == old(own) && audit == old(audit)
      ensures result == Err(AuditAppendFailed) ==> audit == old(audit) && |own| == |old(own)| + 1
    {
      found, met := state, state;
      if Blank(evidence) {
        return Err(InvalidInput), found, met;
      }
      var read := ReadVersion(versionId);
      found, met := state, state;
      if read.Err? {
        return Err(StoreFailure), found, met;
      }
      if read.value.None? {
        return Err(Failure.NotFound), found, met;
      }
      var version := read.value.value;
      if !Published(version) {
        return Err(VersionNotPublished), found, met;
      }
      var document := state.documents[version.document];
      if purpose !in document.purposes {
        return Err(PurposeNotCovered), found, met;
      }
      if entity.None? {
        return Err(Failure.NoEntity), found, met;
      }
      if entity.value != document.entity {
        return Err(DocumentNotApplicable), found, met;
      }
      var grant := Grant(newId, Key(subject, document.entity, purpose, document.jurisdiction),
                         version.version, versionId, now, None, ACTIVE);
      result, met := AcceptAndRecord(grant);
    }

    /** The write and its record: the grant created, or what went wrong. */
    method AcceptAndRecord(grant: Grant) returns (result: Result<Grant, Failure>, ghost met: State)
      requires Valid()
      requires CanAccept(state, grant.key.entity, grant.versionId, grant.key.purpose)
      requires grant == GrantOf(state, grant.id, grant.key.subject, grant.versionId, grant.key.purpose, grant.grantedAt)
      modifies this
      ensures Valid() && Grows(old(state), met) && Grows(met, state)
      ensures result == if !works(old(portCalls)) || HasId(met.grants, grant.id) then Err(StoreFailure)
                        else if works(old(portCalls) + 1) then Ok(grant) else Err(AuditAppendFailed)
      ensures result.Ok? ==> Pins(state, grant) && HasId(state.grants, grant.id)
      ensures own == if result == Err(StoreFailure) then old(own)
                     else old(own) + [Accept(grant.id, grant.key.subject, grant.key.entity, grant.versionId,
                                             grant.key.purpose, grant.grantedAt)]
      ensures audit == if result.Ok? then old(audit) + [GrantRecorded(grant.id, ActiveIds(met.grants, grant.key))]
                       else old(audit)
    {
      var superseded: Option<seq<GrantId>>;
      superseded, met := RecordAcceptance(grant);
      if superseded.None? {
        return Err(StoreFailure), met;
      }
      ghost var written := state;
      var audited := Record(GrantRecorded(grant.id, superseded.value));
      PinStays(written, state, grant);
      assert Succeeds(written.grants[|written.grants| - 1], state.grants[|written.grants| - 1]);
      GrowsTransitive(met, written, state);
      return if audited then Ok(grant) else Err(AuditAppendFailed), met;
    }

    /** The store's one transaction, over the store it met: the key's ACTIVE grants, all
        of them, superseded and answered, the new one created. None: it threw. */
    method RecordAcceptance(grant: Grant) returns (superseded: Option<seq<GrantId>>, ghost met: State)
      requires Valid()
      requires CanAccept(state, grant.key.entity, grant.versionId, grant.key.purpose)
      requires grant == GrantOf(state, grant.id, grant.key.subject, grant.versionId, grant.key.purpose, grant.grantedAt)
      modifies this`steps, this`state, this`own, this`portCalls
      ensures Valid()
      ensures Grows(old(state), met) && Grows(met, state) && portCalls == old(portCalls) + 1
      ensures superseded.Some? <==> works(old(portCalls)) && !HasId(met.grants, grant.id)
      ensures superseded.None? ==> own == old(own)
      ensures superseded.Some? ==>
                && own == old(own) + [Accept(grant.id, grant.key.subject, grant.key.entity, grant.versionId,
                    grant.key.purpose, grant.grantedAt)]
                && |state.grants| > 0 && state.grants[|state.grants| - 1] == grant && Pins(state, grant)
                && state.grants == Accepted(met.grants, grant) && superseded.value == ActiveIds(met.grants, grant.key)
                && Superseding(met.grants, state.grants, grant.key, superseded.value)
    {
      ghost var checked := state;
      Interleave();
      PublishedVersionStands(checked, state, grant.versionId);
      if !works(portCalls) || HasId(state.grants, grant.id) {
        portCalls := portCalls + 1;
        return None, state;
      }
      met := state;
      var ids := Create(grant);
      return Some(ids), met;
    }

    /** The transaction once it goes through. */
    method Create(grant: Grant) returns (superseded: seq<GrantId>)
      requires Valid() && !HasId(state.grants, grant.id)
      requires CanAccept(state, grant.key.entity, grant.versionId, grant.key.purpose)
      requires grant == GrantOf(state, grant.id, grant.key.subject, grant.versionId, grant.key.purpose, grant.grantedAt)
      modifies this`steps, this`state, this`own, this`portCalls
      ensures Valid() && Grows(old(state), state) && portCalls == old(portCalls) + 1
      ensures own == old(own) + [Accept(grant.id, grant.key.subject, grant.key.entity, grant.versionId,
                                        grant.key.purpose, grant.grantedAt)]
      ensures |state.grants| > 0 && state.grants[|state.grants| - 1] == grant && Pins(state, grant)
      ensures state.grants == Accepted(old(state.grants), grant)
      ensures superseded == ActiveIds(old(state.grants), grant.key)
      ensures Superseding(old(state.grants), state.grants, grant.key, superseded)
    {
      superseded := ActiveIds(state.grants, grant.key);
      RunKeepsGrants(steps);
      SupersededOnes(state.grants, grant, superseded);
      Write(Accept(grant.id, grant.key.subject, grant.key.entity, grant.versionId, grant.key.purpose, grant.grantedAt));
    }

    /** found, met: the store as the call read it, and as its write met it. A grant found
        ACTIVE is withdrawn exactly if the ports answer and the write still meets it
        ACTIVE, granted no later than now. */
    method WithdrawOwnConsent(subject: Subject, grantId: GrantId, now: Time)
      returns (result: Result<Grant, Failure>, ghost found: State, ghost met: State)
      requires Valid()
      modifies this
      ensures Valid() && Grows(old(state), found) && Grows(found, met) && Grows(met, state)
      ensures !works(old(portCalls)) ==> result == Err(StoreFailure)
      ensures works(old(portCalls)) ==>
                match FindOwn(found.grants, subject, grantId)
                case None => result == Err(Failure.NotFound)
                case Some(grant) =>
                  if grant.status != ACTIVE then result == Err(GrantNotActive(grant.status))
                  else if !works(old(portCalls) + 1)
                          || !Withdrawable(met.grants, subject, IndexOf(met.grants, grantId), now) then
                    result == Err(StoreFailure)
                  else if works(old(portCalls) + 2) then result.Ok?
                  else result == Err(AuditAppendFailed)
      ensures result.Ok? ==>
                && result.value.id == grantId && result.value.key.subject == subject
                && result.value.status == WITHDRAWN && result.value.withdrawnAt == Some(now)
                && result.value in state.grants
                && own == old(own) + [Withdraw(subject, grantId, now)]
                && audit == old(audit) + [GrantWithdrawn(grantId)]
      ensures result.Err? && result.error != AuditAppendFailed ==> own == old(own) && audit == old(audit)
      ensures result == Err(AuditAppendFailed) ==> audit == old(audit) && own == old(own) + [Withdraw(subject, grantId, now)]
    {
      var read := FindById(subject, grantId);
      found, met := state, state;
      if read.Err? {
        return Err(StoreFailure), found, met;
      }
      var grant := read.value;
      if grant.None? {
        return Err(Failure.NotFound), found, met;
      }
      if grant.value.status != ACTIVE {
        return Err(GrantNotActive(grant.value.status)), found, met;
      }
      var withdrawn := grant.value.(status := WITHDRAWN, withdrawnAt := Some(now));
      var done: bool;
      done, met := StoreWithdrawal(grant.value, now);
      if !done {
        return Err(StoreFailure), found, met;
      }
      ghost var i :| 0 <= i < |state.grants| && state.grants[i] == withdrawn;
      ghost var written := state;
      var audited := Record(GrantWithdrawn(grantId));
      assert Succeeds(written.grants[i], state.grants[i]);
      GrowsTransitive(met, written, state);
      return if audited then Ok(withdrawn) else Err(AuditAppendFailed), found, met;
    }

    /** Err is the store's throw. */
    method FindById(subject: Subject, grantId: GrantId) returns (read: Result<Option<Grant>, ()>)
      requires Valid()
      modifies this`steps, this`state, this`portCalls
      ensures Valid() && Grows(old(state), state) && portCalls == old(portCalls) + 1
      ensures read == if works(old(portCalls)) then Ok(FindOwn(state.grants, subject, grantId)) else Err(())
      ensures read.Ok? && read.value.Some? ==> read.value.value.id == grantId && read.value.value.key.subject == subject
    {
      Interleave();
      IndexOfFinds(state.grants, grantId);
      read := if works(portCalls) then Ok(FindOwn(state.grants, subject, grantId)) else Err(());
      portCalls := portCalls + 1;
    }

    /** The store's update, which its trigger and checks refuse unless the grant is still
        ACTIVE and was granted by now. */
    method StoreWithdrawal(grant: Grant, now: Time) returns (done: bool, ghost met: State)
      requires Valid() && FindOwn(state.grants, grant.key.subject, grant.id) == Some(grant) && grant.status == ACTIVE
      modifies this`steps, this`state, this`own, this`portCalls
      ensures Valid() && Grows(old(state), met) && Grows(met, state) && portCalls == old(portCalls) + 1
      ensures done <==>
                && works(old(portCalls))
                && Withdrawable(met.grants, grant.key.subject, IndexOf(met.grants, grant.id), now)
      ensures !done ==> own == old(own)
      ensures done ==>
                && own == old(own) + [Withdraw(grant.key.subject, grant.id, now)]
                && grant.(status := WITHDRAWN, withdrawnAt := Some(now)) in state.grants
    {
      ghost var checked := state;
      Interleave();
      met := state;
      RunKeepsGrants(steps);
      StillThere(checked, state, grant);
      var i := IndexOf(state.grants, grant.id);
      if !works(portCalls) || state.grants[i].status != ACTIVE || now < grant.grantedAt {
        portCalls := portCalls + 1;
        return false, met;
      }
      WithdrawalStores(state, grant, i, now);
      Write(Withdraw(grant.key.subject, grant.id, now));
      return true, met;
    }

    /** found, met: the store as the call read it, and as its write met it. */
    method DraftDocumentVersion(
      authorized: bool, id: VersionId, document: DocumentId, version: string, contentHash: string)
      returns (result: Result<Version, Failure>, ghost found: State, ghost met: State)
      requires Valid()
      modifies this
      ensures Valid() && Grows(old(state), found) && Grows(found, met) && Grows(met, state)
      ensures if !authorized then result == Err(AuthorizationDenied) && portCalls == old(portCalls)
              else if !works(old(portCalls)) then result == Err(StoreFailure)
              else if document >= |found.documents| then result == Err(Failure.NotFound)
              else if Blank(version) || Blank(contentHash) then result == Err(InvalidInput)
              else if !works(old(portCalls) + 1) || Taken(met, id, document, version) then result == Err(StoreFailure)
              else if works(old(portCalls) + 2) then result.Ok?
              else result == Err(AuditAppendFailed)
      ensures result == Err(AuditAppendFailed) ==>
                audit == old(audit) && own == old(own) + [Draft(id, document, version, contentHash)]
      ensures result.Ok? ==>
                && result.value == Version(document, version, contentHash, None, None, None)
                && own == old(own) + [Draft(id, document, version, contentHash)] && audit == old(audit) + [VersionDrafted(id)]
                && id in state.versions && SameText(result.value, state.versions[id])
      ensures result.Err? && result.error != AuditAppendFailed ==> own == old(own) && audit == old(audit)
    {
      found, met := state, state;
      if !authorized {
        return Err(AuthorizationDenied), found, met;
      }
      var read := FindDocument(document);
      found, met := state, state;
      if read.Err? {
        return Err(StoreFailure), found, met;
      }
      if !read.value {
        return Err(Failure.NotFound), found, met;
      }
      if Blank(version) || Blank(contentHash) {
        return Err(InvalidInput), found, met;
      }
      var done: bool;
      done, met := InsertVersion(id, document, version, contentHash);
      if !done {
        return Err(StoreFailure), found, met;
      }
      var audited := Record(VersionDrafted(id));
      return if audited then Ok(Version(document, version, contentHash, None, None, None)) else Err(AuditAppendFailed),
          found, met;
    }

    /** False when the insert throws: the id or the document's version string is taken. */
    method InsertVersion(id: VersionId, document: DocumentId, version: string, contentHash: string)
      returns (done: bool, ghost met: State)
      requires Valid() && document < |state.documents|
      modifies this`steps, this`state, this`own, this`portCalls
      ensures Valid() && Grows(old(state), met) && Grows(met, state) && portCalls == old(portCalls) + 1
      ensures done <==> works(old(portCalls)) && !Taken(met, id, document, version)
      ensures !done ==> own == old(own)
      ensures done ==>
                && own == old(own) + [Draft(id, document, version, contentHash)]
                && id in state.versions && state.versions[id] == Version(document, version, contentHash, None, None, None)
    {
      Interleave();
      met := state;
      if !works(portCalls) || !CanDraft(state, id, document, version) {
        portCalls := portCalls + 1;
        return false, met;
      }
      Write(Draft(id, document, version, contentHash));
      return true, met;
    }

    /** found, met: the store as the call read it, and as its write met it. */
    method ClassifyDocumentVersion(
      authorized: bool, id: VersionId, classification: Classification, reviewer: string, reason: string)
      returns (result: Result<(), Failure>, ghost found: State, ghost met: State)
      requires Valid()
      modifies this
      ensures Valid() && Grows(old(state), found) && Grows(found, met) && Grows(met, state)
      ensures if Blank(reviewer) || Blank(reason) then result == Err(InvalidInput)
              else if !authorized then result == Err(AuthorizationDenied)
              else if !works(old(portCalls)) then result == Err(StoreFailure)
              else if id !in found.versions then result == Err(Failure.NotFound)
              else if found.versions[id].publishedAt != None then result == Err(VersionImmutable)
              else if id !in met.versions then false
              else if !works(old(portCalls) + 1) || met.versions[id].publishedAt != None then result == Err(StoreFailure)
              else if works(old(portCalls) + 2) then
                && result == Ok(())
                && audit == old(audit) + [VersionClassified(id, found.versions[id].classification, classification)]
              else result == Err(AuditAppendFailed)
      ensures result == Err(AuditAppendFailed) ==> audit == old(audit) && own == old(own) + [Classify(id, classification)]
      ensures result.Ok? ==>
                && id in state.versions && own == old(own) + [Classify(id, classification)]
                && |audit| == |old(audit)| + 1 && audit[..|old(audit)|] == old(audit)
                && audit[|old(audit)|].VersionClassified? && audit[|old(audit)|].id == id
                && audit[|old(audit)|].after == classification
      ensures result.Err? && result.error != AuditAppendFailed ==> own == old(own) && audit == old(audit)
    {
      found, met := state, state;
      if Blank(reviewer) || Blank(reason) {
        return Err(InvalidInput), found, met;
      }
      if !authorized {
        return Err(AuthorizationDenied), found, met;
      }
      var read := ReadVersion(id);
      found, met := state, state;
      if read.Err? {
        return Err(StoreFailure), found, met;
      }
      if read.value.None? {
        return Err(Failure.NotFound), found, met;
      }
      if Published(read.value.value) {
        return Err(VersionImmutable), found, met;
      }
      var done: bool;
      done, met := StoreClassification(id, classification);
      if !done {
        return Err(StoreFailure), found, met;
      }
      ghost var written := state;
      var audited := Record(VersionClassified(id, read.value.value.classification, classification));
      GrowsTransitive(met, written, state);
      return if audited then Ok(()) else Err(AuditAppendFailed), found, met;
    }

    /** The store's update, which its trigger refuses once the version is published. */
    method StoreClassification(id: VersionId, classification: Classification) returns (done: bool, ghost met: State)
      requires Valid() && id in state.versions
      modifies this`steps, this`state, this`own, this`portCalls
      ensures Valid() && Grows(old(state), met) && Grows(met, state) && portCalls == old(portCalls) + 1
      ensures id in met.versions && (done <==> works(old(portCalls)) && met.versions[id].publishedAt == None)
      ensures own == if done then old(own) + [Classify(id, classification)] else old(own)
    {
      Interleave();
      met := state;
      if !works(portCalls) || Published(state.versions[id]) {
        portCalls := portCalls + 1;
        return false, met;
      }
      Write(Classify(id, classification));
      return true, met;
    }

    /** found, met: the store as the call read it, and as its write met it. A version
        returned is published for good, classified, at the instant asked for. */
    method PublishDocumentVersion(authorized: bool, id: VersionId, effectiveAt: Option<Time>, now: Time)
      returns (result: Result<Version, Failure>, ghost found: State, ghost met: State)
      requires Valid()
      modifies this
      ensures Valid() && Grows(old(state), found) && Grows(found, met) && Grows(met, state)
      ensures if !authorized then result == Err(AuthorizationDenied) && portCalls == old(portCalls)
              else if !works(old(portCalls)) then result == Err(StoreFailure)
              else if id !in found.versions then result == Err(Failure.NotFound)
              else if found.versions[id].publishedAt != None then result == Err(VersionImmutable)
              else if found.versions[id].classification == None then result == Err(UnclassifiedPublicationBlocked)
              else if id !in met.versions then false
              else if !works(old(portCalls) + 1) || met.versions[id].publishedAt != None then result == Err(StoreFailure)
              else if works(old(portCalls) + 2) then
                var at := if effectiveAt.Some? then effectiveAt.value else now;
                result == Ok(found.versions[id].(effectiveAt := Some(at), publishedAt := Some(now)))
              else result == Err(AuditAppendFailed)
      ensures result == Err(AuditAppendFailed) ==>
                audit == old(audit)
                && own == old(own) + [Publish(id, if effectiveAt.Some? then effectiveAt.value else now, now)]
      ensures result.Ok? ==>
                && var at := if effectiveAt.Some? then effectiveAt.value else now;
                   && result.value.effectiveAt == Some(at) && result.value.publishedAt == Some(now)
                   && result.value.classification.Some?
                   && own == old(own) + [Publish(id, at, now)] && audit == old(audit) + [VersionPublished(id, at)]
                   && id in state.versions && SameText(result.value, state.versions[id])
                   && state.versions[id].effectiveAt == Some(at) && state.versions[id].publishedAt == Some(now)
                   && state.versions[id].classification.Some?
      ensures result.Err? && result.error != AuditAppendFailed ==> own == old(own) && audit == old(audit)
    {
      found, met := state, state;
      if !authorized {
        return Err(AuthorizationDenied), found, met;
      }
      var read := ReadVersion(id);
      found, met := state, state;
      if read.Err? {
        return Err(StoreFailure), found, met;
      }
      if read.value.None? {
        return Err(Failure.NotFound), found, met;
      }
      var version := read.value.value;
      var refusal := VersionMayPublish(version);
      if refusal.Some? {
        return Err(if refusal.value == Unclassified then UnclassifiedPublicationBlocked else VersionImmutable), found, met;
      }
      var at := if effectiveAt.Some? then effectiveAt.value else now;
      var done: bool;
      done, met := PublishVersion(id, at, now);
      if !done {
        return Err(StoreFailure), found, met;
      }
      ghost var written := state;
      var audited := Record(VersionPublished(id, at));
      GrowsTransitive(met, written, state);
      var published := version.(effectiveAt := Some(at), publishedAt := Some(now));
      return if audited then Ok(published) else Err(AuditAppendFailed), found, met;
    }

    /** The store's update, which its trigger refuses once the version is published. */
    method PublishVersion(id: VersionId, effectiveAt: Time, now: Time)
      returns (done: bool, ghost met: State)
      requires Valid() && CanPublish(state, id)
      modifies this`steps, this`state, this`own, this`portCalls
      ensures Valid() && Grows(old(state), met) && Grows(met, state) && portCalls == old(portCalls) + 1
      ensures id in met.versions && (done <==> works(old(portCalls)) && met.versions[id].publishedAt == None)
      ensures !done ==> own == old(own)
      ensures done ==>
                && own == old(own) + [Publish(id, effectiveAt, now)] && id in state.versions
                && SameText(old(state.versions[id]), state.versions[id]) && state.versions[id].classification.Some?
                && state.versions[id].effectiveAt == Some(effectiveAt) && state.versions[id].publishedAt == Some(now)
    {
      Interleave();
      met := state;
      if !works(portCalls) || Published(state.versions[id]) {
        portCalls := portCalls + 1;
        return false, met;
      }
      Write(Publish(id, effectiveAt, now));
      return true, met;
    }
  }

  /** The ids a store answers as superseded were the ACTIVE ones and are superseded. */
  lemma SupersededOnes(grants: seq<Grant>, grant: Grant, ids: seq<GrantId>)
    requires GrantsHold(grants) && !HasId(grants, grant.id) && ids == ActiveIds(grants, grant.key)
    ensures Superseding(grants, Accepted(grants, grant), grant.key, ids)
  {
    forall i | 0 <= i < |grants|
      ensures grants[i].id in ids <==> grants[i].key == grant.key && grants[i].status == ACTIVE {
      ActiveIdsExactly(grants, grant.key, grants[i].id);
    }
    forall i | 0 <= i < |grants| + 1 && Accepted(grants, grant)[i].id in ids
      ensures Accepted(grants, grant)[i].status == SUPERSEDED {
      ActiveIdsExactly(grants, grant.key, Accepted(grants, grant)[i].id);
      var j :| 0 <= j < |grants| && grants[j].id == Accepted(grants, grant)[i].id && grants[j].key == grant.key
          && grants[j].status == ACTIVE;
      assert i < |grants| ==> grants[i].id == grants[j].id;
    }
  }

  /** A grant found ACTIVE keeps its place, and is the same for as long as it is ACTIVE. */
  lemma StillThere(s: State, t: State, grant: Grant)
    requires Grows(s, t) && GrantsHold(t.grants)
    requires FindOwn(s.grants, grant.key.subject, grant.id) == Some(grant) && grant.status == ACTIVE
    ensures var i := IndexOf(t.grants, grant.id);
            && 0 <= i < |t.grants| && SamePins(grant, t.grants[i]) && (t.grants[i].status == ACTIVE ==> t.grants[i] == grant)
  {
    IndexStays(s, t, grant.id);
    var i := IndexOf(s.grants, grant.id);
    assert Succeeds(s.grants[i], t.grants[i]);
  }

  lemma WithdrawalStores(s: State, grant: Grant, i: nat, now: Time)
    requires i < |s.grants| && IndexOf(s.grants, grant.id) == i && s.grants[i] == grant
    requires grant.status == ACTIVE && grant.grantedAt <= now
    ensures var t := Apply(s, Withdraw(grant.key.subject, grant.id, now));
            grant.(status := WITHDRAWN, withdrawnAt := Some(now)) in t.grants
  {
    var t := Apply(s, Withdraw(grant.key.subject, grant.id, now));
    assert t.grants[i] == grant.(status := WITHDRAWN, withdrawnAt := Some(now));
  }

  /** A grant keeps its place. */
  lemma IndexStays(s: State, t: State, id: GrantId)
    requires Grows(s, t) && GrantsHold(t.grants) && 0 <= IndexOf(s.grants, id) < |s.grants|
    ensures IndexOf(t.grants, id) == IndexOf(s.grants, id)
  {
    IndexOfFinds(s.grants, id);
    IndexOfFinds(t.grants, id);
    var i, j := IndexOf(s.grants, id), IndexOf(t.grants, id);
    assert Succeeds(s.grants[i], t.grants[i]);
    assert HasId(t.grants, id);
  }

  lemma PublishedVersionStands(s: State, t: State, id: VersionId)
    requires Grows(s, t) && id in s.versions && Published(s.versions[id]) && s.versions[id].document < |s.documents|
    ensures id in t.versions && t.versions[id] == s.versions[id]
    ensures t.versions[id].document < |t.documents|
        && t.documents[t.versions[id].document] == s.documents[s.versions[id].document]
  {
    assert t.documents[..|s.documents|][s.versions[id].document] == s.documents[s.versions[id].document];
  }
}
