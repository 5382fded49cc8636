/** The resolver over its ports: lazily assembled snapshots and the audit of
    refused expansions
    (modules/capability/application/use-cases/resolve-capability-availability.ts). */
module CapabilityResolver {
  import opened Results
  import opened CapabilityResolution
  import opened Registry

  datatype Subject = Subject(tenant: string, user: Option<string>)

  /** What each port answers during one call; None is a throw. */
  datatype Ports = Ports(
    ceiling: Option<Ceiling>,
    availability: (Option<string>, string) -> Option<Availability>,
    entitlement: (string, string, string) -> Option<Entitlement>,
    consent: (string, string, string, string) -> Option<ConsentFacts>,
    licensing: (Subject, string) -> Option<Licensing>,
    provider: string -> Option<ProviderStatus>)

  datatype AuditRecord = AuditRecord(
    actor: string, tenant: string, capability: string, gate: Gate, reason: Reason,
    availabilityState: Option<AvailabilityState>, entitlementStatus: Option<EntitlementStatus>)

  datatype ResolverError = UnknownCapability(capability: string) | ResolutionFailed | AuditAppendFailed

  // ---------------------------------------------------------------------
  // Snapshots
  // ---------------------------------------------------------------------

  function ScopeOf(ceiling: Ceiling): Option<string> {
    if ceiling.Resolved? then Some(ceiling.scope) else None
  }

  function ClearedOf(ceiling: Ceiling, id: string): Option<Cleared> {
    if ceiling.Resolved? then FindCleared(ceiling.cleared, id) else None
  }

  predicate NeedsConsent(ceiling: Ceiling, subject: Subject, id: string) {
    var cleared := ClearedOf(ceiling, id);
    cleared.Some? && cleared.value.basis.Consent? && subject.user.Some?
  }

  predicate NeedsLicensing(ceiling: Ceiling, id: string) {
    var cleared := ClearedOf(ceiling, id);
    cleared.Some? && cleared.value.licenceTypes != []
  }

  predicate NeedsProviders(ceiling: Ceiling, id: string) {
    var cleared := ClearedOf(ceiling, id);
    cleared.Some? && cleared.value.providerKinds != []
  }

  function EntitlementFor(p: Ports, subject: Subject, id: string): Option<Entitlement> {
    if subject.user.None? then Some(NoEntitlement) else p.entitlement(subject.tenant, subject.user.value, id)
  }

  function ConsentFor(p: Ports, ceiling: Ceiling, subject: Subject, id: string): Option<ConsentFacts> {
    if !NeedsConsent(ceiling, subject, id) then Some(ConsentNotEvaluated)
    else p.consent(subject.tenant, subject.user.value, ClearedOf(ceiling, id).value.basis.purpose, ceiling.scope)
  }

  function LicensingFor(p: Ports, ceiling: Ceiling, subject: Subject, id: string): Option<Licensing> {
    if !NeedsLicensing(ceiling, id) then Some(LicensingNotEvaluated) else p.licensing(subject, ceiling.scope)
  }

  /** The status of each kind, in order; None when a read throws. */
  function StatusesOf(p: Ports, kinds: seq<string>): Option<seq<Provider>> {
    if kinds == [] then Some([])
    else
      var before, last := StatusesOf(p, kinds[..|kinds| - 1]), p.provider(kinds[|kinds| - 1]);
      if before.None? || last.None? then None else Some(before.value + [Provider(kinds[|kinds| - 1], last.value)])
  }

  function ProvidersFor(p: Ports, ceiling: Ceiling, id: string): Option<Providers> {
    if !NeedsProviders(ceiling, id) then Some(ProvidersNotEvaluated)
    else
      var statuses := StatusesOf(p, ClearedOf(ceiling, id).value.providerKinds);
      if statuses.None? then None else Some(Statuses(statuses.value))
  }

  /** What the lazy reads assemble. */
  function Snapshot(p: Ports, d: Descriptor, environment: string, ceiling: Ceiling, subject: Subject,
      id: string): Option<Inputs> {
    var availability := p.availability(ScopeOf(ceiling), id);
    var entitlement := EntitlementFor(p, subject, id);
    var consent := ConsentFor(p, ceiling, subject, id);
    var licensing := LicensingFor(p, ceiling, subject, id);
    var providers := ProvidersFor(p, ceiling, id);
    if availability.None? || entitlement.None? || consent.None? || licensing.None? || providers.None? then None
    else Some(Inputs(id, environment, DescriptorFactsFor(d, environment), ceiling, availability.value, entitlement.value,
                     consent.value, licensing.value, providers.value))
  }

  // ---------------------------------------------------------------------
  // What was read, port by port
  // ---------------------------------------------------------------------

  /** c is the clearance of the capability: the first the ceiling lists for it. */
  ghost predicate ClearanceOf(ceiling: Ceiling, id: string, c: Cleared) {
    && ceiling.Resolved?
    && exists i :: 0 <= i < |ceiling.cleared| && ceiling.cleared[i] == c && c.capability == id
                   && forall j :: 0 <= j < i ==> ceiling.cleared[j].capability != id
  }

  /** Descriptor, row and entitlement are what the registry and the ports say: the row
      under the governing scope, if one resolved, the entitlement of the subject's own
      tenant and user, if there is a user. */
  ghost predicate CoreAnswered(
    p: Ports, d: Descriptor, environment: string, ceiling: Ceiling, subject: Subject, id: string, x: Inputs)
  {
    && x.capability == id && x.environment == environment && x.ceiling == ceiling
    && x.descriptor.implemented == d.implemented && x.descriptor.declaredScopes == d.declaredJurisdictions
    && (x.descriptor.deployed <==> environment in d.deployment && d.deployment[environment])
    && (ceiling.Resolved? ==> p.availability(Some(ceiling.scope), id) == Some(x.availability))
    && (!ceiling.Resolved? ==> p.availability(None, id) == Some(x.availability))
    && (match subject.user
        case Some(user) => p.entitlement(subject.tenant, user, id) == Some(x.entitlement)
        case None => x.entitlement == NoEntitlement)
  }

  /** The list holds the port's answer for each kind, in order. */
  ghost predicate ListsStatuses(p: Ports, kinds: seq<string>, statuses: seq<Provider>) {
    && |statuses| == |kinds|
    && forall i :: 0 <= i < |kinds| ==> statuses[i].kind == kinds[i] && p.provider(kinds[i]) == Some(statuses[i].status)
  }

  /** Consent, licences and providers are read exactly when the clearance asks for them,
      each from its port. */
  ghost predicate LazilyAnswered(p: Ports, ceiling: Ceiling, subject: Subject, id: string, x: Inputs) {
    && ((forall c :: !ClearanceOf(ceiling, id, c)) ==>
          && x.consent == ConsentNotEvaluated && x.licensing == LicensingNotEvaluated && x.providers == ProvidersNotEvaluated)
    && forall c :: ClearanceOf(ceiling, id, c) ==>
         && (if c.basis.Consent? && subject.user.Some?
             then p.consent(subject.tenant, subject.user.value, c.basis.purpose, ceiling.scope) == Some(x.consent)
             else x.consent == ConsentNotEvaluated)
         && (if c.licenceTypes != [] then p.licensing(subject, ceiling.scope) == Some(x.licensing)
             else x.licensing == LicensingNotEvaluated)
         && (if c.providerKinds != [] then x.providers.Statuses? && ListsStatuses(p, c.providerKinds, x.providers.statuses)
             else x.providers == ProvidersNotEvaluated)
  }

  /** Every dimension was read: what the clearance asks for is the ports' answer, and what
      it does not ask for may be anything. The provider list may name further kinds. */
  ghost predicate EagerlyAnswered(p: Ports, ceiling: Ceiling, subject: Subject, id: string, x: Inputs) {
    forall c :: ClearanceOf(ceiling, id, c) ==>
      && (c.basis.Consent? && subject.user.Some? ==>
            p.consent(subject.tenant, subject.user.value, c.basis.purpose, ceiling.scope) == Some(x.consent))
      && (c.licenceTypes != [] ==> p.licensing(subject, ceiling.scope) == Some(x.licensing))
      && (c.providerKinds != [] ==>
            && x.providers.Statuses?
            && (forall s :: s in x.providers.statuses ==> p.provider(s.kind) == Some(s.status))
            && forall k :: k in c.providerKinds ==> exists s :: s in x.providers.statuses && s.kind == k)
  }

  lemma ClearanceIsFound(ceiling: Ceiling, id: string, c: Cleared)
    ensures ClearanceOf(ceiling, id, c) <==> ClearedOf(ceiling, id) == Some(c)
  {
    if ceiling.Resolved? {
      FindClearedIsFirst(ceiling.cleared, id);
    }
  }

  lemma {:induction false} StatusesAreListed(p: Ports, kinds: seq<string>)
    ensures StatusesOf(p, kinds).Some? <==> forall i :: 0 <= i < |kinds| ==> p.provider(kinds[i]).Some?
    ensures StatusesOf(p, kinds).Some? ==> ListsStatuses(p, kinds, StatusesOf(p, kinds).value)
  {
    if kinds != [] {
      StatusesAreListed(p, kinds[..|kinds| - 1]);
      assert forall i :: 0 <= i < |kinds| - 1 ==> kinds[i] == kinds[..|kinds| - 1][i];
    }
  }

  /** A snapshot holds exactly what the ports answered, each asked for the right thing. */
  lemma SnapshotIsAsAnswered(p: Ports, d: Descriptor, environment: string, ceiling: Ceiling, subject: Subject, id: string)
    requires Snapshot(p, d, environment, ceiling, subject, id).Some?
    ensures var x := Snapshot(p, d, environment, ceiling, subject, id).value;
            && CoreAnswered(p, d, environment, ceiling, subject, id, x)
            && LazilyAnswered(p, ceiling, subject, id, x)
  {
    forall c ensures ClearanceOf(ceiling, id, c) <==> ClearedOf(ceiling, id) == Some(c) {
      ClearanceIsFound(ceiling, id, c);
    }
    var cleared := ClearedOf(ceiling, id);
    if cleared.Some? {
      StatusesAreListed(p, cleared.value.providerKinds);
      assert ClearanceOf(ceiling, id, cleared.value);
    }
  }

  /** A port the snapshot needs threw. */
  ghost predicate SomeReadFails(p: Ports, ceiling: Ceiling, subject: Subject, id: string) {
    || p.availability(if ceiling.Resolved? then Some(ceiling.scope) else None, id).None?
    || (subject.user.Some? && p.entitlement(subject.tenant, subject.user.value, id).None?)
    || exists c :: && ClearanceOf(ceiling, id, c)
                   && (|| (c.basis.Consent? && subject.user.Some?
                           && p.consent(subject.tenant, subject.user.value, c.basis.purpose, ceiling.scope).None?)
                       || (c.licenceTypes != [] && p.licensing(subject, ceiling.scope).None?)
                       || exists k :: k in c.providerKinds && p.provider(k).None?)
  }

  /** There is no snapshot exactly when a read it needs throws; nothing else is read. */
  lemma SnapshotFailsExactly(p: Ports, d: Descriptor, environment: string, ceiling: Ceiling, subject: Subject, id: string)
    ensures Snapshot(p, d, environment, ceiling, subject, id).None? <==> SomeReadFails(p, ceiling, subject, id)
  {
    forall c ensures ClearanceOf(ceiling, id, c) <==> ClearedOf(ceiling, id) == Some(c) {
      ClearanceIsFound(ceiling, id, c);
    }
    var cleared := ClearedOf(ceiling, id);
    if cleared.Some? {
      var kinds := cleared.value.providerKinds;
      StatusesAreListed(p, kinds);
      assert ClearanceOf(ceiling, id, cleared.value);
      if i :| 0 <= i < |kinds| && p.provider(kinds[i]).None? {
        assert kinds[i] in kinds;
      }
    }
  }

  lemma {:induction false} FoundAnswersPort(p: Ports, statuses: seq<Provider>, kind: string)
    requires forall s :: s in statuses ==> p.provider(s.kind) == Some(s.status)
    requires exists s :: s in statuses && s.kind == kind
    ensures var found := FindProvider(statuses, kind);
            found.Some? && found.value.kind == kind && p.provider(kind) == Some(found.value.status)
  {
    var s :| s in statuses && s.kind == kind;
    if statuses[0].kind != kind {
      assert statuses == [statuses[0]] + statuses[1..];
      assert s in statuses[1..];
      FoundAnswersPort(p, statuses[1..], kind);
    }
  }

  /** Two lists that answer the same port deny alike. */
  lemma {:induction false} SameProvidersDenyAlike(p: Ports, kinds: seq<string>, a: seq<Provider>, b: seq<Provider>)
    requires forall s :: s in a ==> p.provider(s.kind) == Some(s.status)
    requires forall s :: s in b ==> p.provider(s.kind) == Some(s.status)
    requires forall k :: k in kinds ==> (exists s :: s in a && s.kind == k) && (exists s :: s in b && s.kind == k)
    ensures ProviderListDenial(kinds, a) == ProviderListDenial(kinds, b)
  {
    if kinds != [] {
      assert kinds[0] in kinds;
      FoundAnswersPort(p, a, kinds[0]);
      FoundAnswersPort(p, b, kinds[0]);
      assert forall k :: k in kinds[1..] ==> k in kinds;
      SameProvidersDenyAlike(p, kinds[1..], a, b);
    }
  }

  /** Reading only what the clearance asks for resolves like reading everything:
      same outcome, gate, reason and pins, for every answer of every port and
      for a subject without a user. */
  lemma LazyRefinesEager(
    p: Ports, d: Descriptor, environment: string, ceiling: Ceiling, subject: Subject, id: string, eager: Inputs, at: Time)
    requires Snapshot(p, d, environment, ceiling, subject, id).Some?
    requires CoreAnswered(p, d, environment, ceiling, subject, id, eager)
    requires EagerlyAnswered(p, ceiling, subject, id, eager)
    ensures Resolve(eager, at) == Resolve(Snapshot(p, d, environment, ceiling, subject, id).value, at)
  {
    var lazy := Snapshot(p, d, environment, ceiling, subject, id).value;
    SnapshotIsAsAnswered(p, d, environment, ceiling, subject, id);
    assert eager == lazy.(consent := eager.consent, licensing := eager.licensing, providers := eager.providers);
    var cleared := ClearedOf(ceiling, id);
    if cleared.Some? {
      var c := cleared.value;
      ClearanceIsFound(ceiling, id, c);
      LaterFactsAgree(p, c, ceiling, subject, id, lazy, eager, at);
    }
  }

  lemma LaterFactsAgree(
    p: Ports, c: Cleared, ceiling: Ceiling, subject: Subject, id: string, lazy: Inputs, eager: Inputs, at: Time)
    requires ClearanceOf(ceiling, id, c)
    requires LazilyAnswered(p, ceiling, subject, id, lazy) && EagerlyAnswered(p, ceiling, subject, id, eager)
    ensures ProviderDenial(c.providerKinds, eager.providers) == ProviderDenial(c.providerKinds, lazy.providers)
    ensures LicenceDenial(c.licenceTypes, eager.licensing, at) == LicenceDenial(c.licenceTypes, lazy.licensing, at)
    ensures subject.user.Some? ==> ConsentDenial(c.basis, eager.consent) == ConsentDenial(c.basis, lazy.consent)
  {
    if c.providerKinds != [] {
      var statuses := lazy.providers.statuses;
      forall s | s in statuses ensures p.provider(s.kind) == Some(s.status) {
        var i :| 0 <= i < |statuses| && statuses[i] == s;
      }
      forall k | k in c.providerKinds ensures exists s :: s in statuses && s.kind == k {
        var i :| 0 <= i < |c.providerKinds| && c.providerKinds[i] == k;
        assert statuses[i] in statuses;
      }
      SameProvidersDenyAlike(p, c.providerKinds, lazy.providers.statuses, eager.providers.statuses);
    }
  }

  // ---------------------------------------------------------------------
  // Refused expansions
  // ---------------------------------------------------------------------

  predicate CeilingGate(gate: Gate) {
    gate == DESCRIPTOR || gate == ENVIRONMENT || gate == JURISDICTION || gate == AVAILABILITY
  }

  /** A ceiling gate denied what a row or an entitlement would have granted. */
  predicate RefusesExpansion(x: Inputs, at: Time) {
    && Resolve(x, at).DeniedAt? && CeilingGate(Resolve(x, at).gate)
    && (|| (x.availability.Row? && Allowing(x.availability.state))
        || (x.entitlement.EntitlementRow? && SatisfiesAt(x.entitlement, at)))
  }

  function RefusalRecord(x: Inputs, subject: Subject, at: Time): AuditRecord
    requires Resolve(x, at).DeniedAt?
  {
    AuditRecord(
      if subject.user.Some? then subject.user.value else "system:resolver", subject.tenant, x.capability,
      Resolve(x, at).gate, Resolve(x, at).reason,
      if x.availability.Row? then Some(x.availability.state) else None,
      if x.entitlement.EntitlementRow? then Some(x.entitlement.status) else None)
  }

  function RefusalOf(x: Inputs, subject: Subject, at: Time): Option<AuditRecord> {
    if RefusesExpansion(x, at) then Some(RefusalRecord(x, subject, at)) else None
  }

  /** The values present, in order. */
  function Present<R>(items: seq<Option<R>>): seq<R> {
    if items == [] then []
    else
      var last := items[|items| - 1];
      Present(items[..|items| - 1]) + if last.Some? then [last.value] else []
  }

  /** One record per refused expansion, in order. */
  function Refusals(inputs: seq<Inputs>, subject: Subject, at: Time): seq<AuditRecord> {
    Present(seq(|inputs|, i requires 0 <= i < |inputs| => RefusalOf(inputs[i], subject, at)))
  }

  /** of names the places the present values come from: in order, and all of them. */
  ghost predicate PlacesOf<R(!new)>(items: seq<Option<R>>, of: seq<nat>, present: seq<R>) {
    && |of| == |present|
    && (forall m :: 0 <= m < |of| ==> of[m] < |items| && items[of[m]] == Some(present[m]))
    && (forall m, n :: 0 <= m < n < |of| ==> of[m] < of[n])
    && forall k :: 0 <= k < |items| && items[k].Some? ==> k in of
  }

  lemma PlacesGrow<R(!new)>(items: seq<Option<R>>, of: seq<nat>, present: seq<R>, last: R)
    requires PlacesOf(items, of, present)
    ensures PlacesOf(items + [Some(last)], of + [|items|], present + [last])
  {
    var of', items' := of + [|items|], items + [Some(last)];
    forall k | 0 <= k < |items'| && items'[k].Some? ensures k in of' {
      if k < |items| {
        assert items[k].Some?;
        assert k in of;
      } else {
        assert of'[|of|] == k;
      }
    }
  }

  lemma PlacesStay<R(!new)>(items: seq<Option<R>>, of: seq<nat>, present: seq<R>)
    requires PlacesOf(items, of, present)
    ensures PlacesOf(items + [None], of, present)
  {
    forall k | 0 <= k < |items + [None]| && (items + [None])[k].Some? ensures k in of {
      assert items[k].Some?;
    }
  }

  lemma {:induction false} PresentAreAll<R(!new)>(items: seq<Option<R>>) returns (of: seq<nat>)
    ensures PlacesOf(items, of, Present(items))
  {
    if items == [] {
      return [];
    }
    var front, last := items[..|items| - 1], items[|items| - 1];
    var before := PresentAreAll(front);
    if last.Some? {
      PlacesGrow(front, before, Present(front), last.value);
      of := before + [|front|];
      assert Present(items) == Present(front) + [last.value];
      assert items == front + [Some(last.value)];
    } else {
      PlacesStay(front, before, Present(front));
      of := before;
      assert Present(items) == Present(front);
      assert items == front + [None];
    }
  }

  /** An allowing row is never denied at the gates a missing or non-allowing row
      fails, so no refusal escapes the record. */
  lemma AllowingRowPassesItsGates(x: Inputs, at: Time)
    requires x.availability.Row? && Allowing(x.availability.state) && Resolve(x, at).DeniedAt?
    ensures Resolve(x, at).gate != AVAILABILITY && Resolve(x, at).gate != ENVIRONMENT
  {
    ResolutionIsTheMeetOfTheGates(x, at);
    assert !Passes(Resolve(x, at).gate, x, at);
  }

  /** The records are those of the refusing inputs: each once, in order, and no others. */
  lemma RefusalsAreAll(inputs: seq<Inputs>, subject: Subject, at: Time) returns (of: seq<nat>)
    ensures PlacesOf(seq(|inputs|, i requires 0 <= i < |inputs| => RefusalOf(inputs[i], subject, at)), of,
                     Refusals(inputs, subject, at))
  {
    of := PresentAreAll(seq(|inputs|, i requires 0 <= i < |inputs| => RefusalOf(inputs[i], subject, at)));
  }

  /** What the record of a refused expansion says. */
  lemma RefusalIsTold(x: Inputs, subject: Subject, at: Time)
    requires RefusalOf(x, subject, at).Some?
    ensures var r := RefusalOf(x, subject, at).value;
            && (match subject.user case Some(user) => r.actor == user case None => r.actor == "system:resolver")
            && r.tenant == subject.tenant && r.capability == x.capability
            && Resolve(x, at).DeniedAt? && r.gate == Resolve(x, at).gate && r.reason == Resolve(x, at).reason
            && r.gate in {DESCRIPTOR, ENVIRONMENT, JURISDICTION, AVAILABILITY}
            && (match x.availability
                case Row(_, state, _) => r.availabilityState == Some(state)
                case NoRow(_) => r.availabilityState == None)
            && (match x.entitlement
                case EntitlementRow(_, status, _, _, _) => r.entitlementStatus == Some(status)
                case NoEntitlement => r.entitlementStatus == None)
  {
  }

  /** Which resolutions are refused expansions. */
  lemma RefusesExactly(x: Inputs, subject: Subject, at: Time)
    ensures RefusalOf(x, subject, at).Some?
       <==> && Resolve(x, at).DeniedAt? && Rank(Resolve(x, at).gate) <= 4
            && (|| (x.availability.Row? && x.availability.state in {Available, Beta})
                || (x.entitlement.EntitlementRow? && x.entitlement.status == ACTIVE && x.entitlement.from <= at
                    && (x.entitlement.to.None? || at < x.entitlement.to.value)))
  {
  }

  class Resolver {
    const registry: View
    const environment: string
    const ports: Ports
    const auditWorks: nat -> bool
    var audit: seq<AuditRecord>

    constructor (registry: View, environment: string, ports: Ports, auditWorks: nat -> bool, audit: seq<AuditRecord>)
      ensures this.registry == registry && this.environment == environment && this.ports == ports
      ensures this.auditWorks == auditWorks && this.audit == audit
    {
      this.registry, this.environment, this.ports, this.auditWorks := registry, environment, ports, auditWorks;
      this.audit := audit;
    }

    function SnapshotOf(ceiling: Ceiling, subject: Subject, id: string): Option<Inputs> {
      if id !in registry.descriptors then None
      else Snapshot(ports, registry.descriptors[id], environment, ceiling, subject, id)
    }

    /** The statuses of the kinds the clearance requires, read one by one. */
    method ReadProviders(kinds: seq<string>) returns (read: Option<seq<Provider>>)
      ensures read == StatusesOf(ports, kinds)
    {
      var statuses := [];
      for i := 0 to |kinds|
        invariant StatusesOf(ports, kinds[..i]) == Some(statuses)
      {
        assert kinds[..i + 1][..i] == kinds[..i];
        var status := ports.provider(kinds[i]);
        if status.None? {
          FailureSpreads(kinds, i + 1);
          return None;
        }
        statuses := statuses + [Provider(kinds[i], status.value)];
      }
      assert kinds[..|kinds|] == kinds;
      return Some(statuses);
    }

    lemma FailureSpreads(kinds: seq<string>, i: nat)
      requires i <= |kinds| && StatusesOf(ports, kinds[..i]).None?
      ensures StatusesOf(ports, kinds).None?
      decreases |kinds|
    {
      if i < |kinds| {
        assert kinds[..|kinds| - 1][..i] == kinds[..i];
        FailureSpreads(kinds[..|kinds| - 1], i);
      } else {
        assert kinds[..i] == kinds;
      }
    }

    method SnapshotFor(id: string, descriptor: Descriptor, ceiling: Ceiling, subject: Subject)
        returns (inputs: Option<Inputs>)
      ensures inputs == Snapshot(ports, descriptor, environment, ceiling, subject, id)
    {
      var scope := ScopeOf(ceiling);
      var availability := ports.availability(scope, id);
      if availability.None? {
        return None;
      }
      var entitlement := NoEntitlement;
      if subject.user.Some? {
        var read := ports.entitlement(subject.tenant, subject.user.value, id);
        if read.None? {
          return None;
        }
        entitlement := read.value;
      }
      var cleared := ClearedOf(ceiling, id);
      var consent := ConsentNotEvaluated;
      if cleared.Some? && cleared.value.basis.Consent? && scope.Some? && subject.user.Some? {
        var read := ports.consent(subject.tenant, subject.user.value, cleared.value.basis.purpose, scope.value);
        if read.None? {
          return None;
        }
        consent := read.value;
      }
      var licensing := LicensingNotEvaluated;
      if cleared.Some? && |cleared.value.licenceTypes| > 0 && scope.Some? {
        var read := ports.licensing(subject, scope.value);
        if read.None? {
          return None;
        }
        licensing := read.value;
      }
      var providers := ProvidersNotEvaluated;
      if cleared.Some? && |cleared.value.providerKinds| > 0 {
        var statuses := ReadProviders(cleared.value.providerKinds);
        if statuses.None? {
          return None;
        }
        providers := Statuses(statuses.value);
      }
      return Some(Inputs(id, environment, DescriptorFactsFor(descriptor, environment), ceiling,
                         availability.value, entitlement, consent, licensing, providers));
    }

    /** False when the record could not be appended. */
    method AuditAboveCeilingDenial(resolution: Resolution, inputs: Inputs, subject: Subject, now: Time) returns (ok: bool)
      requires resolution == Resolve(inputs, now)
      modifies this`audit
      ensures ok ==> audit == old(audit) + if RefusesExpansion(inputs, now) then [RefusalRecord(inputs, subject, now)] else []
      ensures !ok ==> audit == old(audit) && RefusesExpansion(inputs, now) && !auditWorks(|audit|)
    {
      if resolution.Allowed? || !CeilingGate(resolution.gate) {
        return true;
      }
      var allowingRow := inputs.availability.Row? && Allowing(inputs.availability.state);
      var satisfiedEntitlement := inputs.entitlement.EntitlementRow? && SatisfiesAt(inputs.entitlement, now);
      if allowingRow {
        AllowingRowPassesItsGates(inputs, now);
      }
      var rowBeyondDescriptorGates := allowingRow && resolution.gate != AVAILABILITY && resolution.gate != ENVIRONMENT;
      if !rowBeyondDescriptorGates && !satisfiedEntitlement {
        return true;
      }
      if !auditWorks(|audit|) {
        return false;
      }
      audit := audit + [AuditRecord(
        if subject.user.Some? then subject.user.value else "system:resolver", subject.tenant, resolution.capability,
        resolution.gate, resolution.reason,
        if inputs.availability.Row? then Some(inputs.availability.state) else None,
        if inputs.entitlement.EntitlementRow? then Some(inputs.entitlement.status) else None)];
      return true;
    }

    /** Each id's snapshot is what the ports answer for it. */
    ghost predicate SnapshotsOf(inputs: seq<Inputs>, ids: seq<string>, ceiling: Ceiling, subject: Subject) {
      |inputs| == |ids| && forall k :: 0 <= k < |ids| ==> SnapshotOf(ceiling, subject, ids[k]) == Some(inputs[k])
    }

    /** The first id the registry does not list. */
    method FirstUnknown(ids: seq<string>) returns (unknown: Option<string>)
      ensures unknown.None? <==> forall id :: id in ids ==> id in registry.ids
      ensures unknown.Some? ==> unknown.value in ids && unknown.value !in registry.ids
    {
      for i := 0 to |ids|
        invariant forall k :: 0 <= k < i ==> ids[k] in registry.ids
      {
        if ids[i] !in registry.ids {
          return Some(ids[i]);
        }
      }
      return None;
    }

    lemma ReadOneMore(read: seq<Inputs>, ids: seq<string>, i: nat, ceiling: Ceiling, subject: Subject, x: Inputs, now: Time)
      requires i < |ids| && SnapshotsOf(read, ids[..i], ceiling, subject) && SnapshotOf(ceiling, subject, ids[i]) == Some(x)
      ensures SnapshotsOf(read + [x], ids[..i + 1], ceiling, subject)
      ensures Refusals(read + [x], subject, now)
           == Refusals(read, subject, now) + if RefusesExpansion(x, now) then [RefusalRecord(x, subject, now)] else []
    {
      var before := seq(|read|, j requires 0 <= j < |read| => RefusalOf(read[j], subject, now));
      var after := seq(|read| + 1, j requires 0 <= j < |read| + 1 => RefusalOf((read + [x])[j], subject, now));
      assert after[..|read|] == before;
    }

    ghost predicate ReadAsAnswered(id: string, ceiling: Ceiling, subject: Subject, x: Inputs) {
      && id in registry.descriptors
      && CoreAnswered(ports, registry.descriptors[id], environment, ceiling, subject, id, x)
      && LazilyAnswered(ports, ceiling, subject, id, x)
    }

    /** Every snapshot read holds what the ports answered for its id.
        On success the resolutions are the engine's on each id's snapshot, in order,
        and the audit grew by exactly one record per refused expansion. On failure
        the records written are those of the ids before the failing one. */
    method Execute(subject: Subject, now: Time, ids: seq<string>)
      returns (result: Result<seq<Resolution>, ResolverError>, ghost read: seq<Inputs>)
      modifies this`audit
      ensures ports.ceiling.Some? && (forall id :: id in ids ==> id in registry.ids) ==>
                |read| <= |ids| && SnapshotsOf(read, ids[..|read|], ports.ceiling.value, subject)
      ensures ports.ceiling.Some? && (forall id :: id in ids ==> id in registry.ids) ==>
                forall k :: 0 <= k < |read| ==> ReadAsAnswered(ids[k], ports.ceiling.value, subject, read[k])
      ensures audit == old(audit) + Refusals(read, subject, now)
      ensures result.Ok? ==>
                && |read| == |ids| == |result.value| && ports.ceiling.Some? && (forall id :: id in ids ==> id in registry.ids)
                && forall k :: 0 <= k < |ids| ==> result.value[k] == Resolve(read[k], now)
      ensures (exists id :: id in ids && id !in registry.ids) ==> result.Err? && result.error.UnknownCapability? && read == []
      ensures result.Err? ==>
                match result.error
                case UnknownCapability(id) => id in ids && (id !in registry.ids || id !in registry.descriptors)
                case ResolutionFailed =>
                  ports.ceiling.None?
                  || (|read| < |ids| && SnapshotOf(ports.ceiling.value, subject, ids[|read|]).None?)
                case AuditAppendFailed => !auditWorks(|audit|)
    {
      read := [];
      var unknown := FirstUnknown(ids);
      if unknown.Some? {
        return Err(UnknownCapability(unknown.value)), read;
      }
      if ports.ceiling.None? {
        return Err(ResolutionFailed), read;
      }
      var ceiling := ports.ceiling.value;
      var resolutions := [];
      for i := 0 to |ids|
        invariant |read| == |resolutions| == i
        invariant SnapshotsOf(read, ids[..i], ceiling, subject)
        invariant forall k :: 0 <= k < i ==> ReadAsAnswered(ids[k], ceiling, subject, read[k])
        invariant forall k :: 0 <= k < i ==> resolutions[k] == Resolve(read[k], now)
        invariant audit == old(audit) + Refusals(read, subject, now)
      {
        var id := ids[i];
        if id !in registry.descriptors {
          return Err(UnknownCapability(id)), read;
        }
        var inputs := SnapshotFor(id, registry.descriptors[id], ceiling, subject);
        if inputs.None? {
          return Err(ResolutionFailed), read;
        }
        SnapshotIsAsAnswered(ports, registry.descriptors[id], environment, ceiling, subject, id);
        ReadOneMore(read, ids, i, ceiling, subject, inputs.value, now);
        var resolution := Resolve(inputs.value, now);
        resolutions := resolutions + [resolution];
        var ok := AuditAboveCeilingDenial(resolution, inputs.value, subject, now);
        if !ok {
          return Err(AuditAppendFailed), read;
        }
        read := read + [inputs.value];
      }
      assert ids[..|ids|] == ids;
      return Ok(resolutions), read;
    }
  }
}
