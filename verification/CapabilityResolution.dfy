/** The eight-gate resolution engine (modules/capability/domain/resolution.ts,
    entitlement.ts, availability-state.ts, denial-reason.ts). */
module CapabilityResolution {
  import opened Results

  type Time = int

  datatype AvailabilityState =
    Available | Beta | InternalOnly | PartnerOnly | Disabled | PendingProviderState | PendingLegal | PendingRegulatory

  datatype Reason =
    | NOT_IMPLEMENTED | NOT_DEPLOYED
    | WRONG_ENVIRONMENT
    | JURISDICTION_ABSENT | JURISDICTION_UNVERIFIED | JURISDICTION_NOT_CLEARED | POLICY_PACK_NOT_APPROVED
    | DISABLED | INTERNAL_ONLY | PARTNER_ONLY | PENDING_PROVIDER | PENDING_LEGAL_REVIEW | PENDING_REGULATORY_REVIEW
    | ENTITLEMENT_MISSING | ENTITLEMENT_EXPIRED
    | CONSENT_REQUIRED | RECONSENT_REQUIRED | PROCESSING_BASIS_UNRESOLVED
    | LICENCE_MISSING | LICENCE_EXPIRED
    | PROVIDER_UNAVAILABLE

  datatype Gate = DESCRIPTOR | ENVIRONMENT | JURISDICTION | AVAILABILITY | ENTITLEMENT | CONSENT | LICENCE | PROVIDER

  // ---------------------------------------------------------------------
  // Facts
  // ---------------------------------------------------------------------

  datatype DescriptorFacts = DescriptorFacts(implemented: bool, deployed: bool, declaredScopes: seq<string>)

  datatype Basis = Consent(purpose: string) | DeclaredBasis(basis: string) | UnresolvedBasis

  datatype Cleared = Cleared(
    capability: string, requiresVerified: bool, basis: Basis, licenceTypes: seq<string>, providerKinds: seq<string>)

  datatype Ceiling =
    | NoAssignment
    | UnverifiedAssignment(scope: string)
    | PackNotApproved(scope: string, notApprovedPack: Option<string>)
    | Resolved(scope: string, verified: bool, pack: string, cleared: seq<Cleared>)

  datatype Availability = NoRow(elsewhere: bool) | Row(id: string, state: AvailabilityState, version: nat)

  datatype EntitlementStatus = ACTIVE | REVOKED | EXPIRED

  datatype Entitlement =
    | NoEntitlement
    | EntitlementRow(id: string, status: EntitlementStatus, from: Time, to: Option<Time>, version: nat)

  datatype ConsentState = ConsentActive | ConsentWithdrawn | ReconsentRequired | NoGrant
  datatype ConsentFacts = ConsentNotEvaluated | ConsentStatus(state: ConsentState, documentAvailable: bool)

  datatype LicenceStatus = ClaimedUnverified | Evidenced | LicenceLapsed | LicenceRevoked
  datatype Licence = Licence(licenceType: string, status: LicenceStatus, effective: Option<Time>, expiry: Option<Time>)
  datatype Licensing = LicensingNotEvaluated | NoEffectiveEntity | Entity(permitted: bool, licences: seq<Licence>)

  datatype ProviderStatus = Connected | NotConfigured | Unavailable
  datatype Provider = Provider(kind: string, status: ProviderStatus)
  datatype Providers = ProvidersNotEvaluated | Statuses(statuses: seq<Provider>)

  datatype Inputs = Inputs(
    capability: string, environment: string, descriptor: DescriptorFacts, ceiling: Ceiling,
    availability: Availability, entitlement: Entitlement, consent: ConsentFacts, licensing: Licensing, providers: Providers)

  datatype Provenance = Provenance(
    packVersion: Option<string>, rowId: Option<string>, rowVersion: Option<nat>,
    entitlementId: Option<string>, entitlementVersion: Option<nat>,
    environment: string, jurisdiction: Option<string>, resolvedAt: Time)

  datatype Resolution =
    | Allowed(capability: string, state: AvailabilityState, provenance: Provenance)
    | DeniedAt(capability: string, gate: Gate, reason: Reason, provenance: Provenance)

  // ---------------------------------------------------------------------
  // The engine
  // ---------------------------------------------------------------------

  predicate Allowing(state: AvailabilityState) {
    state == Available || state == Beta
  }

  function StateReason(state: AvailabilityState): Reason
    requires !Allowing(state)
  {
    match state
    case InternalOnly => INTERNAL_ONLY
    case PartnerOnly => PARTNER_ONLY
    case Disabled => DISABLED
    case PendingProviderState => PENDING_PROVIDER
    case PendingLegal => PENDING_LEGAL_REVIEW
    case PendingRegulatory => PENDING_REGULATORY_REVIEW
  }

  /** entitlementSatisfiesAt */
  predicate SatisfiesAt(e: Entitlement, at: Time)
    requires e.EntitlementRow?
  {
    e.status == ACTIVE && e.from <= at && (e.to.None? || e.to.value > at)
  }

  function FindCleared(cleared: seq<Cleared>, capability: string): Option<Cleared> {
    if cleared == [] then None
    else if cleared[0].capability == capability then Some(cleared[0])
    else FindCleared(cleared[1..], capability)
  }

  function FindProvider(statuses: seq<Provider>, kind: string): Option<Provider> {
    if statuses == [] then None
    else if statuses[0].kind == kind then Some(statuses[0])
    else FindProvider(statuses[1..], kind)
  }

  function ConsentDenial(basis: Basis, consent: ConsentFacts): Option<Reason> {
    match basis
    case DeclaredBasis(_) => None
    case UnresolvedBasis => Some(PROCESSING_BASIS_UNRESOLVED)
    case Consent(_) =>
      if consent.ConsentNotEvaluated? || !consent.documentAvailable then Some(CONSENT_REQUIRED)
      else match consent.state
           case ConsentActive => None
           case ReconsentRequired => Some(RECONSENT_REQUIRED)
           case _ => Some(CONSENT_REQUIRED)
  }

  predicate Satisfying(l: Licence, at: Time) {
    l.status == Evidenced && l.effective.Some? && l.effective.value <= at && (l.expiry.None? || l.expiry.value > at)
  }

  predicate Lapsed(l: Licence, at: Time) {
    l.status == LicenceLapsed || (l.expiry.Some? && l.expiry.value <= at)
  }

  /** Of the licences of one type, whether any satisfies; whether any lapsed. */
  predicate AnySatisfying(licences: seq<Licence>, licenceType: string, at: Time) {
    exists i :: 0 <= i < |licences| && licences[i].licenceType == licenceType && Satisfying(licences[i], at)
  }

  predicate AnyLapsed(licences: seq<Licence>, licenceType: string, at: Time) {
    exists i :: 0 <= i < |licences| && licences[i].licenceType == licenceType && Lapsed(licences[i], at)
  }

  function LicenceListDenial(types: seq<string>, licences: seq<Licence>, at: Time): Option<Reason> {
    if types == [] then None
    else if AnySatisfying(licences, types[0], at) then LicenceListDenial(types[1..], licences, at)
    else Some(if AnyLapsed(licences, types[0], at) then LICENCE_EXPIRED else LICENCE_MISSING)
  }

  function LicenceDenial(types: seq<string>, licensing: Licensing, at: Time): Option<Reason> {
    if types == [] then None
    else if !licensing.Entity? || !licensing.permitted then Some(LICENCE_MISSING)
    else LicenceListDenial(types, licensing.licences, at)
  }

  function ProviderListDenial(kinds: seq<string>, statuses: seq<Provider>): Option<Reason> {
    if kinds == [] then None
    else
      var entry := FindProvider(statuses, kinds[0]);
      if entry.None? || entry.value.status == NotConfigured then Some(PENDING_PROVIDER)
      else if entry.value.status == Unavailable then Some(PROVIDER_UNAVAILABLE)
      else ProviderListDenial(kinds[1..], statuses)
  }

  function ProviderDenial(kinds: seq<string>, providers: Providers): Option<Reason> {
    if kinds == [] then None
    else if providers.ProvidersNotEvaluated? then Some(PENDING_PROVIDER)
    else ProviderListDenial(kinds, providers.statuses)
  }

  function ProvenanceOf(x: Inputs, at: Time): Provenance {
    Provenance(
      match x.ceiling { case Resolved(_, _, pack, _) => Some(pack) case PackNotApproved(_, pack) => pack case _ => None },
      if x.availability.Row? then Some(x.availability.id) else None,
      if x.availability.Row? then Some(x.availability.version) else None,
      if x.entitlement.EntitlementRow? then Some(x.entitlement.id) else None,
      if x.entitlement.EntitlementRow? then Some(x.entitlement.version) else None,
      x.environment,
      if x.ceiling.NoAssignment? then None else Some(x.ceiling.scope),
      at)
  }

  function Resolve(x: Inputs, at: Time): Resolution {
    var p := ProvenanceOf(x, at);
    if !x.descriptor.implemented then DeniedAt(x.capability, DESCRIPTOR, NOT_IMPLEMENTED, p)
    else if !x.descriptor.deployed then DeniedAt(x.capability, DESCRIPTOR, NOT_DEPLOYED, p)
    else if x.availability.NoRow? && x.availability.elsewhere then DeniedAt(x.capability, ENVIRONMENT, WRONG_ENVIRONMENT, p)
    else match x.ceiling
      case NoAssignment => DeniedAt(x.capability, JURISDICTION, JURISDICTION_ABSENT, p)
      case UnverifiedAssignment(_) => DeniedAt(x.capability, JURISDICTION, JURISDICTION_UNVERIFIED, p)
      case PackNotApproved(_, _) => DeniedAt(x.capability, JURISDICTION, POLICY_PACK_NOT_APPROVED, p)
      case Resolved(scope, verified, _, clearances) =>
        var cleared := FindCleared(clearances, x.capability);
        if cleared.None? || scope !in x.descriptor.declaredScopes then
          DeniedAt(x.capability, JURISDICTION, JURISDICTION_NOT_CLEARED, p)
        else if cleared.value.requiresVerified && !verified then
          DeniedAt(x.capability, JURISDICTION, JURISDICTION_UNVERIFIED, p)
        else ResolveCleared(x, cleared.value, at)
  }

  /** Gates four to eight. */
  function ResolveCleared(x: Inputs, cleared: Cleared, at: Time): Resolution {
    var p := ProvenanceOf(x, at);
    if x.availability.NoRow? then DeniedAt(x.capability, AVAILABILITY, DISABLED, p)
    else if !Allowing(x.availability.state) then
      DeniedAt(x.capability, AVAILABILITY, StateReason(x.availability.state), p)
    else if x.entitlement.NoEntitlement? then DeniedAt(x.capability, ENTITLEMENT, ENTITLEMENT_MISSING, p)
    else if !SatisfiesAt(x.entitlement, at) then
      DeniedAt(x.capability, ENTITLEMENT, if x.entitlement.status == REVOKED then ENTITLEMENT_MISSING else ENTITLEMENT_EXPIRED, p)
    else
      var consent := ConsentDenial(cleared.basis, x.consent);
      var licence := LicenceDenial(cleared.licenceTypes, x.licensing, at);
      var provider := ProviderDenial(cleared.providerKinds, x.providers);
      if consent.Some? then DeniedAt(x.capability, CONSENT, consent.value, p)
      else if licence.Some? then DeniedAt(x.capability, LICENCE, licence.value, p)
      else if provider.Some? then DeniedAt(x.capability, PROVIDER, provider.value, p)
      else Allowed(x.capability, x.availability.state, p)
  }

  // ---------------------------------------------------------------------
  // The gates, each on its own
  // ---------------------------------------------------------------------

  /** c is the clearance that counts: the first listed for the capability. */
  ghost predicate Clears(x: Inputs, c: Cleared) {
    && x.ceiling.Resolved?
    && exists i :: 0 <= i < |x.ceiling.cleared| && x.ceiling.cleared[i] == c && c.capability == x.capability
                   && forall j :: 0 <= j < i ==> x.ceiling.cleared[j].capability != x.capability
  }

  /** The first entry for the kind says CONNECTED. */
  ghost predicate ConnectedFirst(statuses: seq<Provider>, kind: string) {
    exists i :: 0 <= i < |statuses| && statuses[i] == Provider(kind, Connected)
                && forall j :: 0 <= j < i ==> statuses[j].kind != kind
  }

  /** Each gate's condition, stated without the others; those that depend on the
      clearance hold vacuously where there is none. */
  ghost predicate Passes(gate: Gate, x: Inputs, at: Time) {
    match gate
    case DESCRIPTOR => x.descriptor.implemented && x.descriptor.deployed
    case ENVIRONMENT => x.availability.Row? || !x.availability.elsewhere
    case JURISDICTION =>
      && x.ceiling.Resolved? && x.ceiling.scope in x.descriptor.declaredScopes
      && exists c :: Clears(x, c) && (c.requiresVerified ==> x.ceiling.verified)
    case AVAILABILITY => x.availability.Row? && x.availability.state in {Available, Beta}
    case ENTITLEMENT =>
      && x.entitlement.EntitlementRow? && x.entitlement.status == ACTIVE && x.entitlement.from <= at
      && (x.entitlement.to.None? || at < x.entitlement.to.value)
    case CONSENT =>
      forall c :: Clears(x, c) ==>
        c.basis.DeclaredBasis? || (c.basis.Consent? && x.consent == ConsentStatus(ConsentActive, true))
    case LICENCE => forall c :: Clears(x, c) ==> LicencesHeld(c, x.licensing, at)
    case PROVIDER => forall c :: Clears(x, c) ==> ProvidersConnected(c, x.providers)
  }

  predicate LicencesHeld(c: Cleared, licensing: Licensing, at: Time) {
    forall t :: t in c.licenceTypes ==>
      licensing.Entity? && licensing.permitted && HoldsLicence(licensing.licences, t, at)
  }

  predicate HoldsLicence(licences: seq<Licence>, licenceType: string, at: Time) {
    exists l :: l in licences && InForceFor(l, licenceType, at)
  }

  /** Some licence of the type is expired, by its status or by its date. */
  predicate HasExpired(licences: seq<Licence>, licenceType: string, at: Time) {
    exists l :: && l in licences && l.licenceType == licenceType
                && (l.status == LicenceLapsed || (l.expiry.Some? && l.expiry.value <= at))
  }

  /** Evidenced, begun, and not yet expired. */
  predicate InForceFor(l: Licence, licenceType: string, at: Time) {
    && l.licenceType == licenceType && l.status == Evidenced
    && l.effective.Some? && l.effective.value <= at && (l.expiry.None? || at < l.expiry.value)
  }

  lemma AnySatisfyingExactly(licences: seq<Licence>, licenceType: string, at: Time)
    ensures AnySatisfying(licences, licenceType, at) <==> HoldsLicence(licences, licenceType, at)
    ensures AnyLapsed(licences, licenceType, at) <==> HasExpired(licences, licenceType, at)
  {
    if i :| 0 <= i < |licences| && licences[i].licenceType == licenceType && Satisfying(licences[i], at) {
      assert licences[i] in licences;
    }
    if l :| l in licences && InForceFor(l, licenceType, at) {
      var i :| 0 <= i < |licences| && licences[i] == l;
    }
    if i :| 0 <= i < |licences| && licences[i].licenceType == licenceType && Lapsed(licences[i], at) {
      assert licences[i] in licences;
    }
    if l :| && l in licences && l.licenceType == licenceType
            && (l.status == LicenceLapsed || (l.expiry.Some? && l.expiry.value <= at)) {
      var i :| 0 <= i < |licences| && licences[i] == l;
    }
  }

  ghost predicate ProvidersConnected(c: Cleared, providers: Providers) {
    forall k :: k in c.providerKinds ==> providers.Statuses? && ConnectedFirst(providers.statuses, k)
  }

  function Rank(gate: Gate): nat {
    match gate
    case DESCRIPTOR => 1 case ENVIRONMENT => 2 case JURISDICTION => 3 case AVAILABILITY => 4
    case ENTITLEMENT => 5 case CONSENT => 6 case LICENCE => 7 case PROVIDER => 8
  }

  lemma {:induction false} FindClearedIsFirst(cleared: seq<Cleared>, capability: string)
    ensures match FindCleared(cleared, capability)
            case Some(c) => exists i :: 0 <= i < |cleared| && cleared[i] == c && c.capability == capability
                                        && forall j :: 0 <= j < i ==> cleared[j].capability != capability
            case None => forall i :: 0 <= i < |cleared| ==> cleared[i].capability != capability
  {
    if cleared != [] && cleared[0].capability != capability {
      FindClearedIsFirst(cleared[1..], capability);
      if FindCleared(cleared, capability).Some? {
        var c := FindCleared(cleared, capability).value;
        var i :| 0 <= i < |cleared[1..]| && cleared[1..][i] == c && c.capability == capability
                 && forall j :: 0 <= j < i ==> cleared[1..][j].capability != capability;
        assert cleared[i + 1] == c;
        forall j | 0 <= j < i + 1 ensures cleared[j].capability != capability {
          assert j == 0 || cleared[j] == cleared[1..][j - 1];
        }
      } else {
        forall i | 0 <= i < |cleared| ensures cleared[i].capability != capability {
          assert i == 0 || cleared[i] == cleared[1..][i - 1];
        }
      }
    } else if cleared != [] {
      assert cleared[0] == FindCleared(cleared, capability).value;
    }
  }

  /** The clearance gates read is the one find returns, and no other. */
  lemma ClearsIsFound(x: Inputs, c: Cleared)
    requires x.ceiling.Resolved?
    ensures Clears(x, c) <==> FindCleared(x.ceiling.cleared, x.capability) == Some(c)
  {
    FindClearedIsFirst(x.ceiling.cleared, x.capability);
  }

  lemma {:induction false} FindProviderIsFirst(statuses: seq<Provider>, kind: string)
    ensures var found := FindProvider(statuses, kind);
            && (found.Some? ==> found.value.kind == kind && found.value in statuses)
            && (found == Some(Provider(kind, Connected)) <==> ConnectedFirst(statuses, kind))
  {
    if statuses != [] {
      FindProviderIsFirst(statuses[1..], kind);
      if statuses[0].kind != kind {
        if ConnectedFirst(statuses, kind) {
          var i :| 0 <= i < |statuses| && statuses[i] == Provider(kind, Connected)
                   && forall j :: 0 <= j < i ==> statuses[j].kind != kind;
          assert statuses[1..][i - 1] == Provider(kind, Connected);
          assert forall j :: 0 <= j < i - 1 ==> statuses[1..][j] == statuses[j + 1];
        }
        if ConnectedFirst(statuses[1..], kind) {
          var i :| 0 <= i < |statuses[1..]| && statuses[1..][i] == Provider(kind, Connected)
                   && forall j :: 0 <= j < i ==> statuses[1..][j].kind != kind;
          assert statuses[i + 1] == Provider(kind, Connected);
          assert forall j :: 0 < j < i + 1 ==> statuses[j] == statuses[1..][j - 1];
        }
      } else {
        assert statuses[0].status == Connected ==> statuses[0] == Provider(kind, Connected);
      }
    }
  }

  lemma {:induction false} LicenceListPasses(types: seq<string>, licences: seq<Licence>, at: Time)
    ensures LicenceListDenial(types, licences, at).None?
       <==> forall t :: t in types ==> HoldsLicence(licences, t, at)
  {
    if types != [] {
      AnySatisfyingExactly(licences, types[0], at);
      LicenceListPasses(types[1..], licences, at);
      assert types == [types[0]] + types[1..];
    }
  }

  lemma {:induction false} ProviderListPasses(kinds: seq<string>, statuses: seq<Provider>)
    ensures ProviderListDenial(kinds, statuses).None? <==> forall k :: k in kinds ==> ConnectedFirst(statuses, k)
  {
    if kinds != [] {
      ProviderListPasses(kinds[1..], statuses);
      FindProviderIsFirst(statuses, kinds[0]);
      assert kinds == [kinds[0]] + kinds[1..];
    }
  }

  lemma LaterGates(x: Inputs, c: Cleared, at: Time)
    requires x.ceiling.Resolved? && FindCleared(x.ceiling.cleared, x.capability) == Some(c)
    ensures ConsentDenial(c.basis, x.consent).None? <==> Passes(CONSENT, x, at)
    ensures LicenceDenial(c.licenceTypes, x.licensing, at).None? <==> Passes(LICENCE, x, at)
    ensures ProviderDenial(c.providerKinds, x.providers).None? <==> Passes(PROVIDER, x, at)
  {
    forall d ensures Clears(x, d) <==> d == c {
      ClearsIsFound(x, d);
    }
    if x.licensing.Entity? {
      LicenceListPasses(c.licenceTypes, x.licensing.licences, at);
    }
    if x.providers.Statuses? {
      ProviderListPasses(c.providerKinds, x.providers.statuses);
    }
    assert Clears(x, c);
    assert c.licenceTypes != [] ==> c.licenceTypes[0] in c.licenceTypes;
    assert c.providerKinds != [] ==> c.providerKinds[0] in c.providerKinds;
    assert Passes(LICENCE, x, at) <==> LicencesHeld(c, x.licensing, at);
    assert Passes(PROVIDER, x, at) <==> ProvidersConnected(c, x.providers);
  }

  lemma JurisdictionGate(x: Inputs, at: Time)
    requires x.ceiling.Resolved?
    ensures Passes(JURISDICTION, x, at)
       <==> var found := FindCleared(x.ceiling.cleared, x.capability);
            found.Some? && x.ceiling.scope in x.descriptor.declaredScopes
                && (found.value.requiresVerified ==> x.ceiling.verified)
  {
    forall d ensures Clears(x, d) <==> FindCleared(x.ceiling.cleared, x.capability) == Some(d) {
      ClearsIsFound(x, d);
    }
  }

  /** Allowed exactly when all eight gates pass; otherwise the first that fails is
      named. */
  lemma ResolutionIsTheMeetOfTheGates(x: Inputs, at: Time)
    ensures Resolve(x, at).Allowed? <==> forall g :: Passes(g, x, at)
    ensures Resolve(x, at).DeniedAt? ==>
              && !Passes(Resolve(x, at).gate, x, at)
              && forall g :: Rank(g) < Rank(Resolve(x, at).gate) ==> Passes(g, x, at)
  {
    if x.ceiling.Resolved? {
      JurisdictionGate(x, at);
      var found := FindCleared(x.ceiling.cleared, x.capability);
      if found.Some? {
        LaterGates(x, found.value, at);
      }
    }
    if Resolve(x, at).Allowed? {
      forall g ensures Passes(g, x, at) {
        match g
        case _ =>
      }
    } else {
      assert !Passes(Resolve(x, at).gate, x, at);
    }
  }

  // ---------------------------------------------------------------------
  // Reasons
  // ---------------------------------------------------------------------

  /** Which gate can give each reason. */
  predicate ReasonOf(gate: Gate, reason: Reason) {
    match reason
    case NOT_IMPLEMENTED => gate == DESCRIPTOR
    case NOT_DEPLOYED => gate == DESCRIPTOR
    case WRONG_ENVIRONMENT => gate == ENVIRONMENT
    case JURISDICTION_ABSENT => gate == JURISDICTION
    case JURISDICTION_UNVERIFIED => gate == JURISDICTION
    case JURISDICTION_NOT_CLEARED => gate == JURISDICTION
    case POLICY_PACK_NOT_APPROVED => gate == JURISDICTION
    case PENDING_PROVIDER => gate == AVAILABILITY || gate == PROVIDER
    case ENTITLEMENT_MISSING => gate == ENTITLEMENT
    case ENTITLEMENT_EXPIRED => gate == ENTITLEMENT
    case CONSENT_REQUIRED => gate == CONSENT
    case RECONSENT_REQUIRED => gate == CONSENT
    case PROCESSING_BASIS_UNRESOLVED => gate == CONSENT
    case LICENCE_MISSING => gate == LICENCE
    case LICENCE_EXPIRED => gate == LICENCE
    case PROVIDER_UNAVAILABLE => gate == PROVIDER
    case _ => gate == AVAILABILITY
  }

  lemma {:induction false} LicenceReasons(types: seq<string>, licences: seq<Licence>, at: Time)
    ensures var r := LicenceListDenial(types, licences, at); r.Some? ==> ReasonOf(LICENCE, r.value)
  {
    if types != [] {
      LicenceReasons(types[1..], licences, at);
    }
  }

  lemma {:induction false} ProviderReasons(kinds: seq<string>, statuses: seq<Provider>)
    ensures var r := ProviderListDenial(kinds, statuses); r.Some? ==> ReasonOf(PROVIDER, r.value)
  {
    if kinds != [] {
      ProviderReasons(kinds[1..], statuses);
    }
  }

  lemma GateReasons(c: Cleared, consent: ConsentFacts, licensing: Licensing, providers: Providers, at: Time)
    ensures var r := ConsentDenial(c.basis, consent); r.Some? ==> ReasonOf(CONSENT, r.value)
    ensures var r := LicenceDenial(c.licenceTypes, licensing, at); r.Some? ==> ReasonOf(LICENCE, r.value)
    ensures var r := ProviderDenial(c.providerKinds, providers); r.Some? ==> ReasonOf(PROVIDER, r.value)
  {
    if licensing.Entity? {
      LicenceReasons(c.licenceTypes, licensing.licences, at);
    }
    if providers.Statuses? {
      ProviderReasons(c.providerKinds, providers.statuses);
    }
  }

  lemma LaterReasons(x: Inputs, c: Cleared, at: Time)
    ensures var d := ResolveCleared(x, c, at); d.DeniedAt? ==> ReasonOf(d.gate, d.reason)
  {
    GateReasons(c, x.consent, x.licensing, x.providers, at);
  }

  lemma ReasonNamesItsGate(x: Inputs, at: Time)
    ensures Resolve(x, at).DeniedAt? ==> ReasonOf(Resolve(x, at).gate, Resolve(x, at).reason)
  {
    if x.ceiling.Resolved? {
      var found := FindCleared(x.ceiling.cleared, x.capability);
      if found.Some? {
        LaterReasons(x, found.value, at);
      }
    }
  }

  /** A licence denial reads EXPIRED exactly when the first unsatisfied type has a
      lapsed licence of that type. */
  lemma {:induction false} LicenceExpiredExactly(types: seq<string>, licences: seq<Licence>, at: Time)
    ensures LicenceListDenial(types, licences, at) == Some(LICENCE_EXPIRED)
       <==> exists i :: 0 <= i < |types| && !HoldsLicence(licences, types[i], at) && HasExpired(licences, types[i], at)
                        && forall j :: 0 <= j < i ==> HoldsLicence(licences, types[j], at)
  {
    if types != [] {
      var rest := types[1..];
      LicenceExpiredExactly(rest, licences, at);
      AnySatisfyingExactly(licences, types[0], at);
      if HoldsLicence(licences, types[0], at) {
        assert forall i :: 0 <= i < |rest| ==> rest[i] == types[i + 1];
        if i :| 0 <= i < |rest| && !HoldsLicence(licences, rest[i], at) && HasExpired(licences, rest[i], at)
                && forall j :: 0 <= j < i ==> HoldsLicence(licences, rest[j], at) {
          forall j | 0 <= j < i + 1 ensures HoldsLicence(licences, types[j], at) {
            assert j == 0 || types[j] == rest[j - 1];
          }
          assert types[i + 1] == rest[i];
        }
        if i :| 0 <= i < |types| && !HoldsLicence(licences, types[i], at) && HasExpired(licences, types[i], at)
                && forall j :: 0 <= j < i ==> HoldsLicence(licences, types[j], at) {
          assert types[i] == rest[i - 1];
        }
      } else {
        assert types[0] == types[0];
      }
    }
  }

  /** The first kind whose first entry is not CONNECTED is UNAVAILABLE there. */
  ghost predicate FirstBreakUnavailable(kinds: seq<string>, statuses: seq<Provider>) {
    exists i :: && 0 <= i < |kinds| && !ConnectedFirst(statuses, kinds[i]) && FirstIs(statuses, kinds[i], Unavailable)
                && forall j :: 0 <= j < i ==> ConnectedFirst(statuses, kinds[j])
  }

  ghost predicate FirstIs(statuses: seq<Provider>, kind: string, status: ProviderStatus) {
    exists i :: 0 <= i < |statuses| && statuses[i] == Provider(kind, status)
                && forall j :: 0 <= j < i ==> statuses[j].kind != kind
  }

  lemma {:induction false} FoundIsFirst(statuses: seq<Provider>, kind: string, status: ProviderStatus)
    ensures FindProvider(statuses, kind) == Some(Provider(kind, status)) <==> FirstIs(statuses, kind, status)
  {
    if statuses != [] {
      FoundIsFirst(statuses[1..], kind, status);
      if statuses[0].kind != kind {
        if i :| 0 <= i < |statuses| && statuses[i] == Provider(kind, status)
                && forall j :: 0 <= j < i ==> statuses[j].kind != kind {
          assert statuses[1..][i - 1] == Provider(kind, status);
          assert forall j :: 0 <= j < i - 1 ==> statuses[1..][j] == statuses[j + 1];
        }
        if i :| 0 <= i < |statuses[1..]| && statuses[1..][i] == Provider(kind, status)
                && forall j :: 0 <= j < i ==> statuses[1..][j].kind != kind {
          assert statuses[i + 1] == Provider(kind, status);
          assert forall j :: 0 < j < i + 1 ==> statuses[j] == statuses[1..][j - 1];
        }
      } else {
        assert statuses[0].status == status ==> statuses[0] == Provider(kind, status);
      }
    }
  }

  /** A provider denial reads UNAVAILABLE exactly when the first kind that is not
      connected is down, and PENDING otherwise. */
  lemma {:induction false} ProviderUnavailableExactly(kinds: seq<string>, statuses: seq<Provider>)
    ensures ProviderListDenial(kinds, statuses) == Some(PROVIDER_UNAVAILABLE) <==> FirstBreakUnavailable(kinds, statuses)
  {
    if kinds != [] {
      var rest := kinds[1..];
      ProviderUnavailableExactly(rest, statuses);
      FindProviderIsFirst(statuses, kinds[0]);
      FoundIsFirst(statuses, kinds[0], Unavailable);
      if ConnectedFirst(statuses, kinds[0]) {
        if i :| && 0 <= i < |rest| && !ConnectedFirst(statuses, rest[i]) && FirstIs(statuses, rest[i], Unavailable)
                && forall j :: 0 <= j < i ==> ConnectedFirst(statuses, rest[j]) {
          forall j | 0 <= j < i + 1 ensures ConnectedFirst(statuses, kinds[j]) {
            assert j == 0 || kinds[j] == rest[j - 1];
          }
          assert kinds[i + 1] == rest[i];
        }
        if i :| && 0 <= i < |kinds| && !ConnectedFirst(statuses, kinds[i]) && FirstIs(statuses, kinds[i], Unavailable)
                && forall j :: 0 <= j < i ==> ConnectedFirst(statuses, kinds[j]) {
          assert kinds[i] == rest[i - 1];
          assert forall j :: 0 <= j < i - 1 ==> rest[j] == kinds[j + 1];
        }
      } else {
        assert kinds[0] == kinds[0];
      }
    }
  }

  /** The reason each gate gives, by the facts it read. */
  ghost predicate ReasonFits(x: Inputs, gate: Gate, reason: Reason, at: Time) {
    match gate
    case DESCRIPTOR => reason == if x.descriptor.implemented then NOT_DEPLOYED else NOT_IMPLEMENTED
    case ENVIRONMENT => reason == WRONG_ENVIRONMENT
    case JURISDICTION =>
      (match x.ceiling
       case NoAssignment => reason == JURISDICTION_ABSENT
       case UnverifiedAssignment(_) => reason == JURISDICTION_UNVERIFIED
       case PackNotApproved(_, _) => reason == POLICY_PACK_NOT_APPROVED
       case Resolved(scope, _, _, _) =>
         reason == if scope in x.descriptor.declaredScopes && exists c :: Clears(x, c) then JURISDICTION_UNVERIFIED
                   else JURISDICTION_NOT_CLEARED)
    case AVAILABILITY =>
      if x.availability.NoRow? then reason == DISABLED
      else StateTells(x.availability.state, reason)
    case ENTITLEMENT =>
      reason == if x.entitlement.EntitlementRow? && x.entitlement.status != REVOKED then ENTITLEMENT_EXPIRED
                else ENTITLEMENT_MISSING
    case CONSENT =>
      forall c :: Clears(x, c) ==>
        reason == if c.basis.UnresolvedBasis? then PROCESSING_BASIS_UNRESOLVED
                  else if x.consent == ConsentStatus(ReconsentRequired, true) then RECONSENT_REQUIRED
                  else CONSENT_REQUIRED
    case LICENCE =>
      forall c :: Clears(x, c) ==>
        (reason == LICENCE_EXPIRED <==> x.licensing.Entity? && x.licensing.permitted
                                        && FirstBreakExpired(c.licenceTypes, x.licensing.licences, at))
        && reason in {LICENCE_EXPIRED, LICENCE_MISSING}
    case PROVIDER =>
      forall c :: Clears(x, c) ==>
        (reason == PROVIDER_UNAVAILABLE <==> x.providers.Statuses?
                                             && FirstBreakUnavailable(c.providerKinds, x.providers.statuses))
        && reason in {PROVIDER_UNAVAILABLE, PENDING_PROVIDER}
  }

  ghost predicate FirstBreakExpired(types: seq<string>, licences: seq<Licence>, at: Time) {
    exists i :: && 0 <= i < |types| && !HoldsLicence(licences, types[i], at) && HasExpired(licences, types[i], at)
                && forall j :: 0 <= j < i ==> HoldsLicence(licences, types[j], at)
  }

  /** The table of states that deny. */
  predicate StateTells(state: AvailabilityState, reason: Reason) {
    || (state == InternalOnly && reason == INTERNAL_ONLY) || (state == PartnerOnly && reason == PARTNER_ONLY)
    || (state == Disabled && reason == DISABLED) || (state == PendingProviderState && reason == PENDING_PROVIDER)
    || (state == PendingLegal && reason == PENDING_LEGAL_REVIEW)
    || (state == PendingRegulatory && reason == PENDING_REGULATORY_REVIEW)
  }

  lemma ConsentReasonFits(x: Inputs, c: Cleared, at: Time)
    requires forall d :: Clears(x, d) <==> d == c
    ensures var r := ConsentDenial(c.basis, x.consent); r.Some? ==> ReasonFits(x, CONSENT, r.value, at)
  {
    GateReasons(c, x.consent, x.licensing, x.providers, at);
  }

  lemma LicenceReasonFits(x: Inputs, c: Cleared, at: Time)
    requires forall d :: Clears(x, d) <==> d == c
    ensures var r := LicenceDenial(c.licenceTypes, x.licensing, at); r.Some? ==> ReasonFits(x, LICENCE, r.value, at)
  {
    GateReasons(c, x.consent, x.licensing, x.providers, at);
    if x.licensing.Entity? {
      LicenceExpiredExactly(c.licenceTypes, x.licensing.licences, at);
    }
  }

  lemma ProviderReasonFits(x: Inputs, c: Cleared, at: Time)
    requires forall d :: Clears(x, d) <==> d == c
    ensures var r := ProviderDenial(c.providerKinds, x.providers); r.Some? ==> ReasonFits(x, PROVIDER, r.value, at)
  {
    GateReasons(c, x.consent, x.licensing, x.providers, at);
    if x.providers.Statuses? {
      ProviderUnavailableExactly(c.providerKinds, x.providers.statuses);
    }
  }

  lemma LaterReasonsFit(x: Inputs, c: Cleared, at: Time)
    requires x.ceiling.Resolved? && FindCleared(x.ceiling.cleared, x.capability) == Some(c)
    ensures var d := ResolveCleared(x, c, at); d.DeniedAt? ==> ReasonFits(x, d.gate, d.reason, at)
  {
    forall d ensures Clears(x, d) <==> d == c {
      ClearsIsFound(x, d);
    }
    ConsentReasonFits(x, c, at);
    LicenceReasonFits(x, c, at);
    ProviderReasonFits(x, c, at);
  }

  /** Every denial gives exactly the reason its gate's facts call for. */
  lemma ReasonsAreExact(x: Inputs, at: Time)
    ensures Resolve(x, at).DeniedAt? ==> ReasonFits(x, Resolve(x, at).gate, Resolve(x, at).reason, at)
  {
    if x.ceiling.Resolved? {
      var found := FindCleared(x.ceiling.cleared, x.capability);
      forall d ensures Clears(x, d) <==> found == Some(d) {
        ClearsIsFound(x, d);
      }
      if found.Some? {
        LaterReasonsFit(x, found.value, at);
      }
    }
  }

  /** Allowed or denied, the resolution names the capability, the state of the row and
      every version it read; the pins follow the facts and nothing else. */
  lemma ResolutionsArePinned(x: Inputs, at: Time)
    ensures var r := Resolve(x, at);
            var p := r.provenance;
            && r.capability == x.capability && (r.Allowed? ==> x.availability.Row? && r.state == x.availability.state)
            && p.environment == x.environment && p.resolvedAt == at
            && (x.ceiling.Resolved? ==> p.packVersion == Some(x.ceiling.pack) && p.jurisdiction == Some(x.ceiling.scope))
            && (x.ceiling.PackNotApproved? ==>
                  p.packVersion == x.ceiling.notApprovedPack && p.jurisdiction == Some(x.ceiling.scope))
            && (x.ceiling.UnverifiedAssignment? ==> p.packVersion == None && p.jurisdiction == Some(x.ceiling.scope))
            && (x.ceiling.NoAssignment? ==> p.packVersion == None && p.jurisdiction == None)
            && (match x.availability
                case Row(id, _, version) => p.rowId == Some(id) && p.rowVersion == Some(version)
                case NoRow(_) => p.rowId == None && p.rowVersion == None)
            && (match x.entitlement
                case EntitlementRow(id, _, _, _, version) => p.entitlementId == Some(id)
                    && p.entitlementVersion == Some(version)
                case NoEntitlement => p.entitlementId == None && p.entitlementVersion == None)
  {
  }

  // ---------------------------------------------------------------------
  // Restrict only
  // ---------------------------------------------------------------------

  /** No entitlement, consent, licence or provider fact alters a denial of the
      first four gates. */
  lemma CeilingDenialsStand(x: Inputs, y: Inputs, at: Time)
    requires Resolve(x, at).DeniedAt? && Rank(Resolve(x, at).gate) <= 4
    requires y == x.(entitlement := y.entitlement, consent := y.consent, licensing := y.licensing, providers := y.providers)
    ensures Resolve(y, at).DeniedAt?
    ensures Resolve(y, at).gate == Resolve(x, at).gate && Resolve(y, at).reason == Resolve(x, at).reason
  {
  }

  /** d clears no less than c. */
  predicate ClearsMore(c: Cleared, d: Cleared) {
    && d.capability == c.capability
    && (d.requiresVerified ==> c.requiresVerified)
    && (d.basis == c.basis || d.basis.DeclaredBasis? || c.basis.UnresolvedBasis?)
    && (forall t :: t in d.licenceTypes ==> t in c.licenceTypes)
    && (forall k :: k in d.providerKinds ==> k in c.providerKinds)
  }

  /** l is not better than m, as evidence. */
  predicate EvidencesMore(l: Licence, m: Licence) {
    && l.licenceType == m.licenceType
    && (l.status == Evidenced && l.effective.Some? ==>
          && m.status == Evidenced && m.effective.Some? && m.effective.value <= l.effective.value
          && (m.expiry.None? || (l.expiry.Some? && l.expiry.value <= m.expiry.value)))
  }

  /** y's facts are, one by one, at least as strong as x's. */
  ghost predicate Weaker(x: Inputs, y: Inputs) {
    && x.capability == y.capability
    && (x.descriptor.implemented ==> y.descriptor.implemented)
    && (x.descriptor.deployed ==> y.descriptor.deployed)
    && (forall s :: s in x.descriptor.declaredScopes ==> s in y.descriptor.declaredScopes)
    && (x.ceiling.Resolved? ==>
          && y.ceiling.Resolved? && y.ceiling.scope == x.ceiling.scope && (x.ceiling.verified ==> y.ceiling.verified)
          && forall c :: c in x.ceiling.cleared ==> exists d :: d in y.ceiling.cleared && ClearsMore(c, d))
    && (x.availability.Row? && Allowing(x.availability.state) ==> y.availability.Row? && Allowing(y.availability.state))
    && (x.entitlement.EntitlementRow? && x.entitlement.status == ACTIVE ==>
          && y.entitlement.EntitlementRow? && y.entitlement.status == ACTIVE && y.entitlement.from <= x.entitlement.from
          && (y.entitlement.to.None? || (x.entitlement.to.Some? && x.entitlement.to.value <= y.entitlement.to.value)))
    && (x.consent == ConsentStatus(ConsentActive, true) ==> y.consent == x.consent)
    && (x.licensing.Entity? && x.licensing.permitted ==>
          && y.licensing.Entity? && y.licensing.permitted
          && forall l :: l in x.licensing.licences ==> exists m :: m in y.licensing.licences && EvidencesMore(l, m))
    && (x.providers.Statuses? ==>
          && y.providers.Statuses?
          && forall s :: s in x.providers.statuses && s.status == Connected ==> s in y.providers.statuses)
  }

  /** No capability is cleared twice and no provider kind listed twice. */
  predicate KeysDistinct(x: Inputs) {
    && (x.ceiling.Resolved? ==>
          forall i, j :: 0 <= i < j < |x.ceiling.cleared| ==>
            x.ceiling.cleared[i].capability != x.ceiling.cleared[j].capability)
    && (x.providers.Statuses? ==>
          forall i, j :: 0 <= i < j < |x.providers.statuses| ==>
            x.providers.statuses[i].kind != x.providers.statuses[j].kind)
  }

  // ---------------------------------------------------------------------
  // When the engine is a meet
  // ---------------------------------------------------------------------

  /** Some entry for the kind says CONNECTED; the first one does. */
  predicate Connects(providers: Providers, kind: string) {
    providers.Statuses? && Provider(kind, Connected) in providers.statuses
  }

  ghost predicate ConnectsFirst(providers: Providers, kind: string) {
    providers.Statuses? && ConnectedFirst(providers.statuses, kind)
  }

  /** The first clearance, in f's place, lets through whatever d lets through. */
  ghost predicate NoStricter(f: Cleared, d: Cleared, providers: Providers) {
    && (f.requiresVerified ==> d.requiresVerified)
    && (f.basis.DeclaredBasis? || (f.basis.Consent? && d.basis.Consent?))
    && (forall t :: t in f.licenceTypes ==> t in d.licenceTypes)
    && (forall k :: k in f.providerKinds ==> ConnectsFirst(providers, k))
  }

  /** A clearance under which something could be allowed with these providers. */
  predicate Usable(d: Cleared, capability: string, providers: Providers) {
    && d.capability == capability && !d.basis.UnresolvedBasis?
    && forall k :: k in d.providerKinds ==> Connects(providers, k)
  }

  /** The condition, on the two lists alone: no usable clearance of the capability is
      more permissive than the first. */
  ghost predicate FirstIsMostPermissive(cleared: seq<Cleared>, capability: string, providers: Providers) {
    forall d :: d in cleared && Usable(d, capability, providers) ==>
      FindCleared(cleared, capability).Some? && NoStricter(FindCleared(cleared, capability).value, d, providers)
  }

  /** The facts carry these lists. */
  predicate Carries(y: Inputs, cleared: seq<Cleared>, capability: string, providers: Providers) {
    y.capability == capability && y.ceiling.Resolved? && y.ceiling.cleared == cleared && y.providers == providers
  }

  /** Over facts that carry these lists, no weakening turns a denial into an allowance. */
  ghost predicate IsMeet(cleared: seq<Cleared>, capability: string, providers: Providers) {
    forall x, y, at :: Weaker(x, y) && Carries(y, cleared, capability, providers) && Resolve(y, at).DeniedAt? ==>
      Resolve(x, at).DeniedAt?
  }

  lemma StrongerLicence(x: seq<Licence>, y: seq<Licence>, t: string, at: Time)
    requires forall l :: l in x ==> exists m :: m in y && EvidencesMore(l, m)
    requires HoldsLicence(x, t, at)
    ensures HoldsLicence(y, t, at)
  {
    var l :| l in x && InForceFor(l, t, at);
    var m :| m in y && EvidencesMore(l, m);
    assert InForceFor(m, t, at);
  }

  /** What allowed x is a usable clearance of y's list. */
  lemma AllowedByUsable(x: Inputs, y: Inputs, e: Cleared, at: Time) returns (d: Cleared)
    requires Weaker(x, y) && x.ceiling.Resolved? && Clears(x, e) && forall h :: Passes(h, x, at)
    ensures d in y.ceiling.cleared && ClearsMore(e, d) && Usable(d, y.capability, y.providers)
  {
    assert e in x.ceiling.cleared;
    d :| d in y.ceiling.cleared && ClearsMore(e, d);
    assert Passes(CONSENT, x, at) && Passes(PROVIDER, x, at);
    assert ProvidersConnected(e, x.providers);
    forall k | k in d.providerKinds ensures Connects(y.providers, k) {
      assert k in e.providerKinds;
      assert Provider(k, Connected) in x.providers.statuses;
    }
  }

  /** Gate by gate, y passes what x passes. */
  lemma StrongerGate(x: Inputs, y: Inputs, e: Cleared, d: Cleared, f: Cleared, g: Gate, at: Time)
    requires Weaker(x, y) && x.ceiling.Resolved? && Clears(x, e) && Clears(y, f) && ClearsMore(e, d)
    requires NoStricter(f, d, y.providers)
    requires forall h :: Passes(h, x, at)
    ensures Passes(g, y, at)
  {
    forall c | Clears(y, c) ensures c == f {
      ClearsIsFound(y, c);
      ClearsIsFound(y, f);
    }
    assert Passes(DESCRIPTOR, x, at) && Passes(AVAILABILITY, x, at) && Passes(ENTITLEMENT, x, at) && Passes(CONSENT, x, at);
    match g
    case JURISDICTION =>
      assert Passes(JURISDICTION, x, at);
      var b :| Clears(x, b) && (b.requiresVerified ==> x.ceiling.verified);
      ClearsIsFound(x, b);
      ClearsIsFound(x, e);
    case LICENCE =>
      assert Passes(LICENCE, x, at);
      assert LicencesHeld(e, x.licensing, at);
      forall t | t in f.licenceTypes ensures y.licensing.Entity? && y.licensing.permitted
          && HoldsLicence(y.licensing.licences, t, at) {
        assert t in d.licenceTypes;
        assert t in e.licenceTypes;
        StrongerLicence(x.licensing.licences, y.licensing.licences, t, at);
      }
      assert LicencesHeld(f, y.licensing, at);
    case PROVIDER =>
      assert ProvidersConnected(f, y.providers);
    case _ =>
  }

  /** Weakening any fact never turns a denial into an allowance, when the first
      clearance is the most permissive usable one. */
  lemma WeakeningNeverAllows(x: Inputs, y: Inputs, at: Time)
    requires Weaker(x, y) && Resolve(y, at).DeniedAt?
    requires y.ceiling.Resolved? ==> FirstIsMostPermissive(y.ceiling.cleared, y.capability, y.providers)
    ensures Resolve(x, at).DeniedAt?
  {
    ResolutionIsTheMeetOfTheGates(x, at);
    if Resolve(x, at).Allowed? {
      ResolutionIsTheMeetOfTheGates(y, at);
      assert Passes(JURISDICTION, x, at);
      var e :| Clears(x, e);
      var d := AllowedByUsable(x, y, e, at);
      var f := FindCleared(y.ceiling.cleared, y.capability).value;
      ClearsIsFound(y, f);
      forall g ensures Passes(g, y, at) {
        StrongerGate(x, y, e, d, f, g, at);
      }
    }
  }

  // The other direction: facts that just satisfy one clearance.

  function LicencesFor(types: seq<string>): (licences: seq<Licence>)
    ensures |licences| == |types|
    ensures forall i :: 0 <= i < |types| ==> licences[i] == Licence(types[i], Evidenced, Some(0), None)
  {
    seq(|types|, i requires 0 <= i < |types| => Licence(types[i], Evidenced, Some(0), None))
  }

  function ConnectedKinds(kinds: seq<string>): (statuses: seq<Provider>)
    ensures |statuses| == |kinds| && forall i :: 0 <= i < |kinds| ==> statuses[i] == Provider(kinds[i], Connected)
  {
    seq(|kinds|, i requires 0 <= i < |kinds| => Provider(kinds[i], Connected))
  }

  /** Everything d asks for and nothing more. */
  function JustEnough(d: Cleared, providers: Providers): Inputs {
    Inputs(d.capability, "local", DescriptorFacts(true, true, ["Q"]), Resolved("Q", d.requiresVerified, "v1", [d]),
           Row("r", Available, 1), EntitlementRow("e", ACTIVE, 0, None, 1),
           if d.basis.Consent? then ConsentStatus(ConsentActive, true) else ConsentNotEvaluated,
           Entity(true, LicencesFor(d.licenceTypes)),
           if providers.Statuses? then Statuses(ConnectedKinds(d.providerKinds)) else ProvidersNotEvaluated)
  }

  /** The same facts over the given lists. */
  function OverLists(d: Cleared, cleared: seq<Cleared>, providers: Providers): Inputs {
    JustEnough(d, providers).(ceiling := Resolved("Q", d.requiresVerified, "v1", cleared), providers := providers)
  }

  lemma {:induction false} FirstOf(kinds: seq<string>, k: string) returns (i: nat)
    requires k in kinds
    ensures i < |kinds| && kinds[i] == k && forall j :: 0 <= j < i ==> kinds[j] != k
  {
    if kinds[0] == k {
      i := 0;
    } else {
      var rest := FirstOf(kinds[1..], k);
      i := rest + 1;
      assert forall j :: 1 <= j < i ==> kinds[j] == kinds[1..][j - 1];
    }
  }

  lemma KindIsConnected(kinds: seq<string>, k: string)
    ensures k in kinds <==> ConnectedFirst(ConnectedKinds(kinds), k)
    ensures k in kinds <==> Provider(k, Connected) in ConnectedKinds(kinds)
  {
    if k in kinds {
      var i := FirstOf(kinds, k);
      assert ConnectedKinds(kinds)[i] == Provider(k, Connected);
    }
  }

  lemma LicenceIsHeld(types: seq<string>, t: string)
    ensures HoldsLicence(LicencesFor(types), t, 0) <==> t in types
  {
    if t in types {
      var i :| 0 <= i < |types| && types[i] == t;
      assert InForceFor(LicencesFor(types)[i], t, 0);
    }
  }

  lemma JustEnoughIsAllowed(d: Cleared, providers: Providers)
    requires Usable(d, d.capability, providers)
    ensures Resolve(JustEnough(d, providers), 0).Allowed?
  {
    var x := JustEnough(d, providers);
    assert FindCleared([d], d.capability) == Some(d);
    LicenceListPasses(d.licenceTypes, LicencesFor(d.licenceTypes), 0);
    forall t ensures HoldsLicence(LicencesFor(d.licenceTypes), t, 0) <==> t in d.licenceTypes {
      LicenceIsHeld(d.licenceTypes, t);
    }
    ProviderListPasses(d.providerKinds, ConnectedKinds(d.providerKinds));
    forall k ensures ConnectedFirst(ConnectedKinds(d.providerKinds), k) <==> k in d.providerKinds {
      KindIsConnected(d.providerKinds, k);
    }
    if d.providerKinds != [] {
      assert Connects(providers, d.providerKinds[0]);
    }
  }

  lemma StricterIsDenied(d: Cleared, cleared: seq<Cleared>, providers: Providers)
    requires FindCleared(cleared, d.capability).Some? && !NoStricter(FindCleared(cleared, d.capability).value, d, providers)
    ensures Resolve(OverLists(d, cleared, providers), 0).DeniedAt?
  {
    var f, y := FindCleared(cleared, d.capability).value, OverLists(d, cleared, providers);
    LicenceListPasses(f.licenceTypes, LicencesFor(d.licenceTypes), 0);
    if t :| t in f.licenceTypes && t !in d.licenceTypes {
      LicenceIsHeld(d.licenceTypes, t);
    }
    if providers.Statuses? {
      ProviderListPasses(f.providerKinds, providers.statuses);
    }
    assert LicenceDenial(f.licenceTypes, y.licensing, 0) == LicenceListDenial(f.licenceTypes, LicencesFor(d.licenceTypes), 0);
  }

  lemma JustEnoughIsWeaker(d: Cleared, cleared: seq<Cleared>, providers: Providers)
    requires d in cleared && Usable(d, d.capability, providers)
    ensures Weaker(JustEnough(d, providers), OverLists(d, cleared, providers))
  {
    var x, y := JustEnough(d, providers), OverLists(d, cleared, providers);
    assert ClearsMore(d, d);
    forall l | l in x.licensing.licences ensures exists m :: m in y.licensing.licences && EvidencesMore(l, m) {
      assert EvidencesMore(l, l);
    }
    if providers.Statuses? {
      forall s | s in x.providers.statuses && s.status == Connected ensures s in providers.statuses {
        KindIsConnected(d.providerKinds, s.kind);
        assert Connects(providers, s.kind);
      }
    }
  }

  /** The exact condition, for all lists: weakening never allows, over all facts that
      carry these lists, exactly when no usable clearance of the capability is more
      permissive than the first. */
  lemma MeetExactly(cleared: seq<Cleared>, capability: string, providers: Providers)
    ensures IsMeet(cleared, capability, providers) <==> FirstIsMostPermissive(cleared, capability, providers)
  {
    if FirstIsMostPermissive(cleared, capability, providers) {
      forall x, y, at | Weaker(x, y) && Carries(y, cleared, capability, providers) && Resolve(y, at).DeniedAt?
        ensures Resolve(x, at).DeniedAt? {
        WeakeningNeverAllows(x, y, at);
      }
    }
    if IsMeet(cleared, capability, providers) {
      forall d | d in cleared && Usable(d, capability, providers)
        ensures FindCleared(cleared, capability).Some? && NoStricter(FindCleared(cleared, capability).value, d, providers) {
        FindClearedIsFirst(cleared, capability);
        if !NoStricter(FindCleared(cleared, capability).value, d, providers) {
          JustEnoughIsAllowed(d, providers);
          StricterIsDenied(d, cleared, providers);
          JustEnoughIsWeaker(d, cleared, providers);
          assert Carries(OverLists(d, cleared, providers), cleared, capability, providers);
          assert false;
        }
      }
    }
  }

  // The condition, list by list.

  /** f asks for no more than d does. */
  predicate AsksNoMore(f: Cleared, d: Cleared) {
    && (f.requiresVerified ==> d.requiresVerified)
    && (f.basis.DeclaredBasis? || (f.basis.Consent? && d.basis.Consent?))
    && (forall t :: t in f.licenceTypes ==> t in d.licenceTypes)
    && (forall k :: k in f.providerKinds ==> k in d.providerKinds)
  }

  /** Every clearance of the capability with a resolved basis demands no less than the
      first. */
  predicate FirstAsksLeast(cleared: seq<Cleared>, capability: string) {
    forall d :: d in cleared && d.capability == capability && !d.basis.UnresolvedBasis? ==>
      FindCleared(cleared, capability).Some? && AsksNoMore(FindCleared(cleared, capability).value, d)
  }

  /** A kind with a CONNECTED entry has one first. */
  ghost predicate KindsKept(providers: Providers) {
    forall k :: Connects(providers, k) ==> ConnectsFirst(providers, k)
  }

  /** For a clearance list: a meet over every provider list that keeps its kinds,
      exactly when the first clearance asks least. */
  lemma ClearancesMeetExactly(cleared: seq<Cleared>, capability: string)
    ensures (forall providers :: KindsKept(providers) ==> IsMeet(cleared, capability, providers))
       <==> FirstAsksLeast(cleared, capability)
  {
    forall providers ensures IsMeet(cleared, capability, providers) <==> FirstIsMostPermissive(cleared, capability,
        providers) {
      MeetExactly(cleared, capability, providers);
    }
    if forall providers :: KindsKept(providers) ==> IsMeet(cleared, capability, providers) {
      forall d | d in cleared && d.capability == capability && !d.basis.UnresolvedBasis?
        ensures FindCleared(cleared, capability).Some? && AsksNoMore(FindCleared(cleared, capability).value, d) {
        var providers := Statuses(ConnectedKinds(d.providerKinds));
        forall k ensures k in d.providerKinds <==> ConnectsFirst(providers, k)
                 ensures k in d.providerKinds <==> Connects(providers, k) {
          KindIsConnected(d.providerKinds, k);
        }
        assert KindsKept(providers) && Usable(d, capability, providers);
      }
    }
  }

  /** For a provider list: a meet over every clearance list whose first asks least,
      exactly when each kind with a CONNECTED entry has one first. */
  lemma ProvidersMeetExactly(providers: Providers)
    ensures (forall cleared, capability :: FirstAsksLeast(cleared, capability) ==> IsMeet(cleared, capability, providers))
       <==> KindsKept(providers)
  {
    forall cleared, capability
      ensures IsMeet(cleared, capability, providers) <==> FirstIsMostPermissive(cleared, capability, providers) {
      MeetExactly(cleared, capability, providers);
    }
    if forall cleared, capability :: FirstAsksLeast(cleared, capability) ==> IsMeet(cleared, capability, providers) {
      forall k | Connects(providers, k) ensures ConnectsFirst(providers, k) {
        var d := Cleared("C", false, DeclaredBasis("b"), [], [k]);
        assert FindCleared([d], "C") == Some(d);
        assert FirstAsksLeast([d], "C");
        assert Usable(d, "C", providers) && d in [d];
        assert NoStricter(d, d, providers);
      }
    }
  }

  /** Lists that hold each key once meet the condition. */
  lemma DistinctKeysSuffice(y: Inputs)
    requires KeysDistinct(y) && y.ceiling.Resolved?
    ensures FirstAsksLeast(y.ceiling.cleared, y.capability) && KindsKept(y.providers)
    ensures FirstIsMostPermissive(y.ceiling.cleared, y.capability, y.providers)
  {
    FindClearedIsFirst(y.ceiling.cleared, y.capability);
    forall d | d in y.ceiling.cleared && d.capability == y.capability
      ensures FindCleared(y.ceiling.cleared, y.capability) == Some(d) {
      var i :| 0 <= i < |y.ceiling.cleared| && y.ceiling.cleared[i] == d;
    }
    forall k | Connects(y.providers, k) ensures ConnectsFirst(y.providers, k) {
      var j :| 0 <= j < |y.providers.statuses| && y.providers.statuses[j] == Provider(k, Connected);
      assert forall i :: 0 <= i < j ==> y.providers.statuses[i].kind != y.providers.statuses[j].kind;
    }
  }

  /** With a capability cleared twice, the strict clearance first, dropping it turns a
      denial into an allowance. */
  lemma DuplicateClearanceBreaksMeet()
    ensures exists cleared :: !IsMeet(cleared, "C", ProvidersNotEvaluated)
  {
    var strict := Cleared("C", false, DeclaredBasis("b"), ["L"], []);
    var lax := Cleared("C", false, DeclaredBasis("b"), [], []);
    assert FindCleared([strict, lax], "C") == Some(strict);
    assert lax in [strict, lax] && Usable(lax, "C", ProvidersNotEvaluated) && "L" in strict.licenceTypes;
    MeetExactly([strict, lax], "C", ProvidersNotEvaluated);
  }

  /** With a kind listed twice, not connected first, so does dropping that entry. */
  lemma DuplicateProviderBreaksMeet()
    ensures var providers := Statuses([Provider("K", Unavailable), Provider("K", Connected)]);
            exists cleared :: !IsMeet(cleared, "C", providers)
  {
    var providers := Statuses([Provider("K", Unavailable), Provider("K", Connected)]);
    var d := Cleared("C", false, DeclaredBasis("b"), [], ["K"]);
    assert FindCleared([d], "C") == Some(d);
    assert providers.statuses[1] == Provider("K", Connected);
    assert Usable(d, "C", providers) && d in [d] && "K" in d.providerKinds;
    assert providers.statuses[0].kind == "K" && !ConnectsFirst(providers, "K");
    MeetExactly([d], "C", providers);
  }
}
