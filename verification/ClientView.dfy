/** What a client is told of a resolution run, and what it cannot tell
    (modules/capability/domain/client-view.ts, denial-reason.ts,
    modules/capability/application/use-cases/client-capability-view.ts). */
module ClientView {
  import opened Results
  import opened CapabilityResolution
  import opened Registry
  import opened CapabilityResolver

  datatype Entry =
    | Offered(capability: string, state: AvailabilityState)
    | Refused(capability: string, reason: Reason)

  datatype Exposure = Exposure(hidden: bool, providerPendingExplainable: bool)

  predicate Surfaceable(reason: Reason) {
    reason in {CONSENT_REQUIRED, RECONSENT_REQUIRED, ENTITLEMENT_MISSING, ENTITLEMENT_EXPIRED}
  }

  /** clientReasonFor */
  predicate Told(reason: Reason, providerPendingExplainable: bool) {
    Surfaceable(reason) || (reason == PENDING_PROVIDER && providerPendingExplainable)
  }

  /** Fails closed to hidden outside the registry. */
  function ExposureFor(r: View, id: string): Exposure {
    if id !in r.descriptors then Exposure(true, false)
    else Exposure(r.descriptors[id].hidden, r.descriptors[id].providerPendingExplainable)
  }

  /** What one resolution contributes. */
  function EntriesOf(r: View, x: Resolution): seq<Entry> {
    var exposure := ExposureFor(r, x.capability);
    if exposure.hidden then []
    else match x
      case Allowed(id, state, _) => [Offered(id, state)]
      case DeniedAt(id, _, reason, _) =>
        if Told(reason, exposure.providerPendingExplainable) then [Refused(id, reason)] else []
  }

  function Projection(r: View, resolutions: seq<Resolution>): seq<Entry> {
    if resolutions == [] then []
    else Projection(r, resolutions[..|resolutions| - 1]) + EntriesOf(r, resolutions[|resolutions| - 1])
  }

  method ToClientView(r: View, resolutions: seq<Resolution>) returns (entries: seq<Entry>)
    ensures entries == Projection(r, resolutions)
  {
    entries := [];
    for i := 0 to |resolutions|
      invariant entries == Projection(r, resolutions[..i])
    {
      assert resolutions[..i + 1][..i] == resolutions[..i];
      var resolution := resolutions[i];
      var exposure := ExposureFor(r, resolution.capability);
      if exposure.hidden {
        continue;
      }
      if resolution.Allowed? {
        entries := entries + [Offered(resolution.capability, resolution.state)];
        continue;
      }
      if !Told(resolution.reason, exposure.providerPendingExplainable) {
        continue;
      }
      entries := entries + [Refused(resolution.capability, resolution.reason)];
    }
    assert resolutions[..|resolutions|] == resolutions;
  }

  /** A successful run over the whole registry: the engine's answer on each id's
      snapshot. */
  ghost predicate RunAnswers(
    r: View, environment: string, p: Ports, subject: Subject, now: Time, resolutions: seq<Resolution>)
  {
    && p.ceiling.Some? && |resolutions| == |r.ids|
    && forall k :: 0 <= k < |r.ids| ==>
         && r.ids[k] in r.descriptors
         && var x := Snapshot(p, r.descriptors[r.ids[k]], environment, p.ceiling.value, subject, r.ids[k]);
            x.Some? && resolutions[k] == Resolve(x.value, now)
  }

  lemma ReadIsARun(
    r: View, environment: string, p: Ports, subject: Subject, now: Time, read: seq<Inputs>, resolutions: seq<Resolution>)
    requires p.ceiling.Some? && |read| == |r.ids| == |resolutions|
    requires forall k :: 0 <= k < |read| ==>
               && r.ids[k] in r.descriptors && resolutions[k] == Resolve(read[k], now)
               && Snapshot(p, r.descriptors[r.ids[k]], environment, p.ceiling.value, subject, r.ids[k]) == Some(read[k])
    ensures RunAnswers(r, environment, p, subject, now, resolutions)
  {
  }

  method ResolveClientCapabilityView(resolver: Resolver, subject: Subject, now: Time)
    returns (result: Result<seq<Entry>, ResolverError>)
    modifies resolver`audit
    ensures result.Ok? ==>
              exists resolutions ::
                && RunAnswers(resolver.registry, resolver.environment, resolver.ports, subject, now, resolutions)
                && result.value == Projection(resolver.registry, resolutions)
  {
    var resolved, read := resolver.Execute(subject, now, resolver.registry.ids);
    if resolved.Err? {
      return Err(resolved.error);
    }
    assert resolver.registry.ids[..|read|] == resolver.registry.ids;
    forall k | 0 <= k < |read|
      ensures resolver.SnapshotOf(resolver.ports.ceiling.value, subject, resolver.registry.ids[k]) == Some(read[k]) {
    }
    ReadIsARun(resolver.registry, resolver.environment, resolver.ports, subject, now, read, resolved.value);
    var capabilities := ToClientView(resolver.registry, resolved.value);
    return Ok(capabilities);
  }

  // ---------------------------------------------------------------------
  // Who appears
  // ---------------------------------------------------------------------

  lemma {:induction false} EntriesComeFromResolutions(r: View, resolutions: seq<Resolution>, e: Entry)
    ensures e in Projection(r, resolutions) <==> exists k :: 0 <= k < |resolutions| && e in EntriesOf(r, resolutions[k])
  {
    if resolutions != [] {
      var front, last := resolutions[..|resolutions| - 1], resolutions[|resolutions| - 1];
      EntriesComeFromResolutions(r, front, e);
      if k :| 0 <= k < |front| && e in EntriesOf(r, front[k]) {
        assert e in EntriesOf(r, resolutions[k]);
      }
      if k :| 0 <= k < |resolutions| && e in EntriesOf(r, resolutions[k]) {
        assert k < |front| ==> e in EntriesOf(r, front[k]);
      }
    }
  }

  /** e is what a client is told of x: a visible capability's state, or the reason it is
      denied where that reason may be told. */
  predicate Tells(r: View, x: Resolution, e: Entry) {
    && x.capability in r.descriptors && !r.descriptors[x.capability].hidden && e.capability == x.capability
    && match x
       case Allowed(_, state, _) => e == Offered(x.capability, state)
       case DeniedAt(_, _, reason, _) =>
         && e == Refused(x.capability, reason)
         && (|| reason in {CONSENT_REQUIRED, RECONSENT_REQUIRED, ENTITLEMENT_MISSING, ENTITLEMENT_EXPIRED}
             || (reason == PENDING_PROVIDER && r.descriptors[x.capability].providerPendingExplainable))
  }

  /** of names the resolutions that entries tell of: in their order, and all there are. */
  ghost predicate ListsExactly(r: View, resolutions: seq<Resolution>, entries: seq<Entry>, of: seq<nat>) {
    && |of| == |entries|
    && (forall m :: 0 <= m < |of| ==> of[m] < |resolutions| && Tells(r, resolutions[of[m]], entries[m]))
    && (forall m, n :: 0 <= m < n < |of| ==> of[m] < of[n])
    && forall k, e :: 0 <= k < |resolutions| && Tells(r, resolutions[k], e) ==> k in of
  }

  lemma EntriesTell(r: View, x: Resolution)
    ensures |EntriesOf(r, x)| <= 1
    ensures forall e :: Tells(r, x, e) <==> EntriesOf(r, x) == [e]
  {
  }

  lemma ListingGrows(r: View, resolutions: seq<Resolution>, entries: seq<Entry>, of: seq<nat>, x: Resolution, e: Entry)
    requires ListsExactly(r, resolutions, entries, of) && Tells(r, x, e)
    ensures ListsExactly(r, resolutions + [x], entries + [e], of + [|resolutions|])
  {
    var all, of' := resolutions + [x], of + [|resolutions|];
    forall k, other | 0 <= k < |all| && Tells(r, all[k], other) ensures k in of' {
      if k < |resolutions| {
        assert Tells(r, resolutions[k], other);
        assert k in of;
      } else {
        assert of'[|of|] == k;
      }
    }
  }

  lemma ListingStays(r: View, resolutions: seq<Resolution>, entries: seq<Entry>, of: seq<nat>, x: Resolution)
    requires ListsExactly(r, resolutions, entries, of) && forall e :: !Tells(r, x, e)
    ensures ListsExactly(r, resolutions + [x], entries, of)
  {
    var all := resolutions + [x];
    forall k, e | 0 <= k < |all| && Tells(r, all[k], e) ensures k in of {
      assert k < |resolutions|;
      assert Tells(r, resolutions[k], e);
    }
  }

  /** The client's view is exactly what may be told of each resolution, in the registry's
      order, and nothing else. */
  lemma {:induction false} ViewListsExactly(r: View, resolutions: seq<Resolution>) returns (of: seq<nat>)
    ensures ListsExactly(r, resolutions, Projection(r, resolutions), of)
  {
    if resolutions == [] {
      return [];
    }
    var front, x := resolutions[..|resolutions| - 1], resolutions[|resolutions| - 1];
    var before := ViewListsExactly(r, front);
    EntriesTell(r, x);
    assert resolutions == front + [x];
    if EntriesOf(r, x) == [] {
      ListingStays(r, front, Projection(r, front), before, x);
      of := before;
    } else {
      ListingGrows(r, front, Projection(r, front), before, x, EntriesOf(r, x)[0]);
      of := before + [|front|];
      assert EntriesOf(r, x) == [EntriesOf(r, x)[0]];
    }
  }

  ghost predicate PassedTheCeiling(x: Inputs, at: Time) {
    forall g :: Rank(g) <= 4 ==> Passes(g, x, at)
  }

  lemma SurfaceableDenial(x: Inputs, at: Time)
    requires Resolve(x, at).DeniedAt? && Surfaceable(Resolve(x, at).reason)
    ensures PassedTheCeiling(x, at)
  {
    ResolutionIsTheMeetOfTheGates(x, at);
    ReasonNamesItsGate(x, at);
  }

  /** A client told about a missing entitlement or consent learns it only of a
      capability that passed the first four gates and is not hidden. */
  lemma SurfacedReasonsPassedTheCeiling(
    r: View, environment: string, p: Ports, subject: Subject, now: Time, resolutions: seq<Resolution>, e: Entry)
    requires RunAnswers(r, environment, p, subject, now, resolutions)
    requires e in Projection(r, resolutions) && e.Refused? && Surfaceable(e.reason)
    ensures exists k :: 0 <= k < |r.ids| && SurfacedAt(r, environment, p, subject, now, k, e.capability)
  {
    EntriesComeFromResolutions(r, resolutions, e);
    var k :| 0 <= k < |resolutions| && e in EntriesOf(r, resolutions[k]);
    var x := InputsAt(r, environment, p, subject, now, resolutions, k);
    EntryTellsReason(r, resolutions[k], e);
    SurfaceableDenial(x, now);
    assert SurfacedAt(r, environment, p, subject, now, k, e.capability);
  }

  lemma InputsAt(r: View, environment: string, p: Ports, subject: Subject, now: Time, resolutions: seq<Resolution>, k: nat)
    returns (x: Inputs)
    requires RunAnswers(r, environment, p, subject, now, resolutions) && k < |r.ids|
    ensures r.ids[k] in r.descriptors
    ensures Snapshot(p, r.descriptors[r.ids[k]], environment, p.ceiling.value, subject, r.ids[k]) == Some(x)
    ensures resolutions[k] == Resolve(x, now) && resolutions[k].capability == x.capability == r.ids[k]
  {
    x := Snapshot(p, r.descriptors[r.ids[k]], environment, p.ceiling.value, subject, r.ids[k]).value;
  }

  lemma EntryTellsReason(r: View, x: Resolution, e: Entry)
    requires e in EntriesOf(r, x) && e.Refused?
    ensures x.DeniedAt? && x.reason == e.reason && x.capability == e.capability && !ExposureFor(r, e.capability).hidden
  {
  }

  /** The k-th id is this visible capability, and its snapshot passes gates one to four. */
  ghost predicate SurfacedAt(r: View, environment: string, p: Ports, subject: Subject, now: Time, k: int, id: string) {
    && 0 <= k < |r.ids| && r.ids[k] == id && id in r.descriptors && !r.descriptors[id].hidden && p.ceiling.Some?
    && var x := Snapshot(p, r.descriptors[id], environment, p.ceiling.value, subject, id);
       x.Some? && PassedTheCeiling(x.value, now)
  }

  /** A registry accepted by validation never lets a disclosure-bearing capability
      without declared jurisdiction be allowed, or appear at all. */
  lemma UnclearedDisclosureNeverAppears(
    r: View, environment: string, p: Ports, subject: Subject, now: Time, resolutions: seq<Resolution>, id: string)
    requires WellFormed(r) && RunAnswers(r, environment, p, subject, now, resolutions)
    requires id in r.descriptors && r.descriptors[id].disclosureBearing && r.descriptors[id].declaredJurisdictions == []
    ensures forall k :: 0 <= k < |r.ids| && r.ids[k] == id ==> resolutions[k].DeniedAt?
    ensures forall e :: e in Projection(r, resolutions) ==> e.capability != id
  {
    assert id in Elements(r.ids);
    forall k | 0 <= k < |r.ids| && r.ids[k] == id ensures resolutions[k].DeniedAt? {
      var x := Snapshot(p, r.descriptors[id], environment, p.ceiling.value, subject, id).value;
      UnclearedDisclosureIsDenied(r, id, x, now);
    }
    assert Sound(id, r.descriptors[id]);
    forall e | e in Projection(r, resolutions) ensures e.capability != id {
      EntriesComeFromResolutions(r, resolutions, e);
    }
  }

  // ---------------------------------------------------------------------
  // Non-interference
  // ---------------------------------------------------------------------

  /** The clearances of capabilities a client may see. */
  function VisibleCleared(r: View, cleared: seq<Cleared>): seq<Cleared> {
    if cleared == [] then []
    else (if ExposureFor(r, cleared[0].capability).hidden then [] else [cleared[0]]) + VisibleCleared(r, cleared[1..])
  }

  lemma {:induction false} VisibleFound(r: View, cleared: seq<Cleared>, id: string)
    requires !ExposureFor(r, id).hidden
    ensures FindCleared(VisibleCleared(r, cleared), id) == FindCleared(cleared, id)
  {
    if cleared != [] {
      VisibleFound(r, cleared[1..], id);
      if !ExposureFor(r, cleared[0].capability).hidden {
        assert VisibleCleared(r, cleared)[1..] == VisibleCleared(r, cleared[1..]);
      } else {
        assert VisibleCleared(r, cleared) == VisibleCleared(r, cleared[1..]);
      }
    }
  }

  /** The two port answers differ, if at all, about hidden capabilities: their rows,
      their entitlements and their clearances. */
  ghost predicate DifferOnHidden(r: View, p: Ports, q: Ports, subject: Subject) {
    && p.ceiling.Some? && q.ceiling.Some?
    && SameVisibleCeiling(r, p.ceiling.value, q.ceiling.value)
    && (forall scope, id :: !ExposureFor(r, id).hidden ==> p.availability(scope, id) == q.availability(scope, id))
    && (forall user, id :: !ExposureFor(r, id).hidden ==>
          p.entitlement(subject.tenant, user, id) == q.entitlement(subject.tenant, user, id))
    && (forall tenant, user, purpose, scope ::
          p.consent(tenant, user, purpose, scope) == q.consent(tenant, user, purpose, scope))
    && (forall s, scope :: p.licensing(s, scope) == q.licensing(s, scope))
    && (forall kind :: p.provider(kind) == q.provider(kind))
  }

  predicate SameVisibleCeiling(r: View, a: Ceiling, b: Ceiling) {
    if a.Resolved? && b.Resolved? then
      a.(cleared := b.cleared) == b && VisibleCleared(r, a.cleared) == VisibleCleared(r, b.cleared)
    else a == b
  }

  lemma {:induction false} SameStatuses(p: Ports, q: Ports, kinds: seq<string>)
    requires forall kind :: p.provider(kind) == q.provider(kind)
    ensures StatusesOf(p, kinds) == StatusesOf(q, kinds)
  {
    if kinds != [] {
      SameStatuses(p, q, kinds[..|kinds| - 1]);
    }
  }

  lemma VisibleResolutionsAgree(r: View, environment: string, p: Ports, q: Ports, subject: Subject, now: Time, id: string)
    requires DifferOnHidden(r, p, q, subject)
    requires id in r.descriptors && !ExposureFor(r, id).hidden
    requires var d := r.descriptors[id];
             && Snapshot(p, d, environment, p.ceiling.value, subject, id).Some?
             && Snapshot(q, d, environment, q.ceiling.value, subject, id).Some?
    ensures var d := r.descriptors[id];
            Resolve(Snapshot(p, d, environment, p.ceiling.value, subject, id).value, now)
            == Resolve(Snapshot(q, d, environment, q.ceiling.value, subject, id).value, now)
  {
    var a, b := p.ceiling.value, q.ceiling.value;
    if a.Resolved? && b.Resolved? {
      VisibleFound(r, a.cleared, id);
      VisibleFound(r, b.cleared, id);
      var cleared := FindCleared(a.cleared, id);
      if cleared.Some? {
        SameStatuses(p, q, cleared.value.providerKinds);
      }
    }
    assert ClearedOf(a, id) == ClearedOf(b, id);
    var d := r.descriptors[id];
    var x := Snapshot(p, d, environment, a, subject, id).value;
    assert Snapshot(q, d, environment, b, subject, id).value == x.(ceiling := b);
    SameClearanceSameResolution(x, b, now);
  }

  /** Only the clearance found for the capability counts. */
  lemma SameClearanceSameResolution(x: Inputs, b: Ceiling, now: Time)
    requires ClearedOf(x.ceiling, x.capability) == ClearedOf(b, x.capability)
    requires if x.ceiling.Resolved? && b.Resolved? then x.ceiling.(cleared := b.cleared) == b else x.ceiling == b
    ensures Resolve(x.(ceiling := b), now) == Resolve(x, now)
  {
  }

  /** Lists that contribute alike entry by entry project alike. */
  lemma {:induction false} AlikeProjections(r: View, a: seq<Resolution>, b: seq<Resolution>)
    requires |a| == |b| && forall k :: 0 <= k < |a| ==> EntriesOf(r, a[k]) == EntriesOf(r, b[k])
    ensures Projection(r, a) == Projection(r, b)
  {
    if a != [] {
      AlikeProjections(r, a[..|a| - 1], b[..|b| - 1]);
    }
  }

  /** Two successful runs that differ only in what the ports answer about hidden
      capabilities give the client the same view. */
  lemma HiddenCapabilitiesLeakNothing(
    r: View, environment: string, p: Ports, q: Ports, subject: Subject, now: Time, a: seq<Resolution>, b: seq<Resolution>)
    requires RunAnswers(r, environment, p, subject, now, a) && RunAnswers(r, environment, q, subject, now, b)
    requires DifferOnHidden(r, p, q, subject)
    ensures Projection(r, a) == Projection(r, b)
  {
    forall k | 0 <= k < |a| ensures EntriesOf(r, a[k]) == EntriesOf(r, b[k]) {
      var id := r.ids[k];
      assert a[k].capability == id && b[k].capability == id;
      if !ExposureFor(r, id).hidden {
        VisibleResolutionsAgree(r, environment, p, q, subject, now, id);
      }
    }
    AlikeProjections(r, a, b);
  }

  /** The two resolutions are the same, or both are denials a client is not told of. */
  predicate SameToClients(r: View, x: Resolution, y: Resolution) {
    && x.capability == y.capability
    && (|| (x.Allowed? && y.Allowed? && x.state == y.state)
        || (x.DeniedAt? && y.DeniedAt? && x.reason == y.reason)
        || (&& x.DeniedAt? && y.DeniedAt?
            && !Told(x.reason, ExposureFor(r, x.capability).providerPendingExplainable)
            && !Told(y.reason, ExposureFor(r, y.capability).providerPendingExplainable)))
  }

  /** Which internal reason denies a capability is invisible. */
  lemma InternalReasonsLeakNothing(r: View, a: seq<Resolution>, b: seq<Resolution>)
    requires |a| == |b| && forall k :: 0 <= k < |a| ==> SameToClients(r, a[k], b[k])
    ensures Projection(r, a) == Projection(r, b)
  {
    AlikeProjections(r, a, b);
  }
}
