/** Validation of a policy pack and of a set of them: one instant, one pack in force
    per jurisdiction (packages/jurisdiction-policy/src/validation.ts). */
module PackSet {
  import opened Results
  import opened Strings

  /** A policy decision: decided, and on which instrument. */
  datatype Decision = Decision(decided: bool, basis: Option<string>)

  /** The decision slots that stand alone. */
  datatype Slot = ConsentRequirements | IdentityRequirements | DisclosurePolicy | CurrencyPolicy | AiProcessingPolicy

  /** Periods are half open; None is an open end. */
  datatype Pack = Pack(
    version: string, jurisdiction: string,
    effectiveFrom: int, effectiveTo: Option<int>,
    approved: bool, approvalReference: Option<string>,
    clearedCapabilities: seq<string>, resolutionStrategies: map<string, string>,
    declaredPurposes: seq<string>, processingBases: map<string, Decision>,
    financialRulesets: map<string, Decision>, retention: map<string, Decision>,
    approvalPolicies: map<string, Decision>, slots: map<Slot, Decision>)

  /** What the caller supplies: the known strategies, the disclosure-bearing ids. */
  datatype Context = Context(strategies: set<string>, disclosureBearing: set<string>)

  /** Where a decision stands in its version. */
  datatype Where =
    | Ruleset(capability: string) | Basis(purpose: string) | Retention(category: string) | Approval(capability: string)
    | At(slot: Slot)

  datatype Finding =
    | MissingVersion
    | MissingJurisdiction
    | InvalidEffectivePeriod(version: string)
    | ApprovalEvidenceMissing(version: string)
    | MissingResolutionStrategy(capability: string)
    | UnknownResolutionStrategy(capability: string, strategy: string)
    | MissingApprovalPolicy(capability: string)
    | MissingProcessingBasis(purpose: string)
    | DecisionWithoutBasis(where: Where)
    | DuplicateVersion(version: string)
    | OverlappingEffectivePeriods(versionA: string, versionB: string)

  /** The pack is in force at t. */
  predicate Covers(p: Pack, t: int) {
    p.effectiveFrom <= t && (p.effectiveTo.None? || t < p.effectiveTo.value)
  }

  predicate ValidPeriod(p: Pack) {
    p.effectiveTo.None? || p.effectiveTo.value > p.effectiveFrom
  }

  /** from < end, with an open end at infinity. */
  predicate Before(from: int, end: Option<int>) {
    end.None? || from < end.value
  }

  /** The pairwise test of the nested loops. */
  predicate Clash(a: Pack, b: Pack) {
    && a.jurisdiction == b.jurisdiction
    && Before(a.effectiveFrom, b.effectiveTo) && Before(b.effectiveFrom, a.effectiveTo)
    && a.version != b.version
  }

  /** The key of the seen-versions set. */
  function VersionKey(p: Pack): string {
    p.jurisdiction + "#" + p.version
  }

  // ---------------------------------------------------------------------
  // One policy pack
  // ---------------------------------------------------------------------

  predicate MissesBasis(d: Decision) {
    d.decided && (d.basis.None? || Blank(d.basis.value))
  }

  /** The decision standing at a place, if any. */
  function DecisionAt(pack: Pack, where: Where): Option<Decision> {
    match where
    case Ruleset(id) => Lookup(pack.financialRulesets, id)
    case Basis(purpose) => Lookup(pack.processingBases, purpose)
    case Retention(category) => Lookup(pack.retention, category)
    case Approval(id) => Lookup(pack.approvalPolicies, id)
    case At(slot) => if slot in pack.slots then Some(pack.slots[slot]) else None
  }

  function Lookup<V>(m: map<string, V>, key: string): Option<V> {
    if key in m then Some(m[key]) else None
  }

  /** Decided, on no instrument or one whose name trims to nothing. */
  predicate Baseless(d: Decision) {
    d.decided && (d.basis == None || Trim(d.basis.value) == "")
  }

  /** When a finding is reported of one policy pack. */
  predicate PackFinding(pack: Pack, context: Context, f: Finding) {
    match f
    case MissingVersion => Blank(pack.version)
    case MissingJurisdiction => Blank(pack.jurisdiction)
    case InvalidEffectivePeriod(v) => v == pack.version && !ValidPeriod(pack)
    case ApprovalEvidenceMissing(v) =>
      && v == pack.version && pack.approved
      && (pack.approvalReference.None? || Blank(pack.approvalReference.value))
    case MissingResolutionStrategy(id) => id in pack.clearedCapabilities && CapabilityFinding(pack, context, id, f)
    case UnknownResolutionStrategy(id, _) => id in pack.clearedCapabilities && CapabilityFinding(pack, context, id, f)
    case MissingApprovalPolicy(id) => id in pack.clearedCapabilities && CapabilityFinding(pack, context, id, f)
    case MissingProcessingBasis(purpose) => purpose in pack.declaredPurposes && purpose !in pack.processingBases
    case DecisionWithoutBasis(Ruleset(id)) => id in pack.financialRulesets && Baseless(pack.financialRulesets[id])
    case DecisionWithoutBasis(Basis(purpose)) => purpose in pack.processingBases && Baseless(pack.processingBases[purpose])
    case DecisionWithoutBasis(Retention(category)) => category in pack.retention && Baseless(pack.retention[category])
    case DecisionWithoutBasis(Approval(id)) => id in pack.approvalPolicies && Baseless(pack.approvalPolicies[id])
    case DecisionWithoutBasis(At(slot)) => slot in pack.slots && Baseless(pack.slots[slot])
    case _ => false
  }

  /** When a finding is reported of a cleared capability. */
  predicate CapabilityFinding(pack: Pack, context: Context, id: string, f: Finding) {
    match f
    case MissingResolutionStrategy(c) =>
      c == id && (id in pack.resolutionStrategies ==> Blank(pack.resolutionStrategies[id]))
    case UnknownResolutionStrategy(c, strategy) =>
      && c == id && id in pack.resolutionStrategies && strategy == pack.resolutionStrategies[id]
      && !Blank(strategy) && strategy !in context.strategies
    case MissingApprovalPolicy(c) =>
      c == id && id in context.disclosureBearing && (id in pack.approvalPolicies ==> !pack.approvalPolicies[id].decided)
    case _ => false
  }

  method CheckCapability(pack: Pack, context: Context, id: string) returns (findings: seq<Finding>)
    ensures forall f :: f in findings <==> CapabilityFinding(pack, context, id, f)
  {
    findings := [];
    if id !in pack.resolutionStrategies || Blank(pack.resolutionStrategies[id]) {
      findings := findings + [MissingResolutionStrategy(id)];
    } else if pack.resolutionStrategies[id] !in context.strategies {
      findings := findings + [UnknownResolutionStrategy(id, pack.resolutionStrategies[id])];
    }
    if id in context.disclosureBearing {
      if id !in pack.approvalPolicies || !pack.approvalPolicies[id].decided {
        findings := findings + [MissingApprovalPolicy(id)];
      }
    }
  }

  /** The findings about the decisions standing at the places listed. */
  method CheckDecisions(pack: Pack, places: set<Where>) returns (findings: seq<Finding>)
    ensures forall f :: f in findings <==>
              f.DecisionWithoutBasis? && f.where in places && PackFinding(pack, Context({}, {}), f)
  {
    findings := [];
    var rest := places;
    while rest != {}
      invariant rest <= places
      invariant forall f :: f in findings <==>
                  f.DecisionWithoutBasis? && f.where in places - rest && PackFinding(pack, Context({}, {}), f)
      decreases rest
    {
      var where :| where in rest;
      var decision := DecisionAt(pack, where);
      if decision.Some? && decision.value.basis.Some? {
        BlankTrimsToNothing(decision.value.basis.value);
      }
      if decision.Some? && MissesBasis(decision.value) {
        findings := findings + [DecisionWithoutBasis(where)];
      }
      rest := rest - {where};
    }
  }

  /** Every place at which the version holds a decision. */
  function Places(pack: Pack): (places: set<Where>)
    ensures forall where :: DecisionAt(pack, where).Some? <==> where in places
  {
    (set id | id in pack.financialRulesets :: Ruleset(id)) + (set purpose | purpose in pack.processingBases :: Basis(purpose))
    + (set category | category in pack.retention :: Retention(category))
    + (set id | id in pack.approvalPolicies :: Approval(id)) + (set slot | slot in pack.slots :: At(slot))
  }

  /** The findings about the header fields. */
  predicate HeaderFinding(pack: Pack, f: Finding) {
    && (f.MissingVersion? || f.MissingJurisdiction? || f.InvalidEffectivePeriod? || f.ApprovalEvidenceMissing?)
    && PackFinding(pack, Context({}, {}), f)
  }

  method CheckHeader(pack: Pack) returns (findings: seq<Finding>)
    ensures forall f :: f in findings <==> HeaderFinding(pack, f)
  {
    findings := [];
    if Blank(pack.version) {
      findings := findings + [MissingVersion];
    }
    if Blank(pack.jurisdiction) {
      findings := findings + [MissingJurisdiction];
    }
    if pack.effectiveTo.Some? && pack.effectiveTo.value <= pack.effectiveFrom {
      findings := findings + [InvalidEffectivePeriod(pack.version)];
    }
    if pack.approved && (pack.approvalReference.None? || Blank(pack.approvalReference.value)) {
      findings := findings + [ApprovalEvidenceMissing(pack.version)];
    }
  }

  method ValidatePack(pack: Pack, context: Context) returns (findings: seq<Finding>)
    ensures forall f :: f in findings <==> PackFinding(pack, context, f)
  {
    findings := CheckHeader(pack);
    for i := 0 to |pack.clearedCapabilities|
      invariant forall f :: f in findings <==>
                  || HeaderFinding(pack, f)
                  || exists k :: 0 <= k < i && CapabilityFinding(pack, context, pack.clearedCapabilities[k], f)
    {
      var own := CheckCapability(pack, context, pack.clearedCapabilities[i]);
      findings := findings + own;
    }
    ghost var before := findings;
    for i := 0 to |pack.declaredPurposes|
      invariant forall f :: f in findings <==>
                  || f in before
                  || (f.MissingProcessingBasis? && f.purpose in pack.declaredPurposes[..i]
                      && f.purpose !in pack.processingBases)
    {
      if pack.declaredPurposes[i] !in pack.processingBases {
        findings := findings + [MissingProcessingBasis(pack.declaredPurposes[i])];
      }
    }
    assert pack.declaredPurposes[..|pack.declaredPurposes|] == pack.declaredPurposes;
    var decisions := CheckDecisions(pack, Places(pack));
    findings := findings + decisions;
    forall f ensures f in findings <==> PackFinding(pack, context, f) {
      FindingsByPart(pack, context, f);
    }
  }

  /** The parts of the check are all of it. */
  lemma FindingsByPart(pack: Pack, context: Context, f: Finding)
    ensures PackFinding(pack, context, f)
       <==> || HeaderFinding(pack, f)
            || (exists k :: && 0 <= k < |pack.clearedCapabilities|
                            && CapabilityFinding(pack, context, pack.clearedCapabilities[k], f))
            || (f.MissingProcessingBasis? && f.purpose in pack.declaredPurposes && f.purpose !in pack.processingBases)
            || (f.DecisionWithoutBasis? && f.where in Places(pack) && PackFinding(pack, Context({}, {}), f))
  {
    if (f.MissingResolutionStrategy? || f.UnknownResolutionStrategy? || f.MissingApprovalPolicy?)
       && f.capability in pack.clearedCapabilities {
      var k :| 0 <= k < |pack.clearedCapabilities| && pack.clearedCapabilities[k] == f.capability;
      assert PackFinding(pack, context, f) <==> CapabilityFinding(pack, context, pack.clearedCapabilities[k], f);
    }
  }

  /** Pack j repeats the key of an earlier pack. */
  ghost predicate Repeats(packs: seq<Pack>, j: int) {
    0 <= j < |packs| && exists i :: 0 <= i < j && VersionKey(packs[i]) == VersionKey(packs[j])
  }

  /** The pairwise loops report f for packs i and j. */
  ghost predicate Overlap(packs: seq<Pack>, i: int, j: int, f: Finding) {
    && 0 <= i < j < |packs| && Clash(packs[i], packs[j])
    && f == OverlappingEffectivePeriods(packs[i].version, packs[j].version)
  }

  /** The keyed loop reports f for pack j. */
  ghost predicate Duplicate(packs: seq<Pack>, j: int, f: Finding) {
    Repeats(packs, j) && f == DuplicateVersion(packs[j].version)
  }

  /** When a finding is reported, over the whole set. */
  ghost predicate SetFinding(packs: seq<Pack>, context: Context, f: Finding) {
    || (exists i :: 0 <= i < |packs| && PackFinding(packs[i], context, f))
    || (exists j :: Duplicate(packs, j, f))
    || (exists i, j :: Overlap(packs, i, j, f))
  }

  method ValidatePackSet(packs: seq<Pack>, context: Context) returns (findings: seq<Finding>)
    ensures forall f :: f in findings <==> SetFinding(packs, context, f)
  {
    findings := [];
    for i := 0 to |packs|
      invariant forall f :: f in findings <==> exists k :: 0 <= k < i && PackFinding(packs[k], context, f)
    {
      var own := ValidatePack(packs[i], context);
      findings := findings + own;
    }

    ghost var perPack := findings;
    var seenVersions: set<string> := {};
    for j := 0 to |packs|
      invariant forall key :: key in seenVersions <==> exists i :: 0 <= i < j && VersionKey(packs[i]) == key
      invariant forall f :: f in findings <==> f in perPack || exists k :: k < j && Duplicate(packs, k, f)
    {
      var key := VersionKey(packs[j]);
      ghost var found := findings;
      if key in seenVersions {
        findings := findings + [DuplicateVersion(packs[j].version)];
      }
      assert Repeats(packs, j) <==> key in seenVersions;
      assert forall f :: f in findings <==> f in found || Duplicate(packs, j, f);
      seenVersions := seenVersions + {key};
    }

    ghost var before := findings;
    for i := 0 to |packs|
      invariant forall f :: f in findings <==> f in before || exists k, l :: k < i && Overlap(packs, k, l, f)
    {
      ghost var outer := findings;
      for j := i + 1 to |packs|
        invariant forall f :: f in findings <==> f in outer || exists l :: l < j && Overlap(packs, i, l, f)
      {
        var a, b := packs[i], packs[j];
        ghost var found := findings;
        if a.jurisdiction == b.jurisdiction {
          var overlaps := Before(a.effectiveFrom, b.effectiveTo) && Before(b.effectiveFrom, a.effectiveTo);
          if overlaps && a.version != b.version {
            findings := findings + [OverlappingEffectivePeriods(a.version, b.version)];
          }
        }
        assert forall f :: f in findings <==> f in found || Overlap(packs, i, j, f);
      }
    }
  }

  // ---------------------------------------------------------------------
  // One instant, one pack
  // ---------------------------------------------------------------------

  ghost predicate NoSetFindings(packs: seq<Pack>, context: Context) {
    forall f :: SetFinding(packs, context, f) ==> !f.DuplicateVersion? && !f.OverlappingEffectivePeriods?
  }

  /** With neither an overlap nor a duplicate reported, no instant of any
      jurisdiction has two of the listed packs in force, open ends and
      inverted periods included. */
  lemma OneInstantOnePack(packs: seq<Pack>, context: Context, i: int, j: int, t: int)
    requires NoSetFindings(packs, context)
    requires 0 <= i < j < |packs| && packs[i].jurisdiction == packs[j].jurisdiction
    ensures !(Covers(packs[i], t) && Covers(packs[j], t))
  {
    if Covers(packs[i], t) && Covers(packs[j], t) {
      if packs[i].version == packs[j].version {
        assert Duplicate(packs, j, DuplicateVersion(packs[j].version));
      } else {
        assert Overlap(packs, i, j, OverlappingEffectivePeriods(packs[i].version, packs[j].version));
      }
    }
  }

  /** What the pairwise test is for: two clashing packs share an instant exactly when
      neither period is inverted. */
  lemma ClashSharesInstantExactly(a: Pack, b: Pack)
    requires Clash(a, b)
    ensures (exists t :: Covers(a, t) && Covers(b, t)) <==> ValidPeriod(a) && ValidPeriod(b)
  {
    if ValidPeriod(a) && ValidPeriod(b) {
      var t := if a.effectiveFrom < b.effectiveFrom then b.effectiveFrom else a.effectiveFrom;
      assert Covers(a, t) && Covers(b, t);
    }
  }

  /** Packs i and j are two versions of one jurisdiction, both in force at t. */
  ghost predicate BothInForce(packs: seq<Pack>, i: int, j: int, t: int) {
    && 0 <= i < j < |packs|
    && packs[i].jurisdiction == packs[j].jurisdiction && packs[i].version != packs[j].version
    && Covers(packs[i], t) && Covers(packs[j], t)
  }

  /** Every two versions that share an instant are reported, and a reported pair of
      versions shares one exactly when some clashing pair of them has valid periods. */
  lemma OverlapFindingsHaveWitnesses(packs: seq<Pack>, context: Context, v: string, w: string)
    ensures (exists i, j, t :: BothInForce(packs, i, j, t) && packs[i].version == v && packs[j].version == w)
       <==> && SetFinding(packs, context, OverlappingEffectivePeriods(v, w))
            && exists i, j :: && Overlap(packs, i, j, OverlappingEffectivePeriods(v, w))
                              && ValidPeriod(packs[i]) && ValidPeriod(packs[j])
  {
    var f := OverlappingEffectivePeriods(v, w);
    if i, j, t :| BothInForce(packs, i, j, t) && packs[i].version == v && packs[j].version == w {
      assert Overlap(packs, i, j, f);
      ClashSharesInstantExactly(packs[i], packs[j]);
    }
    if i, j :| Overlap(packs, i, j, f) && ValidPeriod(packs[i]) && ValidPeriod(packs[j]) {
      ClashSharesInstantExactly(packs[i], packs[j]);
      var t :| Covers(packs[i], t) && Covers(packs[j], t);
      assert BothInForce(packs, i, j, t);
    }
  }

  /** A policy pack with no clearances and no decisions. */
  function Plain(version: string, jurisdiction: string, effectiveFrom: int, effectiveTo: Option<int>): Pack {
    Pack(version, jurisdiction, effectiveFrom, effectiveTo, false, None, [], map[], [], map[], map[], map[], map[], map[])
  }

  /** Without valid periods the pairwise test reports more: an inverted period
      covers no instant at all and is still reported as overlapping. */
  lemma InvertedPeriodOverlapsNothing(context: Context)
    ensures var packs := [Plain("v1", "QA", 10, Some(5)), Plain("v2", "QA", 0, Some(20))];
            && SetFinding(packs, context, OverlappingEffectivePeriods("v1", "v2"))
            && forall t :: !Covers(packs[0], t)
  {
    var packs := [Plain("v1", "QA", 10, Some(5)), Plain("v2", "QA", 0, Some(20))];
    assert packs[0].version[1] != packs[1].version[1];
    assert Overlap(packs, 0, 1, OverlappingEffectivePeriods("v1", "v2"));
  }

  // ---------------------------------------------------------------------
  // What the duplicate key identifies
  // ---------------------------------------------------------------------

  /** p's jurisdiction is q's, a '#' and some w, and q's version is that w, a '#' and
      p's version: the one text splits two ways. */
  ghost predicate SplitsTwice(p: Pack, q: Pack) {
    exists w :: p.jurisdiction == q.jurisdiction + "#" + w && q.version == w + "#" + p.version
  }

  lemma SplitSharesKey(p: Pack, q: Pack, w: string)
    requires p.jurisdiction == q.jurisdiction + "#" + w && q.version == w + "#" + p.version
    ensures VersionKey(p) == VersionKey(q)
  {
    assert (q.jurisdiction + "#" + w) + "#" + p.version == q.jurisdiction + "#" + (w + "#" + p.version);
  }

  lemma LongerSplits(p: Pack, q: Pack)
    requires VersionKey(p) == VersionKey(q) && |p.jurisdiction| > |q.jurisdiction|
    ensures SplitsTwice(p, q)
  {
    var m, n, key := |p.jurisdiction|, |q.jurisdiction|, VersionKey(p);
    var w := p.jurisdiction[n + 1..];
    assert key == VersionKey(q);
    assert p.jurisdiction == key[..m] && q.jurisdiction == VersionKey(q)[..n] && VersionKey(q)[n] == '#';
    assert p.jurisdiction == q.jurisdiction + "#" + w;
    assert q.version == VersionKey(q)[n + 1..] && key[n + 1..] == w + "#" + p.version;
  }

  /** Two packs share a key exactly when they are the same version of one jurisdiction
      or the common text splits at two of its '#'. */
  lemma KeysCollideExactly(p: Pack, q: Pack)
    ensures VersionKey(p) == VersionKey(q)
       <==> (p.jurisdiction == q.jurisdiction && p.version == q.version) || SplitsTwice(p, q) || SplitsTwice(q, p)
  {
    if w :| p.jurisdiction == q.jurisdiction + "#" + w && q.version == w + "#" + p.version {
      SplitSharesKey(p, q, w);
    }
    if w :| q.jurisdiction == p.jurisdiction + "#" + w && p.version == w + "#" + q.version {
      SplitSharesKey(q, p, w);
    }
    if VersionKey(p) == VersionKey(q) {
      if |p.jurisdiction| > |q.jurisdiction| {
        LongerSplits(p, q);
      } else if |q.jurisdiction| > |p.jurisdiction| {
        LongerSplits(q, p);
      } else {
        var n := |p.jurisdiction|;
        assert VersionKey(p)[..n] == p.jurisdiction && VersionKey(q)[..n] == q.jurisdiction;
        assert VersionKey(p)[n + 1..] == p.version && VersionKey(q)[n + 1..] == q.version;
      }
    }
  }

  /** Without a '#' in either jurisdiction the key separates the pairs. */
  lemma KeyIsFaithful(p: Pack, q: Pack)
    requires '#' !in p.jurisdiction && '#' !in q.jurisdiction
    ensures VersionKey(p) == VersionKey(q) <==> p.jurisdiction == q.jurisdiction && p.version == q.version
  {
    KeysCollideExactly(p, q);
    SplitHasHash(p, q);
    SplitHasHash(q, p);
  }

  lemma SplitHasHash(p: Pack, q: Pack)
    ensures SplitsTwice(p, q) ==> '#' in p.jurisdiction
  {
    if w :| p.jurisdiction == q.jurisdiction + "#" + w && q.version == w + "#" + p.version {
      assert p.jurisdiction[|q.jurisdiction|] == '#';
    }
  }

  /** What a duplicate finding says: an earlier pack is the same version of the same
      jurisdiction, or one of the two texts splits twice. */
  lemma DuplicateFindingsExactly(packs: seq<Pack>, context: Context, v: string)
    ensures SetFinding(packs, context, DuplicateVersion(v))
       <==> exists i, j :: && 0 <= i < j < |packs| && packs[j].version == v
                           && (|| (packs[i].jurisdiction == packs[j].jurisdiction && packs[i].version == v)
                               || SplitsTwice(packs[i], packs[j]) || SplitsTwice(packs[j], packs[i]))
  {
    if j :| Duplicate(packs, j, DuplicateVersion(v)) {
      var i :| 0 <= i < j && VersionKey(packs[i]) == VersionKey(packs[j]);
      KeysCollideExactly(packs[i], packs[j]);
    }
    if i, j :| && 0 <= i < j < |packs| && packs[j].version == v
               && (|| (packs[i].jurisdiction == packs[j].jurisdiction && packs[i].version == v)
                   || SplitsTwice(packs[i], packs[j]) || SplitsTwice(packs[j], packs[i])) {
      KeysCollideExactly(packs[i], packs[j]);
      assert Duplicate(packs, j, DuplicateVersion(v));
    }
  }

  /** Two different packs sharing a key, one reported as a duplicate of the other. */
  lemma KeyConfusesHash(context: Context)
    ensures var p, q := Plain("c", "a#b", 0, None), Plain("b#c", "a", 0, None);
            && p.jurisdiction != q.jurisdiction
            && SetFinding([p, q], context, DuplicateVersion("b#c"))
  {
    var p, q := Plain("c", "a#b", 0, None), Plain("b#c", "a", 0, None);
    assert VersionKey(p) == "a#b#c" == VersionKey(q);
    assert VersionKey([p, q][0]) == VersionKey([p, q][1]);
    assert Duplicate([p, q], 1, DuplicateVersion("b#c"));
  }
}
