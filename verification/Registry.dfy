/** The capability registry and its validation
    (packages/capability-registry/src/validation.ts,
    modules/capability/application/registry-view.ts). */
module Registry {
  import opened CapabilityResolution

  /** deployment: environment to whether it says DEPLOYED. */
  datatype Descriptor = Descriptor(
    id: string, implemented: bool, deployment: map<string, bool>, declaredJurisdictions: seq<string>,
    disclosureBearing: bool, hidden: bool, providerPendingExplainable: bool)

  datatype View = View(ids: seq<string>, descriptors: map<string, Descriptor>)

  datatype Rule =
    | DuplicateId | IdKeyMismatch | MissingDescriptor | UndeclaredDescriptor | DeployedWhileNotImplemented
    | UnknownDeploymentEnvironment | DuplicateDeclaredJurisdiction | UndisclosedExposure

  datatype Violation = Violation(capability: string, rule: Rule)

  const Environments: set<string> := {"local", "dev", "staging", "production"}

  function DescriptorFactsFor(d: Descriptor, environment: string): DescriptorFacts {
    DescriptorFacts(d.implemented, environment in d.deployment && d.deployment[environment], d.declaredJurisdictions)
  }

  predicate Repeated(s: seq<string>) {
    exists i, j :: 0 <= i < j < |s| && s[i] == s[j]
  }

  /** What each rule forbids of the descriptor kept under id. */
  predicate Breaks(id: string, d: Descriptor, rule: Rule) {
    match rule
    case IdKeyMismatch => d.id != id
    case DeployedWhileNotImplemented => !d.implemented && exists e :: e in d.deployment && d.deployment[e]
    case UnknownDeploymentEnvironment => exists e :: e in d.deployment && e !in Environments
    case DuplicateDeclaredJurisdiction => Repeated(d.declaredJurisdictions)
    case UndisclosedExposure => d.disclosureBearing && d.declaredJurisdictions == [] && !d.hidden
    case _ => false
  }

  /** What each rule forbids of the registry. */
  predicate Violates(r: View, v: Violation) {
    match v.rule
    case DuplicateId => exists i, j :: 0 <= i < j < |r.ids| && r.ids[i] == v.capability && r.ids[j] == v.capability
    case MissingDescriptor => v.capability in r.ids && v.capability !in r.descriptors
    case UndeclaredDescriptor => v.capability !in r.ids && v.capability in r.descriptors
    case _ =>
      && v.capability in r.ids && v.capability in r.descriptors
      && Breaks(v.capability, r.descriptors[v.capability], v.rule)
  }

  function Elements(s: seq<string>): set<string> {
    set x | x in s
  }

  /** The set of a list is as large as the list exactly when nothing repeats. */
  lemma {:induction false} DistinctCount(s: seq<string>)
    ensures |Elements(s)| <= |s| && (|Elements(s)| != |s| <==> Repeated(s))
  {
    if s != [] {
      var front, last := s[..|s| - 1], s[|s| - 1];
      DistinctCount(front);
      assert s == front + [last];
      assert Elements(s) == Elements(front) + {last};
      if last in front {
        assert Elements(s) == Elements(front);
        var i :| 0 <= i < |front| && front[i] == last;
        assert s[i] == s[|s| - 1];
      } else if Repeated(s) {
        var i, j :| 0 <= i < j < |s| && s[i] == s[j];
        assert front[i] == s[i];
        assert j < |s| - 1 && front[j] == s[j];
      }
    }
  }

  method ValidateDescriptor(id: string, d: Descriptor) returns (violations: seq<Violation>)
    ensures forall v :: v in violations <==> v.capability == id && Breaks(id, d, v.rule)
  {
    violations := [];
    if d.id != id {
      violations := violations + [Violation(id, IdKeyMismatch)];
    }
    var deployedEnvironments := set e | e in d.deployment && d.deployment[e];
    if e :| e in d.deployment && d.deployment[e] {
      assert e in deployedEnvironments;
    }
    if !d.implemented && deployedEnvironments != {} {
      violations := violations + [Violation(id, DeployedWhileNotImplemented)];
    }
    var environments := d.deployment.Keys;
    ghost var before := violations;
    while environments != {}
      invariant environments <= d.deployment.Keys
      invariant forall v :: v in violations <==>
                  v in before || (v == Violation(id, UnknownDeploymentEnvironment)
                                  && exists e :: e in d.deployment && e !in environments && e !in Environments)
      decreases environments
    {
      var environment :| environment in environments;
      if environment !in Environments {
        violations := violations + [Violation(id, UnknownDeploymentEnvironment)];
      }
      environments := environments - {environment};
    }
    DistinctCount(d.declaredJurisdictions);
    if |Elements(d.declaredJurisdictions)| != |d.declaredJurisdictions| {
      violations := violations + [Violation(id, DuplicateDeclaredJurisdiction)];
    }
    if d.disclosureBearing && |d.declaredJurisdictions| == 0 && !d.hidden {
      violations := violations + [Violation(id, UndisclosedExposure)];
    }
  }

  /** A violation the first loop reports among the first n ids. */
  predicate ReportedOf(r: View, n: int, v: Violation)
    requires 0 <= n <= |r.ids|
  {
    v.rule != UndeclaredDescriptor && Violates(r.(ids := r.ids[..n]), v)
  }

  /** Every violation of every rule, and nothing else. */
  method ValidateRegistry(r: View) returns (violations: seq<Violation>)
    ensures forall v :: v in violations <==> Violates(r, v)
    ensures violations == [] <==> WellFormed(r)
  {
    violations := [];
    var seen: set<string> := {};
    for n := 0 to |r.ids|
      invariant seen == Elements(r.ids[..n])
      invariant forall v :: v in violations <==> ReportedOf(r, n, v)
    {
      var id := r.ids[n];
      assert r.ids[..n + 1] == r.ids[..n] + [id];
      if id in seen {
        violations := violations + [Violation(id, DuplicateId)];
      } else {
        seen := seen + {id};
        if id !in r.descriptors {
          violations := violations + [Violation(id, MissingDescriptor)];
        } else {
          var own := ValidateDescriptor(id, r.descriptors[id]);
          violations := violations + own;
        }
      }
      forall v ensures v in violations <==> ReportedOf(r, n + 1, v) {
        OneMoreId(r, n, v);
      }
    }
    assert r.ids[..|r.ids|] == r.ids;
    ghost var reported := violations;
    var keys := r.descriptors.Keys;
    while keys != {}
      invariant keys <= r.descriptors.Keys
      invariant forall v :: v in violations <==>
                  v in reported || (v.rule == UndeclaredDescriptor && v.capability in r.descriptors
                                    && v.capability !in keys && v.capability !in seen)
      decreases keys
    {
      var key :| key in keys;
      if key !in seen {
        violations := violations + [Violation(key, UndeclaredDescriptor)];
      }
      keys := keys - {key};
    }
    assert r.(ids := r.ids) == r;
    WellFormedExactly(r);
    if violations != [] {
      assert violations[0] in violations;
    }
  }

  /** What reading one more id adds. */
  lemma OneMoreId(r: View, n: int, v: Violation)
    requires 0 <= n < |r.ids|
    ensures ReportedOf(r, n + 1, v)
       <==> || ReportedOf(r, n, v)
            || (v.capability == r.ids[n]
                && if r.ids[n] in Elements(r.ids[..n]) then v.rule == DuplicateId
                   else if r.ids[n] !in r.descriptors then v.rule == MissingDescriptor
                   else Breaks(r.ids[n], r.descriptors[r.ids[n]], v.rule))
  {
    var shorter, longer := r.ids[..n], r.ids[..n + 1];
    assert longer == shorter + [r.ids[n]];
    if v.rule == DuplicateId {
      if i, j :| 0 <= i < j < |longer| && longer[i] == v.capability && longer[j] == v.capability {
        assert shorter[i] == longer[i];
        assert j < n ==> shorter[j] == longer[j];
      }
      if i, j :| 0 <= i < j < |shorter| && shorter[i] == v.capability && shorter[j] == v.capability {
        assert longer[i] == v.capability && longer[j] == v.capability;
      }
      if v.capability == r.ids[n] && r.ids[n] in shorter {
        var i :| 0 <= i < n && shorter[i] == r.ids[n];
        assert longer[i] == v.capability && longer[n] == v.capability;
      }
    }
  }

  /** A registry of unique ids, each with its own sound descriptor, and no others. */
  predicate WellFormed(r: View) {
    && !Repeated(r.ids)
    && Elements(r.ids) == r.descriptors.Keys
    && forall id :: id in r.ids && id in r.descriptors ==> Sound(id, r.descriptors[id])
  }

  predicate Sound(id: string, d: Descriptor) {
    && d.id == id
    && (forall e :: e in d.deployment ==> e in Environments && (d.deployment[e] ==> d.implemented))
    && !Repeated(d.declaredJurisdictions)
    && (d.disclosureBearing && !d.hidden ==> d.declaredJurisdictions != [])
  }

  lemma SoundExactly(id: string, d: Descriptor)
    ensures Sound(id, d) <==> forall rule :: !Breaks(id, d, rule)
  {
    if forall rule :: !Breaks(id, d, rule) {
      assert !Breaks(id, d, IdKeyMismatch) && !Breaks(id, d, DeployedWhileNotImplemented)
          && !Breaks(id, d, UnknownDeploymentEnvironment) && !Breaks(id, d, DuplicateDeclaredJurisdiction)
          && !Breaks(id, d, UndisclosedExposure);
    }
  }

  lemma WellFormedExactly(r: View)
    ensures WellFormed(r) <==> forall v :: !Violates(r, v)
  {
    if WellFormed(r) {
      forall v ensures !Violates(r, v) {
        if v.capability in r.ids && v.capability in r.descriptors {
          SoundExactly(v.capability, r.descriptors[v.capability]);
        }
        assert v.capability in r.ids <==> v.capability in Elements(r.ids);
      }
    }
    if forall v :: !Violates(r, v) {
      if i, j :| 0 <= i < j < |r.ids| && r.ids[i] == r.ids[j] {
        assert Violates(r, Violation(r.ids[i], DuplicateId));
      }
      forall id ensures id in r.ids <==> id in r.descriptors {
        assert !Violates(r, Violation(id, MissingDescriptor)) && !Violates(r, Violation(id, UndeclaredDescriptor));
      }
      forall id | id in r.ids && id in r.descriptors ensures Sound(id, r.descriptors[id]) {
        SoundExactly(id, r.descriptors[id]);
        forall rule ensures !Breaks(id, r.descriptors[id], rule) {
          assert !Violates(r, Violation(id, rule));
        }
      }
    }
  }

  /** In an accepted registry a disclosure-bearing capability nobody cleared is
      hidden, and the engine denies it under every ceiling and every other fact. */
  lemma UnclearedDisclosureIsDenied(r: View, id: string, x: Inputs, at: Time)
    requires WellFormed(r) && id in r.ids && id in r.descriptors
    requires r.descriptors[id].disclosureBearing && r.descriptors[id].declaredJurisdictions == []
    requires x.capability == id && x.descriptor == DescriptorFactsFor(r.descriptors[id], x.environment)
    ensures r.descriptors[id].hidden
    ensures Resolve(x, at).DeniedAt? && Rank(Resolve(x, at).gate) <= 3
  {
    assert Sound(id, r.descriptors[id]);
  }
}
