/** The stored row a resolution rests on: the resolver over the availability store
    (modules/capability/application/use-cases/resolve-capability-availability.ts,
    modules/capability/infrastructure/persistence/prisma-availability-repository.ts). */
module GoverningRow {
  import opened Results
  import opened CapabilityResolution
  import opened CapabilityResolver
  import opened Registry
  import Availability

  /** The availability port answers from the rows, for the given environment. */
  ghost predicate AnswersFromRows(
    p: Ports, rows: map<Availability.RowId, Availability.Stored>, environment: string, text: Availability.RowId -> string)
  {
    forall scope, id ::
      p.availability(scope, id).Some? ==>
        Availability.FactsAre(rows, environment, scope, id, text, p.availability(scope, id).value)
  }

  /** The row is for exactly this environment, jurisdiction and capability. */
  predicate IsFor(row: Availability.Stored, environment: string, scope: Option<string>, capability: string) {
    row.record.environment == environment && row.record.scope == scope && row.record.capability == capability
  }

  /** Over every run of the writers: a jurisdiction's own row governs. If it does not
      allow, nothing is allowed there, whatever the environment-wide row says. */
  lemma OwnRowGoverns(
    r: View, steps: seq<Availability.Step>, p: Ports, d: Descriptor, environment: string, ceiling: Ceiling, subject: Subject,
    id: string, x: Inputs, row: Availability.RowId, text: Availability.RowId -> string, at: Time)
    requires Availability.PossibleRun(r, steps)
    requires var rows := Availability.Run(r, steps).rows;
             && AnswersFromRows(p, rows, environment, text)
             && row in rows && ceiling.Resolved? && IsFor(rows[row], environment, Some(ceiling.scope), id)
             && rows[row].record.state !in {Available, Beta}
    requires CoreAnswered(p, d, environment, ceiling, subject, id, x)
    ensures Resolve(x, at).DeniedAt? && Rank(Resolve(x, at).gate) <= 4
  {
    var rows := Availability.Run(r, steps).rows;
    var scope := Some(ceiling.scope);
    assert Availability.Matches(rows[row].record, environment, scope, id);
    OwnRowIsEffective(r, steps, environment, ceiling.scope, id, row);
    assert Availability.FactsAre(rows, environment, scope, id, text, x.availability);
    ResolutionIsTheMeetOfTheGates(x, at);
    assert !Passes(AVAILABILITY, x, at);
  }

  /** The jurisdiction's row is the only one that can be effective for it. */
  lemma OwnRowIsEffective(
    r: View, steps: seq<Availability.Step>, environment: string, scope: string, id: string, row: Availability.RowId)
    requires Availability.PossibleRun(r, steps) && row in Availability.Run(r, steps).rows
    requires IsFor(Availability.Run(r, steps).rows[row], environment, Some(scope), id)
    ensures var rows := Availability.Run(r, steps).rows;
            && Availability.HasEffective(rows, environment, Some(scope), id)
            && forall k :: Availability.Effective(rows, environment, Some(scope), id, k) ==> k == row
  {
    var rows := Availability.Run(r, steps).rows;
    assert Availability.Matches(rows[row].record, environment, Some(scope), id);
    forall k | Availability.Effective(rows, environment, Some(scope), id, k) ensures k == row {
      Availability.ScopedRowIsUnique(r, steps, k, row);
    }
  }

  /** Without a row of its own a jurisdiction has the environment-wide one, the latest
      written; with neither, it is denied. */
  lemma EnvironmentRowIsTheFallback(
    r: View, steps: seq<Availability.Step>, p: Ports, d: Descriptor, environment: string, ceiling: Ceiling, subject: Subject,
    id: string, x: Inputs, text: Availability.RowId -> string, at: Time)
    requires Availability.PossibleRun(r, steps)
    requires var rows := Availability.Run(r, steps).rows;
             && AnswersFromRows(p, rows, environment, text) && ceiling.Resolved?
             && forall k :: k in rows ==> !IsFor(rows[k], environment, Some(ceiling.scope), id)
    requires CoreAnswered(p, d, environment, ceiling, subject, id, x)
    ensures var rows := Availability.Run(r, steps).rows;
            if exists k :: k in rows && IsFor(rows[k], environment, None, id) then
              exists k :: && k in rows && IsFor(rows[k], environment, None, id)
                          && x.availability == Row(text(k), rows[k].record.state, rows[k].record.version)
                          && forall j :: j in rows && j != k && IsFor(rows[j], environment, None, id) ==>
                               rows[j].updatedAt <= rows[k].updatedAt
            else
              && Resolve(x, at).DeniedAt? && Rank(Resolve(x, at).gate) <= 4
              && x.availability == NoRow(exists k :: && k in rows && rows[k].record.capability == id
                                                     && rows[k].record.environment != environment)
  {
    var rows := Availability.Run(r, steps).rows;
    var scope := Some(ceiling.scope);
    assert Availability.FactsAre(rows, environment, scope, id, text, x.availability);
    assert forall k, s :: k in rows ==> (Availability.Matches(rows[k].record, environment, s, id) <==> IsFor(rows[k],
        environment, s, id));
    ResolutionIsTheMeetOfTheGates(x, at);
    assert x.availability.NoRow? ==> !Passes(AVAILABILITY, x, at);
    if k :| k in rows && IsFor(rows[k], environment, None, id) {
      var id' :| Availability.Effective(rows, environment, scope, id, id')
                 && x.availability == Row(text(id'), rows[id'].record.state, rows[id'].record.version);
      assert Availability.IsLatest(rows, environment, None, id, id');
      assert IsFor(rows[id'], environment, None, id);
    }
  }
}
