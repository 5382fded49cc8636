# Karar back end: verified model

A Dafny model of the parts of the platform whose correctness is not visible from
any one function: exact money arithmetic, the compensated tenant-binding protocol,
the eight-gate capability resolution with its write paths and client projection,
consent grants over a document life cycle, role delegation, and three small
algorithms (UUID version 7, temporal selection, validation of policy packs and of sets of them).
`dafny verify dfyconfig.toml` checks everything.

How the files read:

- Pure code is modelled by functions; what it promises is proved as lemmas against
  definitions that do not mention the code (gate predicates, `Rounds`, `ByRank`,
  `MeetsContract`, `Answers`, ...).
- A protocol is a state and a step function. A step is one port call of one call in
  flight, or something anybody else does in between; whether the port answers is
  part of the step. A sequence of steps is therefore one interleaving with one
  pattern of failures, and a lemma about every `steps` is one about every
  interleaving, failure pattern and clock.
- The use cases are classes whose methods follow the source's control flow over
  ports that change the shared state. A schedule fixed at construction lets any
  other callers step before every port call. Each method is proved to leave its
  call where the step function says, so every execution is one of the runs the
  lemmas speak of.
- Bookkeeping that only the proofs read is named as such where it is declared
  (`did`, `done`, `writers`, `grounds`): no operation branches on it.

| file | models |
|---|---|
| `IntegerMath`, `DecimalText`, `Sums`, `Strings`, `Results` | powers of ten, rounding, decimal text, sums, shared types |
| `Allocation`, `Money`, `Percentage`, `ExchangeRate` | shared kernel money types |
| `TenantBinding` | first bind, automatic bind and switch over sessions, memberships and audit |
| `CapabilityResolution`, `Registry`, `CapabilityResolver`, `ClientView` | gates, registry validation, lazy resolver, client projection |
| `Entitlements`, `Availability` | the two versioned write paths of the capability module |
| `GoverningRow` | which availability row the resolver reads, over every run of the writers |
| `Consent`, `ConsentStatus`, `ConsentService` | grant and document stores, status and content, use cases |
| `RoleGrants` | AssignRole, RevokeRole and the policy service over one store |
| `Uuid`, `Selection`, `PackSet` | UUID version 7, temporal selection, policy-pack sets |

## Where the code promises less than its text

Each of these is kept as the code has it and shown by a concrete run or input. The
condition under which the promise holds is stated for all inputs or runs, in both
directions.

- The grant query sorts by `grantedAt`, so it meets its port contract exactly when
  the last grant of a key is also the latest by its own timestamp
  (`QueryMeetsContractExactly`); a clock that goes back hides an active grant
  (`ClockGoingBackHidesActiveGrant`).
- The single environment-wide availability row is said to be kept by the use case
  (0076 migration). Over every run some scope has two rows exactly when a row was
  stored between another call's read that found none and that call's insert
  (`DuplicateRowExactly`, `TwoWritersDuplicateARow`); writers that take turns never
  leave two (`TurnsKeepScopesUnique`). Resolution picks one row in any case
  (`EffectiveRowIsUnique`).
- The gate engine is not a meet over every clearance and provider list, because a
  lookup takes the first entry (`DuplicateClearanceBreaksMeet`,
  `DuplicateProviderBreaksMeet`). It is one exactly when no usable clearance of the
  capability is more permissive than the first (`MeetExactly`): list by list, when the
  first clearance asks least (`ClearancesMeetExactly`) and each kind with a CONNECTED
  entry has one first (`ProvidersMeetExactly`). Lists that hold each key once qualify
  (`DistinctKeysSuffice`).
- A role grant rests on the authorization check, not on the write: a granter revoked
  in between still grants (`RevokedMidwayStillGrants`). At the write, the row the check
  rested on is in force exactly if it is not revoked and its end has not come
  (`BasisInForceExactly`), and the grant is without authority exactly if all that
  empowered the granter at the check has lapsed and nothing was gained since
  (`AuthorityLostExactly`, `GrantedWithoutAuthorityExactly`).
- The overlap test of policy packs also reports an inverted period, which covers
  nothing (`InvertedPeriodOverlapsNothing`). Two clashing packs share an instant exactly
  when both periods are valid (`ClashSharesInstantExactly`,
  `OverlapFindingsHaveWitnesses`).
- The duplicate key confuses two packs (`KeyConfusesHash`) exactly when one jurisdiction
  is the other, a `#` and some text, and the versions split that text the other way
  (`KeysCollideExactly`, `DuplicateFindingsExactly`).
- A role revocation within the instant of the grant, or before its start, and a consent
  withdrawal stamped before its grant are refused by the schema (`RevokesExactly`,
  `WithdrawsExactly`).

## Model

| member | source | states |
|---|---|---|
| IntegerMath.DivideRoundedIsExact | packages/shared-kernel/src/internal/integer-math.ts:47-80 | fails exactly for a non-positive denominator; otherwise answers the one integer each mode's definition picks, stated without dividing |
| IntegerMath.ModeIsDeterministic | packages/shared-kernel/src/internal/integer-math.ts:62-79 | the definition of each mode admits one integer |
| IntegerMath.RoundingMirrors | packages/shared-kernel/src/internal/integer-math.ts:60-79 | negating the numerator negates the result, FLOOR and CEIL trading places |
| IntegerMath.RoundingIsMonotone | packages/shared-kernel/src/internal/integer-math.ts:47-80 | no mode reverses the order of two numerators |
| Allocation.Allocate | packages/shared-kernel/src/money.ts:171-218 | errors exactly for no weights, a negative weight or a zero total; otherwise the largest-remainder split: floors plus one unit for the highest remainders, earlier index first on ties, summing to the amount |
| Allocation.AwardLeftover | packages/shared-kernel/src/money.ts:205-215 | the in-place fix-up turns the floors into the split by rank |
| Allocation.ByLargestRemainder | packages/shared-kernel/src/money.ts:205-210 | the sorted index list is the strict ranking by remainder, then index |
| Allocation.FloorDivide | packages/shared-kernel/src/money.ts:192-199 | truncating division corrected by hand is floor division |
| Allocation.AllocationIsOptimal | packages/shared-kernel/src/money.ts:186-217 | no integer split of the amount has a smaller sum of squared deviations from the proportional shares |
| Allocation.PartsMeetQuota | packages/shared-kernel/src/money.ts:171-218 | every part is within one unit of its exact share |
| Allocation.LeftoverBelowFractions | packages/shared-kernel/src/money.ts:203-204 | the leftover is zero or strictly below the number of non-zero remainders |
| Allocation.LeftoverIsRemainders | packages/shared-kernel/src/money.ts:189-204 | the leftover times the total weight is the sum of the remainders |
| Allocation.ZeroWeightGetsZero | packages/shared-kernel/src/money.ts:161-168 | a zero weight receives exactly zero, for every signed amount |
| Allocation.ExactSharesArePaid | packages/shared-kernel/src/money.ts:171-218 | an integral share is paid exactly |
| Allocation.AllocationIsMonotone | packages/shared-kernel/src/money.ts:205-215 | a larger weight never gets less (more, of a negative amount); equal weights differ by at most one, the earlier not behind |
| Allocation.AllocationIsDeterministic | packages/shared-kernel/src/money.ts:171-218 | the rule leaves one result |
| Allocation.ScalingWeightsChangesNothing | packages/shared-kernel/src/money.ts:171-218 | multiplying all weights by k > 0 changes no part |
| DecimalText.MatchIsGrammar | packages/shared-kernel/src/money.ts:62-84 | the literal matcher accepts exactly the texts of well-formed literals, with exactly their groups |
| Money.ParsingIsExact | packages/shared-kernel/src/money.ts:62-84 | parsing accepts exactly the literals within the currency's precision and loses no digit |
| Money.PrintParseRoundTrip | packages/shared-kernel/src/money.ts:221-231 | the printed number parses back to the same amount, for every amount and exponent |
| Percentage.ParsingIsExact | packages/shared-kernel/src/percentage.ts:48-65 | parsing accepts exactly the literals of at most 28 fractional digits, as all their digits over the power of ten two places finer; each refusal has its one condition |
| Percentage.PrintParsePreservesRatio | packages/shared-kernel/src/percentage.ts:48-97 | the printed text always parses, and denotes the same ratio |
| Percentage.TextIsCanonical | packages/shared-kernel/src/percentage.ts:82-97 | two percentages print alike exactly when they denote one ratio |
| ExchangeRate.ConvertBrackets | packages/shared-kernel/src/exchange-rate.ts:74-86 | conversion fails exactly on the wrong currency and is otherwise within one minor unit of the exact value |
| ExchangeRate.InverseFailsExactly | packages/shared-kernel/src/exchange-rate.ts:98-124 | inverting fails exactly for a bad scale or a reciprocal rounded to zero, and is otherwise within one unit of its scale |
| ExchangeRate.RatesAreMadeExactly | packages/shared-kernel/src/exchange-rate.ts:37-65 | a rate is refused for the first rule it breaks, and otherwise made as asked |
| ExchangeRate.ConvertRoundsExactly | packages/shared-kernel/src/exchange-rate.ts:74-86 | conversion answers an amount exactly when it is in the quote currency and its minor units are the integer the mode asked for picks |
| ExchangeRate.InverseRoundsExactly | packages/shared-kernel/src/exchange-rate.ts:98-124 | inverting answers a rate exactly when it is the rate the other way round, at the scale asked for, with the mantissa the mode picks; each refusal has its one condition |
| ExchangeRate.RoundTripIsDefined | packages/shared-kernel/src/exchange-rate.ts:74-124 | whenever the inverse exists, both conversions succeed |
| ExchangeRate.RoundTripError | packages/shared-kernel/src/exchange-rate.ts:74-124 | there and back misses by less than 1 + 10^(eb-eq) (10^s/M + abs(q)/10^t), for any three rounding modes |
| TenantBinding.ChoiceForIsMembership | modules/bootstrap/application/binding-state.ts:21-38 | a choice is found exactly for the tenants the user is a member of, in every form of the resolution |
| TenantBinding.AdvanceKeepsConsistent | modules/bootstrap/application/use-cases/set-tenant-binding.ts:123-255 | the position of a call always tells which binds, rechecks, records and revocations it has made, in order |
| TenantBinding.StepKeepsInvariant | modules/bootstrap/application/use-cases/set-tenant-binding.ts:123-255 | every step of anybody keeps: histories match positions, their effects stand, every new binding has a maker |
| TenantBinding.LiveBindingsAreAccounted | modules/bootstrap/application/use-cases/set-tenant-binding.ts:173-253 | over every interleaving a live session bound since the start has its SUCCESS record (a switch's under the replaced session) or its call is still in flight |
| TenantBinding.EveryExitIsSettled | modules/bootstrap/application/use-cases/get-bootstrap.ts:216-279 | every finished call that bound a session recorded it and answered so, or the session is dead and the answer claims no binding |
| TenantBinding.BoundAnswersWereVerifiedAgain | modules/bootstrap/application/use-cases/get-bootstrap.ts:245-278 | an answer of BOUND comes after three moments of the run, in order: the bind from unbound, membership held, SUCCESS appended |
| TenantBinding.HistoriesAreTrue | modules/bootstrap/application/use-cases/set-tenant-binding.ts:123-255 | every event of a call is true of the step it is stamped with |
| TenantBinding.OneCallBindsASession | modules/identity/application/use-cases/session-tenant-binding.ts:75-91 | however many calls race for a session, one binds it |
| TenantBinding.CallsFinish | modules/bootstrap/application/use-cases/set-tenant-binding.ts:79-121 | every call ends after at most six port calls, whatever they answer |
| TenantBinding.ReportsAreOffered | modules/bootstrap/application/use-cases/get-bootstrap.ts:110-208 | a bootstrap that bound nothing reports what some world its call read offers: the session's own tenant while the user is a member of it, else UNBOUND only without any membership, else all the user's choices, in the store's order |
| TenantBinding.OfferedExactly | modules/bootstrap/application/binding-state.ts:20-45 | what the first read decides: a report of exactly that kind, or an automatic bind of the one choice of an unbound session |
| TenantBinding.RequestedExactly | modules/bootstrap/application/use-cases/set-tenant-binding.ts:79-121 | a request for a tenant is answered MEMBERSHIP_REQUIRED at the read exactly without membership; with it an unbound session is bound and a bound one switched |
| TenantBinding.MalformedExactly | modules/bootstrap/application/use-cases/set-tenant-binding.ts:79-121 | a request is refused before anything is read exactly when it names no well-formed tenant id |
| TenantBinding.FirstBindSucceeds | modules/bootstrap/application/use-cases/set-tenant-binding.ts:123-190 | with every port answering, the session live and unbound at the bind and membership held at both reads, the answer is BOUND to the tenant asked for, whatever else happens in between |
| TenantBinding.SwitchSucceeds | modules/bootstrap/application/use-cases/set-tenant-binding.ts:192-255 | the same for a live bound session: the answer is the new session, switched to the tenant asked for |
| TenantBinding.AutoBindSucceeds | modules/bootstrap/application/use-cases/get-bootstrap.ts:216-279 | the same for a bootstrap of an unbound session with one membership |
| TenantBinding.RefusalsAreExact | modules/bootstrap/application/use-cases/set-tenant-binding.ts:123-255 | a bind conflicts exactly when the session is not the user's, live and unbound, or the port loses the race; a switch is answered as each of its errors demands; a recheck fails exactly without membership |
| TenantBinding.PortCallsDoExactly | modules/identity/application/use-cases/session-tenant-binding.ts:75-91 | what each port call does to sessions and audit, and that it does nothing else: a bind claims a live unbound session, a switch kills one and mints one, a revocation kills one |
| TenantBinding.RecordsSay | modules/bootstrap/application/use-cases/set-tenant-binding.ts:258-283 | the actor, tenant, action, session, reason, replaced tenant and outcome of each record |
| TenantBinding.Platform.SetTenantBinding | modules/bootstrap/application/use-cases/set-tenant-binding.ts:79-121 | ends where its call in the shared run ends; BOUND and switched answers are for the tenant asked for, verified again and recorded as the kind requires |
| TenantBinding.Platform.FirstBind | modules/bootstrap/application/use-cases/set-tenant-binding.ts:123-190 | the same, and an answer of BOUND was verified again and recorded |
| TenantBinding.Platform.Switch | modules/bootstrap/application/use-cases/set-tenant-binding.ts:192-255 | the same for a switch, undone on the new session |
| TenantBinding.Platform.AutoBind | modules/bootstrap/application/use-cases/get-bootstrap.ts:216-279 | the same for the automatic bind |
| TenantBinding.Platform.GetBootstrap | modules/bootstrap/application/use-cases/get-bootstrap.ts:110-208 | the same for the bootstrap call; a BOUND answer is the session's own binding or was verified again and recorded, and a call that bound nothing reports what a world it read offers |
| TenantBinding.Platform.Audit | modules/bootstrap/application/use-cases/set-tenant-binding.ts:258-283 | true exactly when the record this position calls for was appended to the world the write met, and then the call's history says so |
| CapabilityResolution.ResolutionIsTheMeetOfTheGates | modules/capability/domain/resolution.ts:250-341 | ALLOWED exactly when eight independently stated gate conditions hold; a denial names the first that fails |
| CapabilityResolution.ReasonNamesItsGate | modules/capability/domain/resolution.ts:268-341 | which gates can give each reason |
| CapabilityResolution.LicenceExpiredExactly | modules/capability/domain/resolution.ts:384-400 | the licence denial reads EXPIRED exactly when the first unsatisfied type has a lapsed licence |
| CapabilityResolution.ProviderUnavailableExactly | modules/capability/domain/resolution.ts:404-416 | the provider denial reads UNAVAILABLE exactly when the first kind whose first entry is not CONNECTED is UNAVAILABLE there |
| CapabilityResolution.ReasonsAreExact | modules/capability/domain/resolution.ts:268-416 | for each gate that denies, the exact condition of each reason, in the fields of the snapshot |
| CapabilityResolution.ResolutionsArePinned | modules/capability/domain/resolution.ts:254-266 | every outcome is of the capability asked for and carries exactly its environment, jurisdiction, instant, policy-pack, row and entitlement pins |
| CapabilityResolution.CeilingDenialsStand | modules/capability/domain/resolution.ts:268-312 | no entitlement, consent, licence or provider fact alters a denial of gates 1 to 4 |
| CapabilityResolution.WeakeningNeverAllows | modules/capability/domain/resolution.ts:250-416 | weakening any fact never turns a denial into an allowance, when no usable clearance is more permissive than the first |
| CapabilityResolution.MeetExactly | modules/capability/domain/resolution.ts:292-300 | for every clearance list, capability and provider list: no weakening allows, over all facts that carry them, exactly when no usable clearance is more permissive than the first |
| CapabilityResolution.ClearancesMeetExactly | modules/capability/domain/resolution.ts:292-300 | a clearance list gives a meet over all provider lists that keep their kinds exactly when its first clearance asks least among those with a resolved basis |
| CapabilityResolution.ProvidersMeetExactly | modules/capability/domain/resolution.ts:404-416 | a provider list gives a meet over all clearance lists whose first asks least exactly when each kind with a CONNECTED entry has one first |
| CapabilityResolution.DistinctKeysSuffice | modules/capability/domain/resolution.ts:292-300 | lists that hold each key once meet these conditions |
| CapabilityResolution.DuplicateClearanceBreaksMeet | modules/capability/domain/resolution.ts:292-300 | a list with the capability cleared twice, the strict clearance first, gives no meet |
| CapabilityResolution.DuplicateProviderBreaksMeet | modules/capability/domain/resolution.ts:410-414 | a list with a kind twice, not CONNECTED first, gives no meet |
| Registry.ValidateRegistry | packages/capability-registry/src/validation.ts:66-107 | reports exactly the violations of each rule, and none exactly for a well-formed registry |
| Registry.ValidateDescriptor | packages/capability-registry/src/validation.ts:109-171 | reports exactly the rules the descriptor breaks |
| Registry.WellFormedExactly | packages/capability-registry/src/validation.ts:52-65 | no violation means unique ids, each with its own sound descriptor, and no others |
| Registry.UnclearedDisclosureIsDenied | packages/capability-registry/src/validation.ts:156-168 | in an accepted registry a disclosure-bearing capability without jurisdictions is hidden and denied under every ceiling |
| CapabilityResolver.LazyRefinesEager | modules/capability/application/use-cases/resolve-capability-availability.ts:158-235 | resolving over the lazy snapshot equals resolving over one that reads every dimension, pins included, for every port answer and a null user |
| CapabilityResolver.SnapshotIsAsAnswered | modules/capability/application/use-cases/resolve-capability-availability.ts:158-235 | each dimension of a snapshot is its port's answer: availability for the governing scope or none, entitlement for tenant and user, consent, licences and providers only as the clearance asks |
| CapabilityResolver.SnapshotFailsExactly | modules/capability/application/use-cases/resolve-capability-availability.ts:158-235 | no snapshot exactly when a port that is read does not answer |
| CapabilityResolver.RefusalsAreAll | modules/capability/application/use-cases/resolve-capability-availability.ts:242-275 | the records of a run are one per refused expansion, in order, and no others |
| CapabilityResolver.RefusesExactly | modules/capability/application/use-cases/resolve-capability-availability.ts:247-258 | a refusal is recorded exactly for a denial of gates 1 to 4 beside an allowing row or an entitlement that is in force |
| CapabilityResolver.RefusalIsTold | modules/capability/application/use-cases/resolve-capability-availability.ts:242-275 | the actor, tenant, capability, gate, reason and row states of such a record |
| GoverningRow.OwnRowGoverns | modules/capability/infrastructure/persistence/prisma-availability-repository.ts:41-69 | over every run of the availability writers, a jurisdiction's own non-allowing row is never resolved ALLOWED there, whatever the environment-wide rows say |
| GoverningRow.EnvironmentRowIsTheFallback | modules/capability/infrastructure/persistence/prisma-availability-repository.ts:46-64 | over every run, where a jurisdiction has no row of its own the snapshot carries the latest environment-wide one, and with neither resolution denies by gate 4 |
| CapabilityResolver.AllowingRowPassesItsGates | modules/capability/application/use-cases/resolve-capability-availability.ts:254-258 | an allowing row is never denied at the environment or availability gate, so the audit condition excludes nothing |
| CapabilityResolver.Resolver.SnapshotFor | modules/capability/application/use-cases/resolve-capability-availability.ts:158-235 | the reads made assemble the snapshot whose every dimension is its port's answer, or one of them threw |
| CapabilityResolver.Resolver.Execute | modules/capability/application/use-cases/resolve-capability-availability.ts:100-156 | an ok run resolves each id in order and appends exactly one record per refused expansion; a failed one recorded those before the failing id |
| CapabilityResolver.Resolver.AuditAboveCeilingDenial | modules/capability/application/use-cases/resolve-capability-availability.ts:242-275 | a record exactly for a ceiling denial beside an allowing row or satisfying entitlement |
| ClientView.ToClientView | modules/capability/domain/client-view.ts:32-60 | the loop computes the projection entry by entry |
| ClientView.ViewListsExactly | modules/capability/domain/client-view.ts:32-60 | the view lists, in the registry's order and without omission, exactly each visible allowed capability with its own state and each visible denial whose reason may be told |
| ClientView.ResolveClientCapabilityView | modules/capability/application/use-cases/client-capability-view.ts:41-59 | an ok answer is the projection of a successful run over the whole registry |
| ClientView.HiddenCapabilitiesLeakNothing | modules/capability/domain/client-view.ts:37-39 | two ok runs that differ only in answers about hidden capabilities give one view |
| ClientView.InternalReasonsLeakNothing | modules/capability/domain/denial-reason.ts:88-99 | which non-surfaceable reason denies a capability does not show |
| ClientView.SurfacedReasonsPassedTheCeiling | modules/capability/domain/denial-reason.ts:71-76 | a surfaced entitlement or consent reason is of a visible capability that passed gates 1 to 4 |
| ClientView.UnclearedDisclosureNeverAppears | modules/capability/application/use-cases/client-capability-view.ts:41-59 | a disclosure-bearing capability without jurisdictions is never allowed and never appears |
| Entitlements.RowsAreSerialReplays | modules/capability/infrastructure/persistence/prisma-entitlement-repository.ts:109-139 | over every interleaving each row is the serial replay of the operations that succeeded on it, its version counts them, its window is sound |
| Entitlements.StoredRowsAreExact | modules/capability/application/use-cases/manage-entitlements.ts:100-160 | a row a call is told it stored has status, source, reason, actor, start and end as the call asked (a revocation: its end is the old one if passed, else the later of now and the start), the next version and the same id |
| Entitlements.WritesAreExact | modules/capability/application/use-cases/manage-entitlements.ts:100-152 | the only steps that change rows are such writes, on the row they found, and they change no other |
| Entitlements.GrantEntitlesExactly | modules/capability/domain/entitlement.ts:44-53 | after a stored grant and nothing later, the entitlement gate passes at t exactly when the start has come and the end has not |
| Entitlements.FactsAreTheRow | modules/capability/infrastructure/persistence/prisma-entitlement-repository.ts:57-71 | the facts answered for a key are the stored row's fields, and none exactly without a row |
| Entitlements.TurnedAwayExactly | modules/capability/application/use-cases/manage-entitlements.ts:78-91 | a call is turned away before reading for exactly the first of: no permission, a blank field or an empty window, an unknown capability |
| Entitlements.PortCallsLeadOn | modules/capability/application/use-cases/manage-entitlements.ts:93-160 | what each port call leads to, with every refusal's condition: NOT_FOUND exactly for a revocation without a row, VERSION_CONFLICT exactly when the row is no longer the one read |
| Entitlements.RecordsAreExact | modules/capability/application/use-cases/manage-entitlements.ts:153-160 | the audit grows by exactly the record of actor, key, row before and row after, and by nothing else |
| Entitlements.WrittenRowWasCurrent | modules/capability/infrastructure/persistence/prisma-entitlement-repository.ts:124-138 | a conditional write that goes through found the very row it had read |
| Entitlements.VersionsHaveOneAuthor | modules/capability/infrastructure/persistence/prisma-entitlement-repository.ts:124-138 | two calls told they stored the same version are one call, identical requests included |
| Entitlements.StoredAnswersAreInHistory | modules/capability/application/use-cases/manage-entitlements.ts:148-160 | a stored answer is the history's row at its version, stored by that call, and is on record with the row before |
| Entitlements.ReplayVersion | modules/capability/application/use-cases/manage-entitlements.ts:148-152 | the k-th operation leaves version k under the first id |
| Entitlements.RevokeNeverExtends | modules/capability/application/use-cases/manage-entitlements.ts:257-271 | a revocation keeps the start, never moves the end later, and ends the window by now or at its start |
| Entitlements.RevokedStaysDenied | modules/capability/domain/entitlement.ts:44-53 | while the last stored operation is a revocation, resolution denies at the entitlement gate or before |
| Entitlements.OnlyAGrantRestores | modules/capability/application/use-cases/manage-entitlements.ts:257-271 | after a revocation, whatever any calls do, resolution denies at the entitlement gate or before until a grant is stored on the key |
| Entitlements.Service.GrantEntitlement | modules/capability/application/use-cases/manage-entitlements.ts:75-161 | the use case ends where its call in the shared run ends; a stored answer carries exactly the fields asked for |
| Entitlements.Service.RevokeEntitlement | modules/capability/application/use-cases/manage-entitlements.ts:225-317 | the same for a revocation |
| Entitlements.Service.Transition | modules/capability/infrastructure/persistence/prisma-entitlement-repository.ts:109-139 | updates exactly the row still at the id and version read |
| Availability.StoredRowsAreUnderTheCeiling | modules/capability/application/use-cases/manage-availability.ts:114-135 | over every interleaving a stored allowing row is for implemented, deployed and, if scoped, declared code |
| Availability.RefusedExactlyAboveCeiling | modules/capability/application/use-cases/manage-availability.ts:219-237 | a valid request is refused exactly when the row it asks for would break the ceiling |
| Availability.BreachIsTheFirst | modules/capability/application/use-cases/manage-availability.ts:219-237 | which breach is found: not implemented, not deployed or not declared, the first that holds |
| Availability.RefusedCallsWroteNothing | modules/capability/application/use-cases/manage-availability.ts:114-135 | a call refused above the ceiling never wrote any row |
| Availability.TurnedAwayExactly | modules/capability/application/use-cases/manage-availability.ts:84-135 | a call is turned away before reading for exactly the first of: no permission, a malformed field, an unknown capability, an allowing state above the code |
| Availability.StoredAnswersAreAsAsked | modules/capability/application/use-cases/manage-availability.ts:137-208 | a call told it set a row is told the fields it asked for, at version 1 or the one after the version expected; it wrote that version and is on record |
| Availability.RowsChangeExactly | modules/capability/infrastructure/persistence/prisma-availability-repository.ts:84-113 | rows change only by an insert under an unused id and free jurisdiction, or an update of a row still at the version expected, to exactly what was asked for, one row at a time |
| Availability.PortCallsLeadOn | modules/capability/application/use-cases/manage-availability.ts:114-208 | what each port call leads to, with every refusal's condition |
| Availability.RecordsAreExact | modules/capability/application/use-cases/manage-availability.ts:114-208 | the audit grows by exactly the record of the refusal or of the row set, and by nothing else |
| Availability.AllowingRowNeverDeniedAtDescriptor | modules/capability/infrastructure/persistence/prisma-availability-repository.ts:41-69 | beside an effective allowing row the resolver never denies at the descriptor, environment or availability gate |
| Availability.EffectiveRowIsUnique | modules/capability/infrastructure/persistence/prisma-availability-repository.ts:46-64 | exactly one row is effective whenever any applies, whatever the storage order and duplicates |
| Availability.VersionsHaveOneAuthor | modules/capability/infrastructure/persistence/prisma-availability-repository.ts:100-113 | two calls told they set one version of one row are one call |
| Availability.ScopedRowIsUnique | modules/capability/infrastructure/persistence/prisma-availability-repository.ts:84-98 | a jurisdiction has at most one row per environment and capability |
| Availability.InsertingHasRead | modules/capability/application/use-cases/manage-availability.ts:137-144 | a call about to insert read, at an earlier step since which it has been waiting, that its scope had no row |
| Availability.DuplicateRowExactly | modules/capability/application/use-cases/manage-availability.ts:137-163 | over every run, some scope has two rows exactly when an environment-wide row was stored between another call's read that found none and that call's insert |
| Availability.TurnsKeepScopesUnique | modules/capability/application/use-cases/manage-availability.ts:137-163 | writers of environment-wide rows that are never both between read and insert of one key leave at most one row each |
| Availability.TwoWritersDuplicateARow | modules/capability/application/use-cases/manage-availability.ts:137-163 | a run of two calls that does so |
| Availability.Service.SetAvailability | modules/capability/application/use-cases/manage-availability.ts:84-208 | ends where its call in the shared run ends; a refusal is on record, a row set is under the ceiling and on record |
| Availability.Service.FindFirst | modules/capability/infrastructure/persistence/prisma-availability-repository.ts:71-82 | the first row of the scope in the order latest update, then greatest id |
| Consent.VersionStepsExactly | modules/consent/infrastructure/persistence/prisma-legal-document-repository.ts:70-112 | what drafting, classifying and publishing change, exactly, and when they change nothing |
| Consent.AcceptsExactly | modules/consent/infrastructure/persistence/prisma-consent-grant-repository.ts:47-92 | an acceptance of a published version that covers the purpose, under a new id, adds one ACTIVE grant pinning it and supersedes the ACTIVE grants of its key and no others |
| Consent.WithdrawsExactly | modules/consent/infrastructure/persistence/prisma-consent-grant-repository.ts:133-140 | a withdrawal changes the store exactly for an own ACTIVE grant not granted later than its stamp |
| Consent.OneActiveGrant | modules/consent/infrastructure/persistence/prisma-consent-grant-repository.ts:47-92 | on every run at most one grant of a key is ACTIVE, at every clock |
| Consent.QueryMeetsContractExactly | modules/consent/infrastructure/persistence/prisma-consent-grant-repository.ts:101-121 | the sorted query meets its port contract exactly when the last grant of the key is the latest by timestamp |
| Consent.QueryMeetsContract | modules/consent/application/ports/consent-grant-repository.ts:37-46 | with a clock that never goes back it answers the ACTIVE grant if any, else the last WITHDRAWN |
| Consent.ClockGoingBackHidesActiveGrant | modules/consent/infrastructure/persistence/prisma-consent-grant-repository.ts:101-121 | a run whose clock goes back breaks the contract |
| Consent.RunKeepsGrants | modules/consent/infrastructure/persistence/prisma-consent-grant-repository.ts:47-141 | on every run only the last grant of a key can be ACTIVE and it is never SUPERSEDED |
| ConsentStatus.RunGrows | modules/consent/infrastructure/persistence/prisma-legal-document-repository.ts:95-112 | over any further run no version's text or hash changes, a published version not at all, and grants are only withdrawn or superseded, once |
| ConsentStatus.RunKeepsDocuments | modules/consent/domain/legal-document.ts:68-84 | every published version is classified with its effective instant, and every grant pins a published version of its own document |
| ConsentStatus.PublicationNeedsClassification | modules/consent/application/use-cases/legal-documents.ts:301-317 | the only step that publishes finds the version classified |
| ConsentStatus.ServedTextIsWhatGrantsPin | modules/consent/application/use-cases/legal-document-content.ts:97-186 | text served for a version hashes to what every later grant of that version pins |
| ConsentStatus.ForeignDocumentsLookAbsent | modules/consent/application/use-cases/legal-document-content.ts:123-132 | NOT_FOUND exactly for an absent document or another entity's |
| ConsentStatus.AcceptingServedIsActive | modules/consent/application/use-cases/consent.ts:288-375 | accepting the version served at an instant makes the status ACTIVE with no notice at that instant |
| ConsentStatus.WithdrawnIsDeniedUntilAccepted | modules/consent/application/use-cases/consent.ts:450-465 | after a withdrawal processing is denied for that key until a new acceptance, whatever is published |
| ConsentStatus.PermittedExactly | modules/consent/domain/consent-status.ts:48-92 | processing is permitted exactly for one and only one document of the entity, purpose and jurisdiction, an ACTIVE grant, and a version in force that is the accepted one, no newer, or asks nothing |
| ConsentStatus.CoveringExactly | modules/consent/infrastructure/persistence/prisma-legal-document-repository.ts:54-68 | the documents found are exactly those of the entity, covering the purpose, of the jurisdiction if one is named, in creation order |
| ConsentStatus.UndecidedExactly | modules/consent/application/use-cases/consent.ts:304-345 | the status is an error exactly without an entity or with two such documents, and an empty one exactly with none |
| ConsentStatus.StatusIsExact | modules/consent/application/use-cases/consent.ts:346-373 | with one such document: WITHDRAWN, RECONSENT_REQUIRED, NO_GRANT, noticeRequired and the grant named, each exactly by its condition on the grants and the version in force |
| ConsentStatus.CurrentIsTheLatestInEffect | modules/consent/infrastructure/persistence/prisma-legal-document-repository.ts:114-127 | the version in force is published, in effect, and the latest such |
| ConsentStatus.ServesExactly | modules/consent/application/use-cases/legal-document-content.ts:97-186 | the exact answer of serving a document's text, each refusal by its condition |
| ConsentService.Service.RecordOwnAcceptance | modules/consent/application/use-cases/consent.ts:90-204 | the exact answer over the stores read and met, each refusal by its condition; a grant answered is stored, pins what was accepted and is on record with every id it superseded; any other answer but a failed record wrote nothing |
| ConsentService.Service.RecordAcceptance | modules/consent/infrastructure/persistence/prisma-consent-grant-repository.ts:47-92 | it succeeds exactly for a new id; the ids answered are exactly the key's ACTIVE grants in the store the write met, all now SUPERSEDED, and the new grant is last |
| ConsentService.Service.WithdrawOwnConsent | modules/consent/application/use-cases/consent.ts:221-265 | the exact answer: a grant found ACTIVE is withdrawn exactly if the ports answer and the write still meets it ACTIVE, granted no later than now |
| ConsentService.Service.DraftDocumentVersion | modules/consent/application/use-cases/legal-documents.ts:124-176 | the exact answer over the stores read and met: denied without permission before any port call, and each refusal by its condition; a draft answered is stored unclassified and unpublished, and on record |
| ConsentService.Service.ClassifyDocumentVersion | modules/consent/application/use-cases/legal-documents.ts:197-255 | the exact answer over the stores read and met, VERSION_IMMUTABLE exactly for a published version; success wrote one classification and recorded it beside the one before |
| ConsentService.Service.PublishDocumentVersion | modules/consent/application/use-cases/legal-documents.ts:278-337 | the exact answer over the stores read and met: denied without permission, blocked exactly while unclassified, immutable once published; a version answered is published, classified, at the instant asked for |
| RoleGrants.AuthorizeExactly | modules/authorization/application/policy-service.ts:88-130 | allowed exactly when an own, in-force, applicable row's role holds the permission, and the row it rests on is one |
| RoleGrants.AuthorizedByFields | modules/authorization/application/policy-service.ts:88-130 | allowed exactly when some row is the user's, active, not revoked, begun, not ended, without tenant or of the actor's own, and its role holds the permission |
| RoleGrants.ForeignTenantsAreDenied | modules/authorization/domain/role-assignment.ts:52-63 | a user all of whose rows are bound to other tenants than its context is denied every permission |
| RoleGrants.DenialTellsWhich | modules/authorization/application/policy-service.ts:88-130 | which denial is told: no row in force and applicable, or none whose role holds the permission |
| RoleGrants.CatalogueTable | modules/authorization/domain/catalogue.ts:117-193 | the full table of role scopes and of permissions by role |
| RoleGrants.OnlyAdminsAdministerRoles | modules/authorization/domain/catalogue.ts:175-193 | of all roles only PLATFORM_ADMIN may assign or revoke |
| RoleGrants.PeerIsHeld | modules/authorization/application/policy-service.ts:138-152 | the roles name PLATFORM_ADMIN exactly when a row in force does |
| RoleGrants.StepKeepsInvariant | modules/authorization/application/use-cases/assign-role.ts:116-185 | every step keeps rows sound, targets unique and every written row grounded on its granter's older row |
| RoleGrants.EveryGrantHasAChain | modules/authorization/application/use-cases/assign-role.ts:137-175 | every row goes back, grant by grant through PLATFORM_ADMIN holders, to a bootstrap row |
| RoleGrants.GranterHeldAuthority | modules/authorization/application/use-cases/assign-role.ts:116-175 | at a step of the run, at the time of the check, the granter's older row was a PLATFORM_ADMIN row in force |
| RoleGrants.BasisInForceExactly | modules/authorization/application/use-cases/assign-role.ts:157-175 | at the write the row the check rested on is in force exactly if it is not revoked and its end has not come |
| RoleGrants.AuthorityLostExactly | modules/authorization/application/use-cases/assign-role.ts:116-175 | asked again at the write the policy would deny exactly if all rows that empowered the granter at the check have lapsed and it has gained none since |
| RoleGrants.GrantedWithoutAuthorityExactly | modules/authorization/application/use-cases/assign-role.ts:157-175 | a row is written with no PLATFORM_ADMIN row of its granter in force exactly if so in every tenant context |
| RoleGrants.OnlyLapsedBasisGrantsWithout | modules/authorization/application/use-cases/assign-role.ts:157-175 | that happens only if the row the check rested on was revoked, or ended, between the check and the write |
| RoleGrants.PowerlessStoreIsFrozen | modules/authorization/application/use-cases/assign-role.ts:116-155 | a store without a current or future PLATFORM_ADMIN row, and no call past its check, never changes again |
| RoleGrants.RevokedRowsDecideNothing | modules/authorization/domain/role-assignment.ts:38-45 | a revoked row never changes and no later decision rests on it |
| RoleGrants.SuccessAnswersAreWritten | modules/authorization/application/use-cases/assign-role.ts:158-185 | a call told its row is written finds it written as it asked, and on record if it was told so |
| RoleGrants.RowsChangeExactly | modules/authorization/application/use-cases/assign-role.ts:157-175 | rows change only by one grant, with exactly the target, granter and start of its call, or one revocation of the target's ACTIVE row |
| RoleGrants.WrittenRowsAreScoped | modules/authorization/domain/catalogue.ts:216-225 | a row of a tenant role is stored with a tenant, any other without |
| RoleGrants.TurnedAwayExactly | modules/authorization/application/use-cases/assign-role.ts:70-114 | a call is turned away before any check for exactly the first rule its input breaks |
| RoleGrants.ChecksLeadOn | modules/authorization/application/use-cases/assign-role.ts:116-135 | the authorization check goes on exactly when a row in force empowers the actor, and otherwise records the denial it answers |
| RoleGrants.PeersLeadOn | modules/authorization/application/use-cases/assign-role.ts:137-155 | a grant of PLATFORM_ADMIN goes on exactly when the actor has such a row in force |
| RoleGrants.WritesAnswerExactly | modules/authorization/application/use-cases/assign-role.ts:157-200 | a write succeeds or answers a conflict exactly by whether the target has an ACTIVE row |
| RoleGrants.RecordsAnswerExactly | modules/authorization/application/use-cases/assign-role.ts:120-185 | the last port call answers, a success saying whether it is on record, and the audit grows by exactly its record and in no other step |
| RoleGrants.OneActiveRowPerTarget | modules/authorization/infrastructure/persistence/prisma-role-assignment-repository.ts:76-109 | a (user, role, scope) never has two ACTIVE rows |
| RoleGrants.RevokesExactly | modules/authorization/infrastructure/persistence/prisma-role-assignment-repository.ts:111-152 | a revocation changes a row exactly when the target has an ACTIVE row that began before now |
| RoleGrants.RevokedMidwayStillGrants | modules/authorization/application/use-cases/assign-role.ts:116-175 | a run in which the granter has no authority left when the row is written |
| RoleGrants.RoleService.AssignRole | modules/authorization/application/use-cases/assign-role.ts:66-185 | ends where its call in the shared run ends; a success names the row granted by this actor to the target asked for |
| RoleGrants.RoleService.RevokeRole | modules/authorization/application/use-cases/revoke-role.ts:45-143 | the same for a revocation: the row is no longer ACTIVE and revoked by this actor |
| RoleGrants.RoleService.Create | modules/authorization/infrastructure/persistence/prisma-role-assignment-repository.ts:76-109 | creates the row asked for, grounded on the check, or answers the conflict |
| RoleGrants.RoleService.RevokeActive | modules/authorization/infrastructure/persistence/prisma-role-assignment-repository.ts:111-152 | revokes the target's ACTIVE row, by and at this call |
| Uuid.ShapeIsFiveGroups | packages/shared-kernel/src/internal/uuid.ts:13-17 | the shape test accepts exactly five groups of 8, 4, 4, 4 and 12 hexadecimal digits of either case between dashes |
| Uuid.Uuidv7 | modules/audit/infrastructure/persistence/uuidv7-audit-event-id-source.ts:16-36 | the byte loop, masks and slices produce the text the lemmas speak of |
| Uuid.TimestampDecodes | modules/audit/infrastructure/persistence/uuidv7-audit-event-id-source.ts:19-25 | the first twelve hexadecimal digits read back as the millisecond modulo 2^48 |
| Uuid.FixedPositions | modules/audit/infrastructure/persistence/uuidv7-audit-event-id-source.ts:26-30 | dashes, version digit 7 and variant digit are where section 5.7 of RFC 9562 puts them |
| Uuid.TextKeepsTimeOrder | modules/audit/infrastructure/persistence/uuidv7-audit-event-id-source.ts:16-30 | a later millisecond gives a lexicographically larger text, whatever the random bytes |
| Uuid.TextIsInjective | modules/audit/infrastructure/persistence/uuidv7-audit-event-id-source.ts:16-30 | two texts are equal exactly when the timestamp bits and the 74 unmasked random bits are |
| Selection.ResolveSelectionAt | modules/subject-policy/domain/selection.ts:81-124 | answers the (effectiveFrom, id)-greatest covering unwithdrawn row, else the last to run out, else none |
| Selection.AnswerIgnoresRowOrder | modules/subject-policy/domain/selection.ts:81-124 | rows with distinct ids have one answer in every order |
| Selection.PastIsReplayed | modules/subject-policy/domain/selection.ts:66-124 | adding rows effective later or withdrawing rows later does not change a past answer |
| Selection.ConstantBetweenBoundaries | modules/subject-policy/domain/selection.ts:66-124 | the answer changes only at start, end and withdrawal instants |
| PackSet.ValidatePack | packages/jurisdiction-policy/src/validation.ts:105-189 | reports exactly the findings of each rule of one policy pack, header, strategies, approval policies, purposes and decisions |
| PackSet.ValidatePackSet | packages/jurisdiction-policy/src/validation.ts:193-238 | reports exactly each policy pack's findings, the repeated keys and the clashing pairs |
| PackSet.OneInstantOnePack | packages/jurisdiction-policy/src/validation.ts:204-236 | with neither overlap nor duplicate reported, no instant of a jurisdiction has two policy packs in force |
| PackSet.ClashSharesInstantExactly | packages/jurisdiction-policy/src/validation.ts:222-226 | two clashing policy packs share an instant exactly when neither period is inverted |
| PackSet.OverlapFindingsHaveWitnesses | packages/jurisdiction-policy/src/validation.ts:217-236 | two versions share an instant exactly when their overlap is reported for some pair with valid periods |
| PackSet.InvertedPeriodOverlapsNothing | packages/jurisdiction-policy/src/validation.ts:222-226 | an inverted period is reported as overlapping though it covers no instant |
| PackSet.KeysCollideExactly | packages/jurisdiction-policy/src/validation.ts:204-215 | two keys are equal exactly for the same jurisdiction and version, or when the common text splits at two of its hash signs |
| PackSet.DuplicateFindingsExactly | packages/jurisdiction-policy/src/validation.ts:204-215 | a version is reported as duplicate exactly when an earlier policy pack is the same, or collides so |
| PackSet.KeyIsFaithful | packages/jurisdiction-policy/src/validation.ts:204-215 | without a hash sign in either jurisdiction the key separates (jurisdiction, version) pairs |
| PackSet.KeyConfusesHash | packages/jurisdiction-policy/src/validation.ts:204-215 | two different policy packs reported as duplicates |

## Left out

- Thrown ports: after a bind the code does not compensate a thrown port; here every port answers a result. The enrichment reads of a bootstrap are one port call.
- switchTenant: one atomic step that on success kills the old session and binds a new one; its own membership checks and audit, and bindings made through tenancy's own endpoint, are not modelled.
- Sessions, memberships, rows and grants sit in maps and sequences; each repository method is one atomic step under the uniqueness and trigger rules of migrations 0052, 0064, 0065, 0076 and 0077. Row-level security, transactions and serialization failures are not modelled.
- Allocation.ByLargestRemainder: sorts by insertion; any sort gives the same ranking because the order is strict.
- PackSet: findings carry their kind and subject, not their message; their order within one result is not stated.
- Consent: GetOwnConsentStatus and GetLegalDocumentContent read one state; their reads are not interleaved with writes. Evidence references, policy pins and the creation audit of documents are copied fields and are omitted.
- ConsentStatus.ServedTextIsWhatGrantsPin: SHA-256 is an arbitrary function of the text, so nothing is said about collisions.
- Entitlements, Availability: authorization is a given answer. Metadata of audit records is reduced to the row before and after. The clock value an availability update is stored with is arbitrary.
- RoleGrants: permissions are the closed catalogue, so a name outside it is not modelled; reasons and the session and request ids of the write context are omitted.
- Strings: `trim` and `toLowerCase` are modelled over ASCII; strings compare by code unit.
- Uuid: the clock and the random source are arguments; fewer than ten random bytes is the modelled error.
- Catalogue validation, kill switches, the audit metadata guard, ListApplicableDocuments, listGrants and the HTTP, NestJS and Prisma layers: easy or plumbing.
