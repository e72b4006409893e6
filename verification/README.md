# What the platform keeps: generated tables, routing, templates, review data

The platform lets each tenant name its own entity types, keeps what it extracts in tables generated
from those names, may hold a tenant's data in the tenant's own store, and trains models on reviewed
spans. This project models the parts of it that change state step by step or read text character by
character, and proves what they keep.

| file | what it models |
|---|---|
| `Wrappers.dfy` | an optional value |
| `Identifiers.dfy` | free text to bounded, collision-free SQL identifiers |
| `Catalog.dfy` | what a catalog of entity definitions asks of a tenant schema |
| `ColumnNames.dfy` | which `subject` column each definition owns, in closed form, and when one moves |
| `Reconcile.dfy`, `ReconcileLaws.dfy` | the DDL statements, their meaning on a schema with rows, and one reconcile |
| `QuerySurface.dfy` | what the query surface holds, definition by definition, and finds on disk |
| `ReconcileHistory.dfy` | whole histories of catalog edits, writes and reconciles |
| `Deactivation.dfy` | what deactivating definitions costs a settled schema |
| `Backfill.dfy` | migration 037's identifier assignment |
| `EngineCache.dfy` | the LRU of tenant-store engines and its trace specification |
| `DataPlane.dfy` | control-plane rows, their transitions and one process's record cache |
| `Routing.dfy`, `RoutingLaws.dfy`, `RoutingOutcomes.dfy` | every interleaving of lookups, transitions and resolves over many processes |
| `Template.dfy`, `TemplateLaws.dfy`, `QuotedTexts.dfy` | the template expression resolver, a printer it inverts, malformed and quoted texts |
| `Alignment.dfy` | document tokens and the placement of predictions on them |
| `Promotion.dfy`, `PrelabelLaws.dfy` | pre-labelling a batch and promoting a large one |
| `Accumulation.dfy`, `TrainingConsumption.dfy` | the accumulation figure, and the training runs that lower it |
| `Registry.dfy`, `RegistryHistory.dfy` | the content-free document registry and its repair |
| `BioRepair.dfy`, `TokenSplits.dfy` | splitting glued tokens under BIO tags, and where exactly a token is cut |

Code that updates state is a class or a method with loops, proved equal to a specification function;
the lemmas are about those functions. `dafny verify dfyconfig.toml` checks everything.

## Where the code does less than its documentation says

Each of these is a lemma; the code is modelled as it is.

1. A column can change hands. `src/shared/entity_views.py` describes the column a definition owns as
   decided once, but a definition called `filename` (or `document id`) collides with an identity column
   and takes `_2` behind its name, and a definition that owned that name moves on. Deactivating
   `e_filename` hands `filename_2` to `e_filename_2` (`Catalog.ColumnMovesOnIdentityHit`). Some
   deactivation moves a column exactly when, for an identity column, both its name and its name with `_2`
   are active (`ColumnNames.ColumnsMoveIff`). If the two types differ, the next reconcile clears the
   column in every row (`Deactivation.DeactivationIdleIff`, `Deactivation.DeactivationClearsOnIdentityHit`);
   if they agree, the definition reads another's values.
2. `_unique_column` tests the candidate before cutting it to 63 characters, so a longer candidate can
   be cut into a taken name (`Catalog.UniqueColumnFreeIff`). The identifier column is 63 wide, which
   keeps this from happening.
3. Suffixed identifiers stay legal up to 59 digits of suffix, and oddly again at exactly 61
   (`Identifiers.SuffixedLegal`).
4. A lookup made before a tenant's row exists caches the platform default, and for up to a TTL after a
   tenant-owned row appears that process routes the tenant to the platform
   (`Routing.EarlyLookupRoutesToPlatform`).
5. `store_retired` is called terminal, and every compare-and-set transition treats it so; the write a
   migration run makes at its end does not look at the status and can leave it
   (`RoutingLaws.RetiredLeftOnlyByMigration`).
6. With a cache size below 1 the engine returned to the caller has already been disposed
   (`EngineCache.ReturnedEngineLiveIff`).
7. Quotes do not protect a template's text: a quoted literal reads back as itself exactly when no equality
   operator stands in it outside brackets; otherwise it is split there (`QuotedTexts.QuotedResolvesIff`,
   `QuotedTexts.QuotedEqualitySplits`).
8. Running a promoted `large` batch again stores new suggestions that nothing will promote
   (`PrelabelLaws.RerunConfirmsNothing`); and a run promotes the earlier suggestions of documents that
   failed in it (`PrelabelLaws.ConfirmingRun`, `PrelabelLaws.FinishedSuggestions`).
9. The automated part of the accumulation figure is always zero: the figure counts spans with a review
   row, and a span promoted from a batch never has one (`TrainingConsumption.AutomatedIsAlwaysZero`).
10. A training run restricted to one source records every span with text as consumed, also those it was
    not trained on; a run over imports alone empties the figure
    (`TrainingConsumption.CapturedIsTrainedIff`, `TrainingConsumption.ImportRunConsumesReviews`).
11. `completed` is written in one transaction and the spans are recorded in the next. A job can end `failed`
    and have consumed its spans (an error after the recording). Where the tables hold foreign keys, which is
    so in tenant-owned stores and in schemas older than the cloned ones, a captured span deleted meanwhile
    makes the recording fail and the job end `failed`; schemas cloned since carry no foreign key
    (`src/gateway/services/tenant_service.py`, lines 60-75) and record it all the same
    (`TrainingConsumption.RecordsIff`). A worker that dies in between leaves a completed job that consumed
    nothing, and its redelivery is skipped (`TrainingConsumption.DeadWorkerNeverRecords`,
    `TrainingConsumption.RedeliveryIsSkipped`, `TrainingConsumption.CompletedHasRecorded`).
12. One failing statement in the registry sweep over platform tenants aborts the shared transaction;
    the exception is swallowed without a rollback, so every later write is lost, the tenants behind it
    are not reached, and the sweep raises (`Registry.SweepRaisesIff`, `Registry.SweepStopsAtFailure`).
    The count `reconcile_schema_sync` returns is of rows read, not of rows re-applied.
13. Reconciling the registry never removes a row, so rows of hard-deleted documents stay
    (`RegistryHistory.RegistryIsStoreIff`).
14. `to_sql_identifier` never raises, so that no legal name a tenant chooses fails a request; but the
    stripped name of a `subject` column is put into the DDL unquoted. An active single definition whose
    name begins with a digit, "2024 Revenue" say, or is a word the server reserves cannot be reconciled
    (`ReconcileHistory.DigitNameRefusesEveryReconcile`, `ReconcileHistory.OrderIsRefusedIff`). And a child
    table's primary key takes a name in the same name space as the tables: "Foo" and "Foo Pkey", both
    multi, cannot be created together (`ReconcileHistory.FooPairIsRefusedIff`). When a reconcile fails is
    `ReconcileLaws.ReconcileRefusedIff`. On a platform tenant such an edit is taken back with its reconcile
    and only that request fails; a tenant-owned tenant's edit is committed without one, and every reconcile
    of that tenant fails from then on.
15. The export a training run is trained on and the capture of the spans it will record are two reads. A
    span confirmed between them is recorded as consumed and was never trained on
    (`TrainingConsumption.ConfirmedInBetweenIsUntrained`, `TrainingConsumption.RecordedWasTrainedIff`).
16. A transition invalidates the acting process's cached record before its caller commits, so that
    process can cache the old row again and miss its own transition for a TTL
    (`RoutingLaws.OwnTransitionHidden`).
17. Promoting a `large` batch writes its notice into `public.notifications` on the tenant's own engine. A
    tenant-owned store has no such table: the closing transaction is rolled back, nothing is promoted, the
    batch stays `running` and `processing` although every document has its outcome, and a rerun that
    extracts anything ends the same way (`PrelabelLaws.RaisesIff`, `PrelabelLaws.RerunRaisesAgain`,
    `PrelabelLaws.OwnStoreNeverFinishes`).

## What is assumed

- `entity_definitions`: identifiers are at most 63 characters wide and unique within a tenant where
  present, as migration 037 declares (lines 51 and 71-75).
- Every edit of a connection row changes its `updated_at`; a data plane's mode never changes (the
  trigger of migration 052, lines 107-132).
- Lookup and cache put are one step, and so are the LRU miss and its put: there is no suspension point
  between them. A transition's invalidation runs inside the caller's transaction, before the commit; in a
  run the two are separate steps, in either order, that others may interleave. All processes read one
  clock.
- The server refuses an unquoted column name that begins with a digit or is in a set it gives: its
  reserved words and its system columns. The fixed column names are accepted.
- Tables and indexes share one name space within a schema. The index of a child table's primary key gets the
  table's name with `_pkey`, cut to 63 characters, and the first number that makes it free; `IF NOT EXISTS`
  goes by the name alone. No index has the name of the `subject` table.
- Whether a schema's tables hold foreign keys, and whether the tenant's engine reaches
  `public.notifications`, are given; neither changes during a run.
- Row identifiers (spans, suggestions, documents) are fresh when generated and never used again.
- Which registry writes are lost, late or out of order is arbitrary. A failed statement leaves a
  connection's transaction aborted until it is rolled back.
- JavaScript property access, string-to-number conversion and loose `==` are arbitrary functions of a
  host; Python's `\s` and `\d` are arbitrary character classes. NFKD folding to ASCII happens before
  `SlugBase`.

## Model

| member | source | states |
|---|---|---|
| Identifiers.SlugBaseIsJoinedWords | src/shared/entity_views.py:186-195 | the slug of any text is exactly its maximal runs of letters and digits, lower-cased, joined by single underscores; the fallback iff there are none |
| Identifiers.SlugBaseIsBody | src/shared/entity_views.py:186-195 | every slug starts with a letter or digit and contains only letters, digits and underscores |
| Identifiers.SlugKeepsText | src/shared/entity_views.py:186-195 | a slug without its underscores is the text's letters and digits, lower-cased and in order; the fallback iff there are none |
| Identifiers.ToSqlIdentifier | src/shared/entity_views.py:198-224 | the identifier loop ends for every name and every finite `taken`, computes the specified identifier, and it is not taken |
| Identifiers.NextFree | src/shared/entity_views.py:217-224 | the suffix loop returns the candidate with the least free suffix from 2 up |
| Identifiers.SuffixedInjective | src/shared/entity_views.py:217-224 | candidates with different suffix numbers differ, even after the stem is cut |
| Identifiers.FirstFreeIsLeast | src/shared/entity_views.py:217-224 | the first free suffix exists, is at most start plus size of `taken`, and all below it are taken |
| Identifiers.SqlIdentifierLeastFree | src/shared/entity_views.py:198-224 | the result is free for every input; it is the prefixed slug cut to 63 characters iff that is not taken, else it has the least free suffix from 2 up, at most size of `taken` plus 2 |
| Identifiers.SkillIdentifiers | src/shared/entity_views.py:198-224 | "Skill" gets `e_skill`, then `e_skill_2`, then `e_skill_3` |
| Identifiers.SuffixedIs | src/shared/entity_views.py:217-224 | a suffixed candidate keeps as much of the stem as fits into 63 characters with its number |
| Identifiers.DigitsRead | src/shared/entity_views.py:218-219 | the digits of a suffix stand for its number |
| Identifiers.SuffixedLegal | src/shared/entity_views.py:210-224 | exactly when a suffixed candidate is at most 63 characters and within the grammar: up to 59 suffix digits, or 61 |
| Identifiers.SqlIdentifierLegal | src/shared/entity_views.py:198-224 | for fewer than 10^59 - 2 taken names every result is a legal identifier |
| Identifiers.IdentifierKeepsDigit | src/shared/entity_views.py:186-224 | a name that begins with a digit has an identifier that begins with it behind the prefix |
| Catalog.ActiveIgnoresRowOrder | src/shared/entity_views.py:402-414 | the active definitions come in one order, whatever order the catalog's rows were read in |
| Catalog.BeforeIff | src/shared/entity_views.py:402-414 | the order is lexicographic: the first difference decides, a proper prefix comes first |
| Catalog.UniqueColumnName | src/shared/entity_views.py:389-399 | the column loop ends and computes the specified name |
| Catalog.UniqueColumnFreeIff | src/shared/entity_views.py:389-399 | the name is taken exactly when an untaken candidate over 63 characters is cut into a taken name |
| Catalog.ComputeSubjectColumns | src/shared/entity_views.py:431-451 | the pass with its growing `taken` computes the specified layout, or fails on the first malformed identifier |
| Catalog.SubjectColumnsDistinct | src/shared/entity_views.py:431-451 | generation fails iff an owning definition is malformed; else one column per active single definition, at its declared type, names pairwise distinct and clear of the identity columns |
| Catalog.ColumnsStableIff | src/shared/entity_views.py:431-451 | every column is its identifier without the prefix iff no active single definition strips to an identity column |
| Catalog.ColumnMovesOnIdentityHit | src/shared/entity_views.py:431-451 | the concrete catalog whose deactivation hands a column to another definition |
| ColumnNames.ColumnNamesAre | src/shared/entity_views.py:431-451 | the growing-`taken` loop in closed form: a column is the stripped identifier, with `_2` behind it iff its stem is an identity column or follows a bumped one |
| ColumnNames.ColumnsMoveIff | src/shared/entity_views.py:431-451 | no deactivation moves another definition's column iff no identity column is a stem together with its name and `_2` |
| ColumnNames.ColumnMoves | src/shared/entity_views.py:431-451 | switching off a bumped definition hands its column to the one behind it |
| Catalog.NamedKeepsActive | src/shared/entity_views.py:720-726 | dropping definitions without an identifier leaves the active ones as they are |
| QuerySurface.TypeHoldsKind | src/shared/entity_views.py:425-428 | each kind of value has one type of column: numbers, money, durations and booleans a double, dates a date, anything else text |
| QuerySurface.SurfaceRelations | src/shared/entity_views.py:996-1015 | a relation is on the query surface iff it is `subject` or the identifier of an active multi definition |
| QuerySurface.SurfaceColumns | src/shared/entity_views.py:981-993 | `subject` has the two identity columns and exactly one for each active single definition, no two the same; a child relation has the columns its table is created with |
| Reconcile.StatementKeeps | src/shared/entity_views.py:454-593 | a statement that goes through leaves other tables alone, keeps rows, columns and indexes of its own, clears only the column it retypes, and changes nothing when executed again |
| Reconcile.Connection.ReconcileEntityTables | src/shared/entity_views.py:848-882 | the executor ends in the state the plan determines; a schema without an entity store or a failing plan leaves it unchanged |
| ReconcileLaws.PlanSucceedsIff | src/shared/entity_views.py:776-806 | planning fails exactly when an owning definition's identifier is malformed |
| ReconcileLaws.AgreesIff | src/shared/entity_views.py:508-538 | the table of reported spellings is exact: a column is retyped iff its type is not the declared one |
| ReconcileLaws.ReconcileRefusedIff | src/shared/entity_views.py:482-571 | a reconcile fails iff an owning definition is malformed, a column name of the layout is not one the server takes unquoted, or a child table still to be created has the name of an index there or of another child's primary key |
| Reconcile.ClashNeedsKeyName | src/shared/entity_views.py:463-479 | a refused table name is that of an index already there or the key name of another active child table |
| Reconcile.FreeKeyIsFirst | src/shared/entity_views.py:463-471 | a primary key's index takes the first candidate name that is free |
| Reconcile.ChildStatementsAre | src/shared/entity_views.py:463-479 | for each child table its creation and the index on its `normalized_value`, in order |
| Reconcile.OwnIndexName | src/shared/entity_views.py:454-460 | identifiers of up to 42 characters have an index name of their own |
| Reconcile.SharesIndexIff | src/shared/entity_views.py:454-460 | those of 59 and more share one iff they agree on their first 59 characters |
| Reconcile.SuffixedSharesIndex | src/shared/entity_views.py:454-479 | so the table of a long name that needed a suffix gets no index of its own |
| ReconcileLaws.ReconciledIsTarget | src/shared/entity_views.py:848-882 | for an acceptable catalog (none of the three refusals) the whole statement list succeeds and lands in a closed form |
| ReconcileLaws.RetypedIff | src/shared/entity_views.py:508-538 | a reconcile retypes exactly the columns of the layout that are there at another type |
| ReconcileLaws.ReconcileEffect | src/shared/entity_views.py:776-806 | an accepted reconcile makes every expected relation and column exist at its declared type and keeps every table, row, column and cell but the cells of retyped `subject` columns |
| ReconcileLaws.ReconcileIdleIff | src/shared/entity_views.py:809-845 | reconciling changes nothing iff the schema is settled; a second reconcile always changes nothing and retypes nothing |
| ReconcileLaws.SnapshotSuffices | src/shared/entity_views.py:776-806 | the retype list from the snapshot before any DDL equals the one after the create and add-column part |
| Deactivation.DeactivationIdleIff | src/shared/entity_views.py:482-571 | all deactivations of a settled catalog change nothing on disk iff no definition can take over the column of one before it at another type or under a refused name |
| Deactivation.DeactivationKeepsEverything | src/shared/entity_views.py:482-505 | in particular when no identity column is a stem together with its name and `_2` |
| Deactivation.DeactivationClearsOnIdentityHit | src/shared/entity_views.py:541-571 | a concrete settled catalog in which deactivating one definition clears another's column in every row |
| ReconcileHistory.SurfaceAfterEveryReconcile | src/shared/entity_views.py:964-1015 | after any history, a reconcile leaves every active definition its column, of the type for its kind of value, or its child table, and every relation and column of the query surface, or is refused and changes nothing; refused iff an owner is malformed, a column name is not bare or a table name is held by an index |
| ReconcileHistory.SurfaceFromFirstReconcileOn | src/gateway/services/entity_service.py:100-116 | from the first successful reconcile on, edits committed together with their reconcile or not at all keep all that of the committed catalog present at every moment |
| ReconcileHistory.DigitNameRefusesEveryReconcile | src/shared/entity_views.py:482-505 | while an active single definition was named with a leading digit, every reconcile fails and changes nothing, and an edit to such a catalog is taken back with its reconcile |
| ReconcileHistory.RevenueIsRefused | src/shared/entity_views.py:482-505 | the valid, well-named catalog of "2024 Revenue" is refused by every server |
| ReconcileHistory.OrderIsRefusedIff | src/shared/entity_views.py:482-505 | that of "Order" is refused iff the server reserves the word |
| ReconcileHistory.FooPairIsRefusedIff | src/shared/entity_views.py:463-479 | the well-named catalog of "Foo" and "Foo Pkey" is refused iff the second has no table yet and its name is held by an index or will be by the first one's key |
| ReconcileHistory.NothingDropped | src/shared/entity_views.py:574-593 | over any history, writes included, no table, column or index is ever removed |
| ReconcileHistory.NoRowLost | src/shared/entity_views.py:541-593 | over any run of edits and reconciles every table but `subject` is unchanged, no row or index disappears, and a `subject` cell changes only to NULL and only in a column some reconcile of the run retypes |
| ReconcileHistory.ClearedOverIff | src/shared/entity_views.py:508-571 | a column is cleared over a run iff some reconcile of it found the column at another type than declared then |
| ReconcileHistory.PresentTablesPartition | src/shared/entity_views.py:795-800 | surface, off-surface and orphaned tables are disjoint and together are all generated tables present |
| ReconcileHistory.OrphansIff | src/shared/entity_views.py:795-806 | a generated table is an orphan iff no definition names it, and retained off the surface iff one does but none active and multi |
| Backfill.EntityDefinitions.CollectTaken | alembic/versions/037_entity_definitions_view_metadata.py:100-107 | the first pass collects each tenant's assigned identifiers |
| Backfill.EntityDefinitions.BackfillSqlIdentifiers | alembic/versions/037_entity_definitions_view_metadata.py:91-126 | the row-by-row loop leaves exactly the specified catalog |
| Backfill.BackfillAssigns | alembic/versions/037_entity_definitions_view_metadata.py:91-126 | every row ends assigned, no assigned identifier changes, nothing else changes, and identifiers are distinct within each tenant iff the earlier ones were |
| Backfill.BackfillFromOwnName | alembic/versions/037_entity_definitions_view_metadata.py:91-126 | each identifier handed out is the one the row's own name gets among those its tenant uses by then |
| Backfill.BackfillIdempotent | alembic/versions/037_entity_definitions_view_metadata.py:91-126 | running it again is a no-op |
| Backfill.BackfillLocal | alembic/versions/037_entity_definitions_view_metadata.py:91-126 | each tenant gets exactly what a run over its rows alone gives |
| Backfill.BackfillLegal | alembic/versions/037_entity_definitions_view_metadata.py:116-126 | every identifier handed out is bounded and within the grammar |
| EngineCache.TouchKeeps | src/shared/database.py:113-124 | a key read or written becomes the most recent and finds its engine; every other key finds what it found, in the same order |
| EngineCache.EvictionLosesOldest | src/shared/database.py:125-128 | over capacity the oldest entry is given up, its engine is the one handed out, and only its key is lost |
| EngineCache.EngineLru.PopAllForTenant | src/shared/database.py:129-131 | removes exactly the tenant's entries, keeping order, and returns them |
| EngineCache.EngineStore.Resolve | src/shared/database.py:222-243 | a hit returns the cached engine and builds none; a miss builds, caches and disposes the evicted one |
| EngineCache.EngineStore.InvalidateTenant | src/shared/database.py:294-302 | disposes exactly the tenant's cached engines |
| EngineCache.RunConserves | src/shared/database.py:103-131 | over any run: distinct keys, at most the capacity, and built engines are the cached plus the disposed, each once |
| EngineCache.ReturnedEngineLiveIff | src/shared/database.py:222-243 | the engine returned is the one cached under its key iff the capacity is at least 1; otherwise it is already disposed |
| EngineCache.CacheIsMostRecent | src/shared/database.py:103-131 | without invalidation the cache holds exactly the most recently resolved distinct keys that fit, in recency order |
| DataPlane.RecordCache.Get | src/shared/data_plane.py:130-137 | an entry is returned iff it is no older than the TTL |
| DataPlane.PutIsFound | src/shared/data_plane.py:130-143 | a stored record is found for one TTL and no longer, an invalidated one not at all, other tenants are untouched |
| DataPlane.ControlPlane.CasStatus | src/shared/data_plane.py:193-210 | the row moves iff its status was expected; only then is the cached record dropped |
| DataPlane.ControlPlane.Mark | src/shared/data_plane.py:213-244 | each transition moves exactly from its expected statuses, and `mark_provisioning` binds its connection |
| DataPlane.ControlPlane.GetDataPlaneRecord | src/shared/data_plane.py:173-182 | cached record, else the row, else the platform default, and what was read is cached |
| Routing.NeverThePlatform | src/shared/database.py:200-243 | in every interleaving over every process, if the tenant-owned row is there at some moment before the tenant's first lookup, a call for it ends with an engine of that tenant or an error |
| Routing.CreatedBeforeItsLookups | src/shared/data_plane.py:161-182 | that is so of a tenant created in the middle of a run before anyone asks for it |
| Routing.OwnedFromTheStart | src/shared/data_plane.py:161-182 | and of a row older than the processes |
| Routing.EarlyLookupRoutesToPlatform | src/shared/data_plane.py:161-182 | a lookup before the row exists makes a later call route to the platform iff it falls within the TTL |
| RoutingLaws.RecordIsFresh | src/shared/data_plane.py:122-182 | every record returned equals the row, or its absence, at some moment of the last TTL, in every process of every run |
| RoutingLaws.OwnedForTtlSuffices | src/shared/data_plane.py:122-182 | once a tenant has been tenant-owned for a whole TTL no lookup sends it to the platform, whatever was cached before |
| RoutingLaws.OwnTransitionSeen | src/shared/data_plane.py:193-210 | the process that makes a transition sees it after the commit if it looked nothing up between its invalidation and the commit |
| RoutingLaws.OwnTransitionHidden | src/shared/data_plane.py:193-210 | a lookup in between hides the transition from that process for exactly a TTL |
| RoutingLaws.EngineMatchesFetchedRow | src/shared/database.py:217-243 | an engine returned was built for the tenant from the configuration and secret references of exactly the active row just fetched |
| RoutingLaws.EveryEngineAccountedFor | src/shared/database.py:222-243 | in every process of every run each engine built is cached once or disposed once, never both |
| RoutingLaws.RetiredLeftOnlyByMigration | src/shared/tenant_store/migrate.py:146-153 | a retired row leaves that status by the migration's unconditional write and by nothing else |
| RoutingLaws.RetiredIsTerminal | src/shared/data_plane.py:237-244 | without that write a retired row stays retired over every run |
| RoutingLaws.OneActivationWins | src/shared/data_plane.py:218-227 | after a winning activation no other wins and its connection stays bound, until a failed provisioning or a rebinding |
| RoutingOutcomes.LookupProceedsIff | src/shared/database.py:205-215 | a lookup goes on to the connection iff the record is tenant-owned, ready and bound |
| RoutingOutcomes.CallEndsByFreshRecord | src/shared/database.py:200-243 | in every interleaving a call ends as a record of the last TTL before it began allows: a store's engine only if the store was ready then, `NotReady` with a status the row had |
| RoutingOutcomes.ShutStoreIsRefused | src/shared/database.py:208-212 | once a store has not been ready for a whole TTL every call begun anywhere is refused with a status it had |
| RoutingOutcomes.PauseTakesEffectIff | src/shared/data_plane.py:213-215 | a process with the row cached serves a paused tenant for exactly one TTL more |
| RoutingOutcomes.CallOutcomeIs | src/shared/database.py:200-243 | the outcome of a call, whatever goes on between its stretches, from the record looked up, the connections at its fetch and the engines at its end |
| RoutingOutcomes.StatusMovesIff | src/shared/data_plane.py:193-244 | the state machine of a row: which step takes which status to which, and that no other step changes one |
| RoutingOutcomes.ReadyOnlyBy | src/shared/data_plane.py:218-227 | a store not yet provisioned, or retired, becomes ready only by a provisioning that succeeds or by a migration run's write |
| Template.ParensWrapWhole | docs/support.js:224-234 | the loop's answer is the specified one, for every text |
| Template.FindTopLevelEquality | docs/support.js:235-249 | finds exactly the first operator the specification names, with its length |
| Template.FindClose | docs/support.js:262-272 | finds exactly the bracket that closes the index |
| Template.ResolveExpression | docs/support.js:192-223 | the resolver terminates on every text and computes the specified value |
| Template.ResolvePathExpression | docs/support.js:250-281 | the path loop computes the specified value |
| Template.TakeStep | docs/support.js:255-281 | one turn of the path loop: a field, an index or failure |
| TemplateLaws.PrintBalanced | docs/support.js:224-249 | every printed tree is balanced for each way of counting and shows no equality at depth 0 |
| TemplateLaws.RoundTrip | docs/support.js:192-281 | resolving the print of any tree of paths, indexes, literals, negation and the four comparisons gives the tree's own value, its truth, equality and property access spelled out value by value, for every host and every binding |
| TemplateLaws.PrintedResolves | docs/support.js:192-196 | the same from the untrimmed entry point, with blanks, tabs and line ends around it |
| TemplateLaws.NegationIs | docs/support.js:213-213 | the negation of a printed tree is true iff its value is undefined, null, false, zero, NaN or the empty text |
| TemplateLaws.NegatedComparison | docs/support.js:200-213 | negating a comparison is comparing by the other symbol |
| TemplateLaws.MalformedPathIsUndefined | docs/support.js:250-281 | a path with text behind it that begins no step is undefined |
| TemplateLaws.NothingIsUndefined | docs/support.js:192-195 | blank text, and a path that begins with no name, are undefined |
| QuotedTexts.EqualityFoundIff | docs/support.js:235-249 | the scanner finds an operator iff one stands, not as the tail of a longer one and with more than blanks before it, where as many brackets have closed as opened |
| QuotedTexts.EqualityIsFirst | docs/support.js:235-249 | and what it finds is the first, with its whole symbol |
| QuotedTexts.QuotedResolvesIff | docs/support.js:198-221 | a quoted text reads back as itself iff no equality operator stands in its body outside brackets |
| QuotedTexts.QuotedEqualitySplits | docs/support.js:198-221 | the quoted text `a==b` resolves to a comparison of its halves |
| Alignment.TokenizeSpan | src/extraction_service/worker.py:57-71 | the loop over matches computes the specified tokens |
| Alignment.TokensSlice | src/extraction_service/worker.py:57-71 | every token is the text at its own offsets, with the span's page |
| Alignment.TokensApart | src/extraction_service/worker.py:57-71 | consecutive tokens never touch |
| Alignment.TokensCover | src/extraction_service/worker.py:57-71 | the tokens joined are the text without its blanks |
| Alignment.TokenizeDocument | src/extraction_service/worker.py:398-402 | the loop over a document's spans computes the tokens of all of them in order |
| Alignment.AlignPredictionsWithOffsets | src/extraction_service/worker.py:74-120 | the scan with its moving pointer computes the specified alignment |
| Alignment.AlignedAtPlaces | src/extraction_service/worker.py:74-120 | one aligned prediction for each, in order, carrying its place's page and offsets, or none |
| Alignment.AllPlacedIff | src/extraction_service/worker.py:101-120 | predictions without a word index are all placed iff they embed in order into the tokens, and then at strictly increasing matching tokens |
| Alignment.IndexIsExact | src/extraction_service/worker.py:90-99 | a word index in range is followed exactly and moves the scan just past it |
| Alignment.PlacedTextMatches | src/extraction_service/worker.py:57-120 | for any document and predictions, one scanned for and placed has a span whose text at the aligned offsets is its text or that without `##`; one not placed has no offsets |
| Alignment.PlacesIncrease | src/extraction_service/worker.py:101-120 | scanned predictions that are placed sit at strictly increasing tokens, whether or not all are placed |
| Promotion.Workspace.AutoPromoteLargeBatch | src/annotation_service/worker.py:472-585 | fails iff the batch can be claimed and the notice cannot be written; otherwise leaves the specified tables and counts what it promoted; an unclaimable batch changes nothing |
| Promotion.Workspace.LabelDocument | src/annotation_service/worker.py:645-677 | a document's outcome and its suggestions are written together, or only its failure |
| Promotion.Workspace.LabelDocuments | src/annotation_service/worker.py:643-677 | the loop over documents leaves the specified tables and counts successes and failures |
| Promotion.Workspace.CloseBatch | src/annotation_service/worker.py:679-700 | the closing transaction: final status and promotion together, or neither when the notice cannot be written |
| Promotion.Workspace.RunPrelabelBatch | src/annotation_service/worker.py:588-707 | the whole run leaves the specified tables and reports the specified figures, or raises |
| Promotion.AutoPromotedIs | src/annotation_service/worker.py:488-560 | promotion of a claimable batch fails iff there is no notice table; its closed form: the batch's suggestions become spans with fresh identifiers and one provenance row each, the others stay |
| Promotion.PromotionConserves | src/annotation_service/worker.py:533-562 | the multiset of contents over spans and suggestions is unchanged |
| Promotion.PromotedExactlyOnce | src/annotation_service/worker.py:472-585 | after a promotion that commits no suggestion is left for the batch, old spans stay, each new one says what its suggestion said and has exactly one provenance row naming the batch, and a second call changes nothing |
| PrelabelLaws.EveryDocumentHasItsOutcome | src/annotation_service/worker.py:643-677 | after a run, also one that raises, no document of the batch is pending: each row holds its own outcome, other batches' rows are untouched |
| PrelabelLaws.FailureKeepsMessage | src/annotation_service/worker.py:456-466 | a failure keeps the first 2000 characters of its message, or none of an empty one |
| PrelabelLaws.ReportAgrees | src/annotation_service/worker.py:679-707 | if the run reports, the counts are the rows marked, they sum to the documents, `state` says which of them is zero, and the batch row is completed in that state |
| PrelabelLaws.RaisesIff | src/annotation_service/worker.py:566-583 | a run raises iff it would confirm and there is no notice table; it then promotes nothing and leaves the batch running and processing |
| PrelabelLaws.RerunRaisesAgain | src/annotation_service/worker.py:588-707 | after a run that raised, a rerun raises iff it extracts any document |
| PrelabelLaws.OwnStoreNeverFinishes | src/annotation_service/worker.py:566-583 | the concrete batch of a tenant-owned store that stays running |
| PrelabelLaws.FinishedSuggestions | src/annotation_service/worker.py:110-138 | an extracted document has exactly its own drafts in order, each with its source; a failed one, and one outside the batch, what it had |
| PrelabelLaws.ConfirmingRun | src/annotation_service/worker.py:688-700 | a run over a large, not yet eligible batch with a document extracted, whose notice can be written, turns every suggestion of its documents into a traced span, and reports their number |
| PrelabelLaws.ConfirmingApproves | src/annotation_service/worker.py:488-583 | it approves the batch and writes one acceptance and one notice with the number reported |
| PrelabelLaws.OtherRun | src/annotation_service/worker.py:688-700 | every other run leaves spans, provenance, acceptances, notices and the batch's review and eligibility alone and reports no promotion |
| PrelabelLaws.SmallBatchAwaitsReview | src/annotation_service/worker.py:695-699 | a batch of another kind than large is left for its review whatever is extracted |
| PrelabelLaws.ClaimsIff | src/annotation_service/worker.py:688-700 | a run that returns makes a batch eligible iff it is large, was not, and some document of it reads succeeded |
| PrelabelLaws.SuggestedAfterRun | src/annotation_service/worker.py:588-707 | what any run, raising or not, leaves suggested for any document |
| PrelabelLaws.RerunConfirmsNothing | src/annotation_service/worker.py:488-497 | after a confirming run that did not raise, a rerun promotes nothing, whatever it extracts, and leaves its suggestions |
| PrelabelLaws.RunSound | src/annotation_service/worker.py:588-707 | identifiers stay fresh and unique, so the promotion laws hold of every later run |
| Accumulation.BaseModelServesIff | src/annotation_service/services/accumulation.py:43-68 | the report falls back to the base model iff nothing is promoted, a promoted row has no number, or the greatest number is 0 |
| Accumulation.ServingVersionIs | src/annotation_service/services/accumulation.py:43-68 | otherwise the serving version is the greatest promoted number, in decimal |
| Accumulation.AccumulationReport | src/annotation_service/services/accumulation.py:122-194 | whatever order the grouped rows come in, each figure of the report is the direct count of the spans it is about |
| Accumulation.FoldRows | src/annotation_service/services/accumulation.py:162-168 | the loop over grouped rows computes the specified tally |
| Accumulation.FoldIsReport | src/annotation_service/services/accumulation.py:149-194 | the tally over any grouping counts unconsumed reviewed spans: by version, by type, by source, and base-model ones apart |
| Accumulation.FiguresAre | src/annotation_service/services/accumulation.py:122-194 | each figure of a report is the number of spans in one set read off the tables |
| Accumulation.TypeFigure | src/annotation_service/services/accumulation.py:162-186 | the breakdown lists the types that occur, each with the number of its spans |
| Accumulation.SplitsSum | src/annotation_service/services/accumulation.py:150-186 | the per-type and the manual/automated splits each add up to the figure |
| Accumulation.GroupingExists | src/annotation_service/services/accumulation.py:133-146 | every state of the tables has an answer to the grouped query |
| TrainingConsumption.TrainingSession.RecordConsumedSpans | src/training_service/services/consumed_spans.py:64-110 | records every captured span not yet recorded; nothing at all iff there are foreign keys and one is gone |
| TrainingConsumption.FigureIsDelta | src/annotation_service/services/accumulation.py:122-147 | over any run the figure counts exactly the existing reviewed spans no recording run captured, and a consumed span names the first run that did |
| TrainingConsumption.FigureMovesBy | src/annotation_service/services/accumulation.py:122-147 | a confirmation by that version adds its span, a deletion takes one, a recording takes what it captured, nothing else moves the figure |
| TrainingConsumption.AutomatedIsAlwaysZero | src/annotation_service/services/accumulation.py:150-168 | over any run no counted span comes from a batch |
| TrainingConsumption.CompletionLowersByCaptured | src/training_service/worker.py:351-358 | a run that records lowers the figure by exactly the counted spans it captured, and spans confirmed meanwhile stay counted; with foreign keys and a captured span gone it changes nothing |
| TrainingConsumption.FailedRunChangesNothing | src/training_service/worker.py:629-648 | a run failing before the recording transaction changes no answer of the report |
| TrainingConsumption.RecordsIff | src/training_service/worker.py:597-648 | over any run a completion records its spans iff nothing deleted a captured one meanwhile or there are no foreign keys; the job ends failed iff it did not record or a late error came, and stays completed otherwise |
| TrainingConsumption.CompletedHasRecorded | src/training_service/worker.py:587-616 | over any run a completed job has recorded, unless a run of it is between its two transactions |
| TrainingConsumption.DeadWorkerNeverRecords | src/training_service/worker.py:587-616 | a worker that dies there never records, whatever happens later |
| TrainingConsumption.RedeliveryIsSkipped | src/training_service/worker.py:300-320 | a delivered job does nothing iff its run is known or the job has ended |
| TrainingConsumption.JobsWrittenBy | src/training_service/worker.py:300-648 | what each step of a run writes into its job, and that nothing else does |
| TrainingConsumption.CapturedWasTrainedIff | src/training_service/worker.py:349-358 | whatever happens between export and capture, what is captured is among what was trained on iff every captured span predates the export, had text then and is in scope |
| TrainingConsumption.RecordedWasTrainedIff | src/training_service/worker.py:349-620 | the same of the recorded completion, whatever happens until then |
| TrainingConsumption.ConfirmedInBetweenIsUntrained | src/training_service/worker.py:349-358 | a span confirmed between the two reads is captured and was not trained on |
| TrainingConsumption.CapturedIsTrainedIff | src/training_service/worker.py:349-358 | with nothing in between, the two agree iff the scope shuts out no span with text |
| TrainingConsumption.ImportRunConsumesReviews | src/training_service/worker.py:349-358 | a run over imports alone trains on no span and removes every span with text from the figure |
| Registry.PlatformConnection.RecordSync | src/shared/tenant_document_registry.py:123-155 | inserts, or updates every column but the source type; a failure changes no row and may leave the transaction aborted |
| Registry.PlatformConnection.UpdateStatusSync | src/shared/tenant_document_registry.py:68-79 | changes the status of an existing row only |
| Registry.PlatformConnection.ReconcileSchemaSync | src/shared/tenant_document_registry.py:158-194 | the loop leaves the specified registry and returns the number of rows read |
| Registry.PlatformConnection.ReconcilePlatformTenants | src/document_service/data_plane/tasks.py:446-490 | the sweep leaves the specified registry, raises iff its transaction ends aborted, and otherwise lists the tenants reconciled and skipped |
| Registry.RowWrittenIff | src/shared/tenant_document_registry.py:158-194 | a document's row is written iff its own write lands and no statement before it failed |
| Registry.OthersUntouched | src/shared/tenant_document_registry.py:158-194 | rows of other tenants and of documents not read stay as they were |
| Registry.SweepRaisesIff | src/document_service/data_plane/tasks.py:457-490 | the sweep raises iff some readable tenant's reconciliation has a failing statement |
| Registry.SweepStopsAtFailure | src/document_service/data_plane/tasks.py:457-490 | tenants behind the first such are not reached |
| RegistryHistory.RowAgreesIff | src/shared/tenant_document_registry.py:158-194 | after any run a row agrees with the store iff its write lasts or it agreed before |
| RegistryHistory.ReconciliationRepairs | src/shared/tenant_document_registry.py:158-194 | after any run of lost, late and reordered writes one undisturbed reconciliation makes every stored document's row agree, source type included, and leaves all other rows |
| RegistryHistory.RegistryIsStoreIff | src/shared/tenant_document_registry.py:158-194 | the tenant's registry then equals its store iff no registered document has left the store |
| RegistryHistory.LateStatusKeepsIff | src/shared/tenant_document_registry.py:49-65 | a late status write keeps agreement iff it says what the store says |
| BioRepair.SplitTokenJoined | scripts/preprocess_tokenization.py:40-48 | pieces are non-empty and concatenate to the token less its glyphs and separating colons; none iff the token is all glyphs |
| TokenSplits.CutsAreDue | scripts/preprocess_tokenization.py:19-48 | the pieces tile the cleaned token: between any two there is a boundary a rule names, or a colon between two labels |
| TokenSplits.PiecesAreWhole | scripts/preprocess_tokenization.py:19-48 | no piece has a place left at which a rule would cut |
| TokenSplits.CleanedIs | scripts/preprocess_tokenization.py:15-41 | cleaning leaves no private-use glyph or replacement character, and leaves a text without them alone |
| BioRepair.RepairRecord | scripts/preprocess_tokenization.py:51-66 | the nested loops compute the specified tokens and tags |
| BioRepair.ExpandTag | scripts/preprocess_tokenization.py:58-65 | the inner loop gives one tag per piece as specified |
| BioRepair.RepairKeepsEntities | scripts/preprocess_tokenization.py:51-66 | equal lengths, and the same entities in the same order, each covering exactly the pieces of its own tokens |
| BioRepair.RepairKeepsWellFormed | scripts/preprocess_tokenization.py:51-66 | a well-formed record stays well formed |
| TokenSplits.RepairIdempotent | scripts/preprocess_tokenization.py:51-66 | repairing a repaired record changes nothing |

## Left out

- SQL text, drivers, connection URLs, TLS, passwords, retries, telemetry, HTTP handlers and task wiring: plumbing around the steps modelled.
- The table and column an index in place is on (its statement is modelled), and views or constraints not created by the reconciler.
- DDL errors of the database other than a refused column name, a table name held by an index, an undefined table or an undefined column; a failed reconcile is rolled back by its caller.
- The projection's writes into `subject`, which use the same unquoted names.
- Generated SQL literals for entity types (`entity_type_literals`) and the loading of definitions.
- The asynchronous and the synchronous engine caches are one model; they run the same code.
- Direct `put` over an existing key with another engine, and a secret rotated behind an unchanged reference.
- Registry, control-plane and connection timestamps other than the version of a connection row.
- The store identity and schema revision a provisioning writes beside its status, and the backoff formula.
- What loose `==` and property lookup yield in templates is given by the host; the React part of the file is not modelled.
- Grounding, masking and the LLM calls: an extraction is given by its outcome. Counts stored beside an outcome are not modelled.
- The order in which `by_entity_type` lists its types, and the eligibility overview.
- Fine-tuning itself, artifacts and the version row a run inserts; a run is its status, its captured spans and its outcome.
- TrainingConsumption.FailedRunChangesNothing: is about failures before the recording transaction, because one after it does record (RecordsIff).
- BioRepair.RepairRecord: asks for equal lengths; the original silently drops the longer list's tail.
- Cleaning heuristics for names and labels, and all migrations but 037.
