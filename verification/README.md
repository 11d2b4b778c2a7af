# DomainRAG-Ops: a verified model

This project models the parts of DomainRAG-Ops that carry the most state, branching or concurrency, and
proves what they guarantee for every input, every run and every interleaving. Where the code does not do
what its documentation says, the model follows the code and a lemma says exactly when the promise holds.

`dafny verify dfyconfig.toml` checks everything.

| file | what it models |
|---|---|
| `BoxClustering.dfy` | merging figure boxes of an exam page into clusters |
| `SchemaVersions.dfy` | concurrent PUTs of a tenant's input schema, as transactions over rows, locks and a unique index |
| `ServerSentEvents.dfy`, `StreamExactness.dfy` | the chat stream: printer, chunked client parser, round trip and its exact domain |
| `InputSchema.dfy`, `SchemaComposition.dfy` | the recursive metadata validator and the composition of platform and tenant fields |
| `SchemaLoader.dfy` | the cache of composed schemas under threads |
| `MetadataPatch.dfy` | PATCH of document metadata: the view that is validated against the row that is stored |
| `JwksCache.dfy` | the JWKS cache under concurrent callers |
| `DeepMerge.dfy`, `TenantConfig.dfy` | layered tenant configuration: merge laws and the cached service |
| `ConfigInterleaving.dfy`, `OverrideEffect.dfy` | its loads under threads, and when an override takes effect |
| `OAuthState.dfy` | the OAuth state store with garbage collection |
| `ExamImport.dfy` | the exam import pipeline: figure filtering, de-duplication, upsert store |
| `CitationReverify.dfy` | the paged citation re-verification loop |
| `HardDelete.dfy` | hard delete over five stores with failures and dead letters |
| `PayloadSync.dfy` | approval and metadata sync over document row, chunk rows and vector payload |
| `Membership.dfy` | admission over assign, revoke, requests and just-in-time enrolment |

## Main results

- **Clustering is unique.** For a gap of at least zero `Merge` ends in boxes pairwise farther apart than the
  gap, every non-empty input lies in exactly one of them, each is the bounding box of its inputs, and each
  lies inside some member of every separated family that covers the inputs. That determines the result: two
  lists with the same non-empty boxes give permutations of one another (`ClusteringIsUnique`).
- **No lost schema update.** In every interleaving the committed versions are 1..n, only n is active, a
  successful PUT had named the immediate predecessor of what it wrote, and no committed row is ever
  overwritten. A reader that was blocked and came back with no row may pass the base check, as a run shows, but
  cannot commit.
- **The stream cannot observe its chunks**, and a list of events survives the round trip exactly when every
  event is clean: no newline, no white space at the edges, some data.
- **Validator errors are exact**: a field, position and code are reported if and only if that keyword is
  violated there and every enclosing array has the right type. Errors are only appended, and the list stays
  as it was, whatever it held, if and only if the value conforms at every depth.
- **PATCH validates a merge and stores a replacement.** Whatever schema accepted the merged view also accepts
  the stored document, exactly when the request is faithful in five ways: a metadata patch forgets no stored
  key, stored metadata hides no patched column, no patched key with a value is one the view does not show, a
  patched `acl` is the one the chunks have, and no patched value reads back as a default. Each failing way has
  its lemma. The equivalence asks that no two list or object values that are compared differ only in the
  spelling of a number inside them (`[1]` against `[1.0]`), which schemas may be unable to tell apart. A
  faithful patch then leaves a valid document exactly when its metadata does not hide a switch of the input
  type from validation.
- **JWKS**: whenever in a run the cache has gone stale or is still empty, all callers that face it share one
  fetch, as long as it succeeds with their kids and stays fresh. A forced call that ended has itself fetched
  exactly when the cache was stale, or lacked its kid, at its turn at the lock: `force_refresh` on a fresh cache
  that has the kid fetches nothing, although the docstring (`backend/app/core/jwks_client.py:47`) says it does.
  A rotated key is not shared: in every run at least as many fetches begin as there are callers that had missed
  their key and have ended since, and a run shows one that begins although the cache has the key.
- **Configuration**: deep merge is associative exactly on groupable layers. Under threads, each category
  served is its composition at some instant at which the load that stored it was reading. All categories
  together are the composition at one instant when the changes that load overlapped, from its fetch to the
  next clear, concern one category, in particular when there was at most one change. Two changes of two
  categories are one too many: `TornConfiguration` is a run that serves what never was, and a value whose
  override was replaced and invalidated. After an invalidation the layer is in effect for all later loads, in
  every continuation, exactly when no load under way that can still finish has anything else pending than the
  present composition; and a load under way can still be served exactly when its iteration is over or no
  category was added to the dictionary it iterates over.
- **A schema change takes effect at once** for all later loads, in every continuation, exactly when no load
  under way has read an older version; otherwise the old schema may be cached with no time to live.
- **OAuth states**: with a clock that does not run back collection is unobservable. With any clock, a pop
  notices it exactly when its entry is still unexpired but some call since the put has seen it expired. No
  clock makes a replay possible.
- **Re-import**: an id holds the last item created under it, so an import overwrites exactly the stored items
  whose ids its created items have. Importing a paper again creates nothing exactly when every question is long,
  every item it created is still there and not retired, and every stored item it repeats was not overwritten;
  with ids that are new and distinct only the lengths and the retired status matter. An item that a curator
  retires in between comes back: it alone is created again, under its old id, and the store is as it was before
  the retirement.
- **Admission**: after every history of assignments, revocations, requests and policy changes a plain user is
  admitted exactly when the domain is open or the row was last settled as active; who enrolled while the domain
  was open is admitted after it is closed, until revoked.
- **Paging**: the re-verification visits the rows asked for exactly when the limit is below one page, a
  multiple of 20, or the log ends before the short last page.
- **Hard delete**: every orphaned vector point is named in a dead letter, and no later delete removes it: a
  run without dead letters leaves no point of its target exactly when there was no orphan of it before.
  Archived chunk rows go only with a run that finds chunk rows, although the docstring
  (`backend/app/repositories/chunk_repository.py:204`) says both are deleted together.

## Model

| member | source | states |
|---|---|---|
| `BoxClustering.Merge` | backend/app/services/assessment_pdf_extractor.py:134-162 | terminates for every gap; for a gap of at least zero any two boxes are at least the gap apart on some axis, every non-empty input lies in a box, each box is the bounding box of inputs and no larger than any such family of boxes makes it |
| `BoxClustering.NearIff` | backend/app/services/assessment_pdf_extractor.py:148-153 | two non-empty boxes are near if and only if they are less than the gap apart on both axes, in coordinates |
| `BoxClustering.Round` | backend/app/services/assessment_pdf_extractor.py:139-161 | a round keeps clusters and coverage, shrinks the list when it changed something, and has separated every pair when it did not |
| `BoxClustering.Absorb` | backend/app/services/assessment_pdf_extractor.py:143-159 | the growing box ends far from all that is left and loses no coverage |
| `BoxClustering.Sweep` | backend/app/services/assessment_pdf_extractor.py:145-159 | one pass absorbs near boxes, keeps the others, and reports whether anything was absorbed |
| `BoxClustering.HullOfNearClusters` | backend/app/services/assessment_pdf_extractor.py:153-156 | the union of two near clusters is forced by every separated covering family |
| `BoxClustering.ExactlyOneBox` | backend/app/services/assessment_pdf_extractor.py:136-162 | every non-empty input lies in exactly one output box |
| `BoxClustering.ClusteringIsUnique` | backend/app/services/assessment_pdf_extractor.py:134-162 | order and multiplicity of the inputs do not matter: the clusters are the same multiset |
| `SchemaVersions.RunKeepsInv` | backend/app/repositories/tenant_input_schema_repository.py:83-167 | rows, locks, index entries and authors stay consistent in every state of every run |
| `SchemaVersions.StepOfReader` | backend/app/repositories/tenant_input_schema_repository.py:94-110 | the candidates are the rows active at that instant; without any, no row is read |
| `SchemaVersions.StepOfLocker` | backend/app/repositories/tenant_input_schema_repository.py:94-110 | the highest candidate that nobody else holds is read if it is still active, and dropped if not |
| `SchemaVersions.StepOfWriter` | backend/app/repositories/tenant_input_schema_repository.py:111-165 | a transaction goes on exactly if it read the base it was given; a version committed already is a conflict |
| `SchemaVersions.StepOfCommitter` | backend/app/repositories/tenant_input_schema_repository.py:117-167 | the next version becomes active, the row that was read deprecated, and no other row changes |
| `SchemaVersions.VersionsAreConsecutive` | backend/app/repositories/tenant_input_schema_repository.py:33-53 | committed versions are exactly 1..n, only n is active, and get_active reads n or nothing |
| `SchemaVersions.NoLostUpdate` | backend/app/repositories/tenant_input_schema_repository.py:94-167 | a successful PUT authored its version and had named the predecessor; one winner per base |
| `SchemaVersions.HistoryIsPermanent` | backend/app/repositories/tenant_input_schema_repository.py:117-167 | committed versions are never removed, overwritten or reactivated |
| `SchemaVersions.BlockedReaderCannotCommit` | backend/app/repositories/tenant_input_schema_repository.py:131-165 | a transaction that read no row while versions exist can only abort |
| `SchemaVersions.BlockedReaderPassesBaseCheck` | backend/app/repositories/tenant_input_schema_repository.py:94-116 | a run in which an overtaken reader without a base passes the base check while two versions are committed |
| `SchemaVersions.CommitKeepsInv` | backend/app/repositories/tenant_input_schema_repository.py:117-167 | a commit deprecates the old active row and adds the next version as the only active one |
| `SchemaVersions.InsertKeepsInv` | backend/alembic/versions/001_initial_schema.py:286-286 | racing inserts of one version: the unique index lets at most one through |
| `SchemaVersions.TryCandidateKeepsInv` | backend/app/repositories/tenant_input_schema_repository.py:94-110 | FOR UPDATE locks the newest active row or drops a candidate that is no longer active, one holder per row |
| `ServerSentEvents.ReadStream` | frontend/lib/api.ts:443-475 | events and leftover buffer are a function of the concatenated text alone |
| `ServerSentEvents.TakeFrames` | frontend/lib/api.ts:450-473 | takes exactly the complete frames off the buffer, in order |
| `ServerSentEvents.ParseFrame` | frontend/lib/api.ts:455-461 | the last event line names the event, the data lines are trimmed and joined |
| `ServerSentEvents.FirstBreak` | frontend/lib/api.ts:452-452 | the first blank line, or none |
| `ServerSentEvents.CutAppend` | frontend/lib/api.ts:449-454 | cutting more text continues where cutting the earlier text stopped |
| `ServerSentEvents.ParsePrinted` | backend/app/api/tenant_chat.py:96-99 | a printed list of clean events parses back to itself with nothing left |
| `ServerSentEvents.RoundTrip` | backend/app/api/tenant_chat.py:96-99 | the same for every way of cutting the printed text into chunks |
| `StreamExactness.ListSurvivesIffClean` | frontend/lib/api.ts:443-473 | a printed list of events, cut into any chunks, comes back as itself if and only if every event is clean |
| `StreamExactness.MassOfList` | frontend/lib/api.ts:450-462 | printed events never yield more data than they carry, and as much only if each payload is one trimmed line |
| `StreamExactness.BodyDataBound` | frontend/lib/api.ts:457-461 | a payload comes back trimmed when it is one line, strictly shorter when it is several |
| `StreamExactness.OrdinaryEventsAreClean` | backend/app/api/tenant_chat.py:96-99 | an event of one line of data with visible characters at its edges, as JSON has, is clean |
| `StreamExactness.TrimMeaning` | frontend/lib/api.ts:458-459 | trimming takes off white space at both ends, and all of it |
| `StreamExactness.SpaceMeaning` | frontend/lib/api.ts:458-459 | the code points that count as white space, and no others |
| `StreamExactness.LineKinds` | frontend/lib/api.ts:458-459 | a line is an event or data line by its first six or five characters |
| `StreamExactness.JoinLines` | frontend/lib/api.ts:457-461 | splitting into lines is undone by joining |
| `StreamExactness.LinesJoin` | frontend/lib/api.ts:457-461 | joining pieces without line ends is undone by splitting |
| `InputSchema.ValidateField` | backend/app/core/input_schema.py:271-345 | appends the errors of one value, in the order of the code, to those it was given; a type error of the value exactly when its definition refuses the type it carries |
| `InputSchema.TypeErrorIff` | backend/app/core/input_schema.py:276-284 | a type is refused if and only if it is given, is no empty list, and names nothing the value carries: a known name its own, number also integers, an unknown name anything, a union any of its options |
| `InputSchema.CheckScalars` | backend/app/core/input_schema.py:286-331 | enum, pattern, range, length and format checks |
| `InputSchema.AmongChoices` | backend/app/core/input_schema.py:286-292 | membership under the loose equality of the language |
| `InputSchema.LooseIsSame` | backend/app/core/input_schema.py:286-292 | the equality used compares numbers and truth values by their number, texts exactly, lists and objects part by part |
| `InputSchema.BoundMeaning` | backend/app/core/input_schema.py:314-318 | the first spelling of a bound counts if given and not zero, the second one otherwise |
| `InputSchema.ErrorMembers` | backend/app/core/input_schema.py:271-345 | an error is in the list exactly when it was there before or its keyword is violated at a reachable position |
| `InputSchema.ConformsIffNothingReported` | backend/app/core/input_schema.py:276-345 | stopping at a type mismatch hides no non-conformance |
| `InputSchema.ErrorsAppend` | backend/app/core/input_schema.py:271-345 | what is found in a value does not depend on the errors found before, and is put behind them |
| `InputSchema.NoNewErrorIffConforms` | backend/app/core/input_schema.py:271-345 | for any list of errors so far, it stays a prefix, and stays as it was exactly when every keyword holds at every position of any depth |
| `SchemaComposition.Compose` | backend/app/core/input_schema.py:154-180 | required names of both layers, each once in the order of first occurrence, domain_id and input_type dropped from the platform's; the tenant's definitions, and the platform's under other names but those two |
| `SchemaComposition.FirstOccurrences` | backend/app/core/input_schema.py:174-174 | the same names, each once, ordered by their first occurrences |
| `SchemaComposition.CompositionMeaning` | backend/app/core/input_schema.py:154-180 | acceptance in terms of the two layers: platform and tenant required fields, tenant definitions, platform definitions not replaced |
| `SchemaComposition.PlatformRequiredCannotBeDropped` | backend/app/core/input_schema.py:154-174 | no tenant schema accepts metadata without a platform-required field other than the two injected ones |
| `SchemaComposition.CheckRequired` | backend/app/core/input_schema.py:248-258 | reports exactly the required names that are absent or blank |
| `SchemaComposition.Validate` | backend/app/core/input_schema.py:221-268 | raises exactly when the input type is unknown or the schema does not accept the metadata |
| `SchemaLoader.InEffectIff` | backend/app/core/input_schema.py:97-183 | a change is in effect for every load that ends after it, in every continuation, if and only if no load under way has read an older version |
| `SchemaLoader.FreshLoad` | backend/app/core/input_schema.py:134-183 | left alone after a change, a load that finds the cache empty caches and is served the new version |
| `SchemaLoader.OvertakenChange` | backend/app/core/input_schema.py:143-183 | a load that read before a change and stores after it makes a load that arrives later get the old schema |
| `SchemaLoader.StaleUntilReplaced` | backend/app/core/input_schema.py:134-183 | a cached schema is served until a change, a reset or another load replaces it |
| `MetadataPatch.MergeForValidation` | backend/app/services/document_metadata_service.py:208-251 | key by key: the patch's metadata, the patched column, the stored metadata, the chunks' acl, the viewed column, in this order |
| `MetadataPatch.Update` | backend/app/services/document_metadata_service.py:99-125 | accepted exactly when the merged view is valid; then a patched column holds the patched value, or its default if it has one and the value is null, false, zero or empty, an unpatched one is unchanged, and the metadata is replaced as a whole |
| `MetadataPatch.InputTypeMeaning` | backend/app/services/document_metadata_service.py:114-118 | the schema is that of the named type if it is something, else of the existing one, else there is no check |
| `MetadataPatch.SomethingReadsBack` | backend/app/repositories/document_repository.py:265-289 | a patched value that is neither null, false, zero nor empty is read back as itself in a viewed column |
| `MetadataPatch.AcceptedPatchConforms` | backend/app/services/document_metadata_service.py:105-122 | a faithful patch that is accepted leaves a valid document holding what was validated, blanks aside, if its metadata hides no switch of the input type |
| `MetadataPatch.ConformityKeptIff` | backend/app/repositories/document_repository.py:220-260 | for any patch, every schema that accepted the merged view accepts the stored document if and only if the patch forgets, hides, drops and defaults nothing and leaves acl alone |
| `MetadataPatch.PreservedIffCarried` | backend/app/core/input_schema.py:247-268 | every schema that accepts one metadata map accepts another if and only if every key is carried over, blanks aside |
| `MetadataPatch.HiddenSwitchIsNotValidated` | backend/app/services/document_metadata_service.py:111-118 | a new input type with a falsy one in the metadata is validated against the old type, or not at all if there was none |
| `MetadataPatch.ForgottenKeyIsLost` | backend/app/services/document_metadata_service.py:233-244 | a stored metadata key that a metadata patch leaves out is validated and then gone: some schema accepts before and rejects after |
| `MetadataPatch.UnviewedKeyIsLost` | backend/app/repositories/document_repository.py:204-243 | a top-level key outside the view, stored or unknown, is validated and then missing: some schema accepts before and rejects after |
| `MetadataPatch.PatchedAclIsIgnored` | backend/app/services/document_metadata_service.py:222-244 | a patched acl is validated and never written: some schema accepts before and rejects after |
| `MetadataPatch.CollidingKeyWinsBack` | backend/app/services/document_metadata_service.py:233-244 | a metadata key named like a patched column loses in validation and wins in storage: some schema accepts before and rejects after |
| `MetadataPatch.FalsyReadsBackAsDefault` | backend/app/repositories/document_repository.py:274-284 | an empty security level is validated as blank and reads back as the default: some schema accepts before and rejects after |
| `MetadataPatch.DocumentsProper` | backend/app/repositories/document_repository.py:204-218 | the real columns satisfy what the theorems ask of a layout |
| `MetadataPatch.DocumentsReadBack` | backend/app/repositories/document_repository.py:204-289 | which columns of a documents row read back a default, and which are written and not viewed |
| `JwksCache.RunKeepsInv` | backend/app/core/jwks_client.py:46-99 | only the lock holder fetches, and the cache is the latest successful answer, in every run |
| `JwksCache.StepOfCall` | backend/app/core/jwks_client.py:46-78 | the only step of a call that looks the cache up or has its turn at the lock: return, wait, fetch or second turn |
| `JwksCache.EndOfFetch` | backend/app/core/jwks_client.py:80-99 | what a failed and a successful fetch do to the cache and the call |
| `JwksCache.ReturnedKeyIsCurrent` | backend/app/core/jwks_client.py:46-71 | a returned key is in the latest successful answer, which is within its time to live |
| `JwksCache.UnknownKidWasFetchedFor` | backend/app/core/jwks_client.py:65-71 | unknown kid is raised only after a fetch of that same call lacked it |
| `JwksCache.OnlyASuccessChangesTheCache` | backend/app/core/jwks_client.py:76-99 | a failed or empty fetch changes nothing |
| `JwksCache.ForcedCallFetchesIff` | backend/app/core/jwks_client.py:46-78 | a forced call that ended has itself fetched if and only if the cache was stale or lacked its kid at its turn at the lock |
| `JwksCache.OneFetchForAll` | backend/app/core/jwks_client.py:53-78 | from any state of a run with a stale or empty cache, the callers that have not had their turn start at most one fetch and none of them fails, while it succeeds with their kids and stays fresh |
| `JwksCache.StaleInService` | backend/app/core/jwks_client.py:73-78 | a run that comes to such a state with keys in the cache and an earlier call ended |
| `JwksCache.StartedIsSum` | backend/app/core/jwks_client.py:46-78 | the fetches begun in a run are those its calls have begun |
| `JwksCache.EachMissFetches` | backend/app/core/jwks_client.py:65-68 | between two states of a run at least as many fetches begin as there are callers that had missed their key and have ended |
| `JwksCache.RotationFetchesAgain` | backend/app/core/jwks_client.py:65-68 | a run from the start in which a caller fetches although the cache is fresh and has its key |
| `DeepMerge.DeepMerge` | backend/app/core/tenant_config_service.py:148-161 | the loop computes the recursive merge |
| `DeepMerge.MergeSelf` | backend/app/core/tenant_config_service.py:148-161 | merging a tree over itself changes nothing |
| `DeepMerge.MergeAgain` | backend/app/core/tenant_config_service.py:148-161 | re-applying an override changes nothing |
| `DeepMerge.NodeOfMerge` | backend/app/core/tenant_config_service.py:148-161 | path by path, the override stands where it has something, hides what lies below its leaves, and lets the base through elsewhere |
| `DeepMerge.PathsDetermine` | backend/app/core/tenant_config_service.py:148-161 | what stands at its paths determines a tree |
| `DeepMerge.EmptyIsNeutral` | backend/app/core/tenant_config_service.py:148-161 | the empty dictionary is neutral on both sides |
| `DeepMerge.CoveredIffAbsorbed` | backend/app/core/tenant_config_service.py:153-161 | a layer disappears under another exactly when all its paths are overridden |
| `DeepMerge.AssociativeIff` | backend/app/core/tenant_config_service.py:148-161 | the two groupings of three layers agree if and only if the layers are groupable |
| `DeepMerge.AssociativeUnlessAlternating` | backend/app/core/tenant_config_service.py:148-161 | they agree when no path is dictionary, leaf, dictionary |
| `DeepMerge.NotAssociative` | backend/app/core/tenant_config_service.py:157-160 | a leaf between two dictionaries makes the groupings differ |
| `TenantConfig.ApplyRuntime` | backend/app/core/tenant_config_service.py:63-67 | every known category is the runtime dictionary merged over its base |
| `TenantConfig.TenantConfigService.Load` | backend/app/core/tenant_config_service.py:54-71 | sequentially, hit or miss, at every path of every category what the runtime override says over the tenant's file over the platform default; a value younger than 60 seconds is reused |
| `TenantConfig.NodeOfComposition` | backend/app/core/tenant_config_service.py:94-116 | the same of the composition: platform, tenant file, runtime override, each over the one below |
| `TenantConfig.TenantConfigService.ApplyRuntimeOverride` | backend/app/core/tenant_config_service.py:73-83 | the category is replaced and the domain leaves the cache, so cached values stay exact |
| `TenantConfig.TenantConfigService.ClearRuntimeOverrides` | backend/app/core/tenant_config_service.py:85-92 | one or all domains lose their overrides and their cached values |
| `TenantConfig.OverridesFollowHistory` | backend/app/core/tenant_config_service.py:73-92 | after any history of overrides and clears a category is its base under the last override alone |
| `TenantConfig.OverrideAgain` | backend/app/core/tenant_config_service.py:63-82 | putting the override in force again changes nothing, nor does moving it into the layer below while it is in force |
| `ConfigInterleaving.RunKeepsInv` | backend/app/core/tenant_config_service.py:54-92 | in every interleaving, partly merged and stored configurations can be traced to the history of the runtime layer |
| `ConfigInterleaving.ChangesOfLayer` | backend/app/core/tenant_config_service.py:73-92 | a write sets one category and keeps the others, a clear leaves none |
| `ConfigInterleaving.StartOfLoad` | backend/app/core/tenant_config_service.py:54-67 | a load is served what is cached for under 60 seconds, or fetches the layer as it is with all of its categories to visit |
| `ConfigInterleaving.ServedIsRecentAndTraceable` | backend/app/core/tenant_config_service.py:54-71 | what is served was stored under 60 seconds ago, and each category held at an instant between the fetch of the load that stored it and the next clear |
| `ConfigInterleaving.OneCategoryIsExact` | backend/app/core/tenant_config_service.py:61-70 | a load whose overlapped changes, from its fetch to the next clear, concern one category stores the composition at one instant |
| `ConfigInterleaving.OneChangeIsExact` | backend/app/core/tenant_config_service.py:61-70 | so does a load that overlaps at most one change, be it a write or a clear |
| `OverrideEffect.InEffectIff` | backend/app/core/tenant_config_service.py:73-83 | after an invalidation whoever is served later, in every continuation, gets values from then on, if and only if no load under way that can still finish has something else pending |
| `OverrideEffect.FinishLoad` | backend/app/core/tenant_config_service.py:63-70 | a load whose dictionary has gained no key is, left alone, served exactly what it has pending |
| `OverrideEffect.ServedIffCanFinish` | backend/app/core/tenant_config_service.py:63-70 | a load under way is served in some continuation if and only if its iteration is over or no category was added since it began |
| `ConfigInterleaving.TornConfiguration` | backend/app/core/tenant_config_service.py:63-83 | a run in which two changes of two categories make a load store what was composed at no instant, and a later load is served a value that was replaced and invalidated |
| `OAuthState.InMemoryOAuthStateStore.Collect` | backend/app/core/oauth_state_store.py:57-61 | exactly the expired entries go |
| `OAuthState.InMemoryOAuthStateStore.Put` | backend/app/core/oauth_state_store.py:42-45 | the live entries and the new one |
| `OAuthState.InMemoryOAuthStateStore.Pop` | backend/app/core/oauth_state_store.py:47-55 | the entry is taken out in any case and returned unless expired |
| `OAuthState.CollectionIsUnobservable` | backend/app/core/oauth_state_store.py:42-61 | with a monotone clock every pop answers as a plain map would |
| `OAuthState.PopReturnsLatestUnexpiredPut` | backend/app/core/oauth_state_store.py:42-61 | a pop returns the latest put of its state if not taken and not expired, and nothing otherwise |
| `OAuthState.CollectingHoldsLatestPut` | backend/app/core/oauth_state_store.py:42-61 | with any clock the store holds the latest put of a state unless a call since has seen it expired |
| `OAuthState.UnobservableIff` | backend/app/core/oauth_state_store.py:47-61 | with any clock a pop answers as a plain map would if and only if there is no entry, it has expired, or no call since the put has seen it expired |
| `OAuthState.PoppedAtMostOnce` | backend/app/core/oauth_state_store.py:47-55 | with any clock a state is not returned again until it is put again |
| `OAuthState.BackwardClockIsObservable` | backend/app/core/oauth_state_store.py:57-61 | a clock that runs backwards makes collection observable |
| `ExamImport.CollectPages` | backend/app/services/assessment_import_service.py:104-109 | for every picture the set of pages it occurs on |
| `ExamImport.ClassifyAll` | backend/app/services/assessment_import_service.py:110-124 | the class of every figure: answer page, unlinked, furniture or grouped |
| `ExamImport.GroupFigures` | backend/app/services/assessment_import_service.py:116-125 | every question's grouped figures in order, and the number of furniture figures |
| `ExamImport.FiguresAccountedFor` | backend/app/services/assessment_import_service.py:102-125 | the four classes add up to all figures |
| `ExamImport.GroupedFigures` | backend/app/services/assessment_import_service.py:110-125 | a grouped figure is linked, off the answer page and on fewer pages than furniture |
| `ExamImport.GroupedIff` | backend/app/services/assessment_import_service.py:110-125 | a figure is grouped under a question if and only if it is linked to it, off the answer page and on fewer distinct pages than furniture |
| `ExamImport.AssessmentImportService.ImportPdf` | backend/app/services/assessment_import_service.py:127-193 | the store, the created items, created plus skipped equal to parsed, figures stored equal to the assets of created items |
| `ExamImport.NoDuplicateCreated` | backend/app/services/assessment_import_service.py:135-142 | created long questions share no key with each other or with an active item |
| `ExamImport.CreatedIff` | backend/app/services/assessment_import_service.py:129-142 | an item is left out if and only if its stripped question has ten characters or more and its key is that of an item in the store that is not retired, or of such a question before it |
| `ExamImport.CreatedAreTheNew` | backend/app/services/assessment_import_service.py:135-142 | an item is created exactly when it duplicates neither an active item nor an earlier long one |
| `ExamImport.RecordMeaning` | backend/app/services/assessment_import_service.py:153-176 | a created item keeps its texts and figures, and is approved if that is automatic, the answer is verified and the language did not drift, otherwise as asked for |
| `ExamImport.StoreById` | backend/app/repositories/assessment_item_repository.py:79-99 | after an import with any ids, an id holds the last item created under it, or what it held before |
| `ExamImport.ReimportCreatesNothingIff` | backend/app/services/assessment_import_service.py:127-178 | with any ids, importing again creates nothing, and then changes nothing, if and only if every question is long, the created items are still there and not retired, and the repeated ones were not overwritten |
| `ExamImport.SettledWithFreshIds` | backend/app/services/assessment_import_service.py:144-144 | with new and distinct ids that means long questions and no created item stored retired |
| `ExamImport.RetiredItemComesBack` | backend/app/repositories/assessment_item_repository.py:79-99 | an item retired after the import is the only one created by the next import, under its old id, and the retirement is undone |
| `CitationReverify.Reverify` | backend/app/services/citation_reverify_service.py:157-212 | terminates, visits the rows given by the closed form, and scanned is updated plus skipped plus failed |
| `CitationReverify.PageMeaning` | backend/app/repositories/chat_log_reader.py:55-57 | a page starts behind the pages before it and holds at most a hundred rows |
| `CitationReverify.PageLength` | backend/app/repositories/chat_log_reader.py:55-57 | a page is full unless the log ends before it does |
| `CitationReverify.VisitsAsAskedIff` | backend/app/repositories/chat_log_reader.py:55-57 | the rows asked for, once each and in order, if and only if the limit is below a page, whole pages, or the log is short |
| `CitationReverify.FiftyMissesTen` | backend/app/services/citation_reverify_service.py:161-166 | at a limit of fifty, rows 20 to 29 are visited twice and 40 to 49 never |
| `HardDelete.HardDeleteService.DeleteByDoc` | backend/app/repositories/chunk_repository.py:197-248 | the matching chunk rows go, and the matching archived rows only if there was a chunk row |
| `HardDelete.HardDeleteService.Execute` | backend/app/services/hard_delete_service.py:104-145 | the five stores, the dead letters and the numbers of chunks, files and documents removed, after one run with any faults |
| `HardDelete.EveryOrphanIsNamed` | backend/app/services/hard_delete_service.py:104-125 | over any sequence of runs every vector point without a chunk row is named in a dead letter |
| `HardDelete.OrphansStay` | backend/app/services/hard_delete_service.py:116-121 | no later run removes an orphaned point |
| `HardDelete.CleanRun` | backend/app/services/hard_delete_service.py:104-145 | a run without dead letters leaves no chunk, file or document of its target, of its points exactly the old orphans, and its archived rows exactly when it found no chunk row |
| `HardDelete.ArchiveClearedIff` | backend/app/repositories/chunk_repository.py:226-246 | the archive is clear of the target if and only if it was before or the run deleted chunk rows |
| `HardDelete.ArchiveStays` | backend/app/repositories/chunk_repository.py:226-246 | archived rows of a document without chunk rows outlive any number of deletes |
| `HardDelete.CleanRunLeavesNoPointIff` | backend/app/services/hard_delete_service.py:104-145 | it leaves no point of its target if and only if there was no orphan of it |
| `HardDelete.RetryIsCleanButIncomplete` | backend/app/repositories/chunk_repository.py:197-248 | after a failed vector delete a retry reports nothing and removes nothing |
| `HardDelete.VersionIsDeleted` | backend/app/repositories/chunk_repository.py:205-246 | a run without dead letters clears exactly the version asked for, and after any run all else of every store is as it was |
| `HardDelete.DocumentIsDeleted` | backend/app/repositories/chunk_repository.py:205-246 | without a version the same holds for all versions of the document |
| `HardDelete.OthersUntouched` | backend/app/repositories/chunk_repository.py:205-246 | other documents and versions are not touched |
| `PayloadSync.DocumentSync.SetApproval` | backend/app/services/document_approval_service.py:76-105 | document row, chunk rows and payload after an approval change, however the later writes fare |
| `PayloadSync.DocumentSync.Update` | backend/app/services/document_metadata_service.py:120-153 | the same after an accepted or rejected patch |
| `PayloadSync.DocumentSync.SyncChunks` | backend/app/repositories/chunk_repository.py:156-195 | chunk rows first, the payload only after them |
| `PayloadSync.StoresFollowHistory` | backend/app/services/document_metadata_service.py:120-153 | document, chunk row and payload hold what the last operation, the last to reach the chunks, and the last to land on that point wrote |
| `PayloadSync.DocumentFollowsHistory` | backend/app/repositories/document_repository.py:195-260 | every column of the document row, synced or not, holds what the last accepted patch or approval wrote to it |
| `PayloadSync.UnsyncedStays` | backend/app/services/document_metadata_service.py:127-148 | columns that are not synced stay as they were in chunk rows and payload |
| `PayloadSync.StoresAgree` | backend/app/services/document_approval_service.py:76-105 | from an agreeing start, stores agree on every synced key whose last write got through |
| `PayloadSync.ChunkFailureSplitsStores` | backend/app/services/document_approval_service.py:89-94 | a chunk write that raises leaves the document ahead of its chunks |
| `PayloadSync.DocumentsProper` | backend/app/services/document_metadata_service.py:42-50 | the real key sets satisfy what the theorems ask of a layout |
| `PayloadSync.WrittenNotSynced` | backend/app/services/document_metadata_service.py:42-50 | which columns of a documents row a patch writes without copying them on |
| `Membership.MembershipTable.Revoke` | backend/app/services/membership_service.py:151-166 | an active row becomes inactive, and whether there was one |
| `Membership.MembershipTable.Verify` | backend/app/core/auth_adapter.py:343-375 | the decision and the enrolment it may make |
| `Membership.ActiveAsLastSettled` | backend/app/core/auth_adapter.py:343-482 | after every history a row is active exactly as the last assignment, revocation or written enrolment left it |
| `Membership.DecisionByHistory` | backend/app/core/auth_adapter.py:343-375 | after every history: an active row admits with its clearance, else an admin or auditor is admitted for everything, else an open domain admits as internal, else nobody is admitted |
| `Membership.ClearanceByHistory` | backend/app/services/membership_service.py:110-149 | the clearance of a row is that of the last assignment, or internal if it came from an enrolment |
| `Membership.AdmittedByHistory` | backend/app/core/auth_adapter.py:343-375 | after every history a plain user is admitted if and only if the domain is open or the row was last settled as active |
| `Membership.EnrolmentOutlivesOpenPolicy` | backend/app/core/auth_adapter.py:446-482 | whoever asked while the domain was open is admitted after it is closed, until revoked |
| `Membership.AdmittedIffAssigned` | backend/app/core/auth_adapter.py:343-375 | on a domain that is never open a plain user is admitted exactly when the last decision was an assignment |
| `Membership.RequestsDoNotEnrol` | backend/app/core/auth_adapter.py:355-375 | there requests write nothing |
| `Membership.OpenDomainUndoesRevoke` | backend/app/core/auth_adapter.py:446-476 | on an open domain the next request undoes a revocation |

## Left out

- BoxClustering.Merge: coordinates are exact reals, so floating-point rounding is not modelled; strict overlap of non-empty boxes and the bounding box stand for the PDF library's `intersects` and `|=`, and infinite rectangles are left out.
- BoxClustering.ClusteringIsUnique: asks for a gap of at least zero, as a distance is; for a negative one nearness is not symmetric and only the one-way separation that `Merge` states holds.
- SchemaVersions.NoLostUpdate: transactions are steps over a value state, since their interleaving is the point; one domain at a time, since row locks and the unique index never cross domains; row contents are represented by the transaction that wrote them.
- ServerSentEvents.ReadStream: chunks are decoded text; UTF-8 decoding, JSON parsing and the choice of handler by event name belong to libraries and callers.
- InputSchema.ValidateField: regular expressions and date formats are parameters, an invalid pattern does not raise, and a field definition is a record of well-typed keywords; `max_items` appears in a docstring but is never checked, so the model has none.
- SchemaComposition.Compose: the list form of `input_types` is not modelled.
- SchemaLoader.InEffectIff: loads are steps over a value state, since their interleaving is the point; a schema is represented by the version of the runtime layer it was read from, and files on disk do not change.
- MetadataPatch.ConformityKeptIff: asks that no list or object that is validated differ from the one read back only in the spelling of a number inside it; whether a schema can tell those apart depends on the other items of the list.
- MetadataPatch.Update: a patched `tags` or `metadata` value that is neither a list or object nor falsy is taken as it is, although the database driver may refuse it; dates are ISO strings throughout.
- JwksCache.OneFetchForAll: callers are steps over a value state, since their interleaving is the point; cancellation of a waiting coroutine is not a step, and time does not advance within a step.
- ConfigInterleaving.ServedIsRecentAndTraceable: storing one override is one step; the two operations it consists of could only be separated by a concurrent clear, which the service reserves for its own test setup.
- TenantConfig.TenantConfigService.Load: the default of `compliance_mode` is a platform leaf, and the returned configuration is a value, so callers that mutate the shared cached object are not captured.
- ExamImport.AssessmentImportService.ImportPdf: the PDF extractor, parser, hashing, storage writes and the normalisation behind the de-duplication key are inputs; items keep only what the import decides on.
- CitationReverify.Reverify: what happens to each record is given per visit; the similarity averages and the audit row are left out.
- HardDelete.HardDeleteService.Execute: chat-log handling, audit and ledger publication are left out.
- PayloadSync.DocumentSync.Update: whether a patch was accepted is an input here; `MetadataPatch.Update` decides it.
- Membership.MembershipTable.Verify: token signature, role mapping, service accounts, tenant mismatch and e-mail checks come before it and are inputs.
- Header, size and area filters of figures, rendering, and the assignment of a figure to its nearest question: short pure expressions over foreign page data.
- Listing and history queries, dashboards, routers, wiring, cron jobs, LISTEN/NOTIFY, ledger retries and the user interface: plumbing, or dependent on code outside these files.
