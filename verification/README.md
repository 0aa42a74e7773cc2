# Verified models of the backend's stateful core

These files model, in Dafny, the parts of the backend where one function's correctness rests on several others,
and prove what those parts are for. Four groups:

1. **Audit log.** `stableStringify` and `computeAuditLogHash`, the `write` transaction and the `verifyChain` loop
   (`CanonicalJson`, `AuditHash`, `AuditChain`, `AuditRepository`, `AuditProtocol`, `AuditTampering`, over the values in
   `JsonValues`). The serializer is decodable and canonical; the digest input splits in one way; the verifier accepts
   exactly the linked chains; concurrent writers keep every organization's chain whole; every row changed,
   removed, moved or added in the table has the report it leads to.
2. **OpenAPI 3.0 to 3.1.** `rewriteNullableNode` and `walk` (`OpenApi31`), a reading of schemas in both dialects
   (`OpenApiMeaning`), and the proof that the rewriter keeps it (`OpenApiPreservation`).
3. **Caches.** The in-memory cache over whole histories (`MemoryCache`, `CacheHistory`), the Redis cache as a
   refinement of it (`RedisCache`), brand themes as a client (`BrandTheme`, `BrandCoherence`, `BrandAssets`,
   `BrandOrphans`, `BrandServing`), and the single-flight tool cache (`ToolSource`, `ToolRefresh`).
4. **Lifecycles.** One-time tokens (`VerificationTokens`), sessions and refresh tokens (`AuthTokens`, `AuthRuns`),
   usage snapshots (`UsageRollup`, `UsageRuns`) and trial expiry (`TrialSweep`, `TrialRuns`).

Code that changes fields is a class whose methods are proved against functions on values; what the code promises is
then proved about those functions, over every input, every history or every interleaving.

## How things are modelled

- A digest is any function from text to non-empty lower-case hex. Nothing assumes it injective: a result that could
  fail only through SHA-256 (FIPS 180-4, section 6.2) names two rows at hand with different digest inputs and one digest.
- Strings are sequences of Unicode scalar values; object keys are sorted by UTF-16 code units, as
  `Array.prototype.sort` does. Lone surrogates are outside the model (PostgreSQL's jsonb refuses them). A number is its
  canonical text. Metadata is a JSON value: `undefined`, `Date` and `NaN` are outside it.
- Audit rows of one organization are inserted in the order of (createdAt, id), and rows without a hash are older than
  rows with one. `AuditRepository.WriteExact` proves the first is exactly what is needed.
- OpenAPI meaning is indexed by how many references are followed, so cyclic schemas are covered. References go to
  `#/components/schemas/NAME`. Length, range, pattern and format keywords are an arbitrary vocabulary that accepts null
  and reads the same in both dialects (so `exclusiveMinimum` and `exclusiveMaximum`, whose form differs between them,
  are only covered in a form both read alike).
- An object is an ordered list of members whatever their names. In the source `walk` assigns `result[key]`, which for an
  own key `__proto__` sets the prototype and loses the member; `OpenApi31.Walk` and `WalkLoop` keep it.
- Time is an explicit argument in milliseconds. A Redis key set with `PX p` at time `t` is readable while `now < t + p`.
- Storage keys, row ids and token hashes are fresh identifiers; a token is known by its hash.
- Reads, writes and each repository call are atomic statements; the interleavings considered are between them. Token
  operations (login, refresh, logout, revocation, reset) are one step each.

## Where the code and its documentation differ

- `backend/test/openapi-3.1.util.spec.ts:7` says no `nullable` key survives; `nullable: false` does (`OpenApi31.NullableKeySurvives`).
- The comment at `openapi-3.1.util.ts:42-43` says nullable is implied where there is no type. An untyped nullable `enum`
  keeps null only when null is one of its values (`OpenApiPreservation.EnumExact`); of two compositions only the first
  is kept (`SecondCompositionLost`). `UntypedExact` says exactly when such a node keeps its meaning.
- The comment at `openapi-3.1.util.ts:2-10` names `nullable` as what 3.1 reads differently. It also reads the keywords
  beside a `$ref`, which 3.0 ignores; where nothing is nullable the rewriter leaves them, and they come into force
  (`OpenApiPreservation.RefSiblingComesIntoForce`). `RefExact` says exactly when a node with a `$ref` keeps its meaning.
- Two writes in one millisecond may be given ids in either order; one order makes `verifyChain` reject the
  chain (`AuditRepository.SameMillisecondBreaks`).
- `audit-hash.util.ts:42-46` says altering or deleting any historical row is detectable. The newest row of an organization can
  be deleted, or lose its hash, unseen (`AuditTampering.RemovalReported`, `EditReported`).
- `RedisCacheService` puts tags under `voltx:cache:tag:` and keys under `voltx:cache:`, so a key named `tag:...` overwrites a tag
  (`RedisCache.SafeKeyExact`); a ttl below one millisecond lasts one (`TtlExact`).
- `extension-ai-tool-source.service.ts:48-51` bounds the age of a tool list by the ttl. The first call after any delay is
  still answered from the expired entry (`ToolRefresh.FirstAnswerMayBeArbitrarilyOld`); `ChangeShowsExactly` says when a
  change shows.
- `usage-record.repository.ts:90-94` says a closed period was snapshotted on a prior night. Usage recorded
  between the last rollup and the end of the period is in no snapshot (`UsageRuns.SnapshotExact`, `LateUsageIsInNoSnapshot`).
- An update that overlaps a theme read can leave the old theme cached after it has invalidated
  (`BrandCoherence.StaleAfterCompletedUpdate`), until that entry expires; `InvalidationSettlesExactly` says
  exactly when.
- `uploadAsset` deletes the object it replaced before it invalidates the cached theme, which names that object until
  then (`BrandServing.UploadMakesAnswerDangle`); `DanglingAnswerExactly` says exactly when an answer names a missing object.
- A sweep of expired trials writes what its list found, whatever the row has become since: a subscription cancelled in
  between is made active again (`TrialRuns.CancelledComesBack`). `OverwritesExactly` says when.
- Two uploads of one asset that overlap leave an object no theme names, though both succeed (`BrandOrphans.StorageExactly`).

## Model

| member | source | states |
|---|---|---|
| CanonicalJson.SortMembersSorts | backend/src/modules/audit/audit-hash.util.ts:33 | sorting the keys loses, repeats and invents no member, and leaves them in UTF-16 order |
| CanonicalJson.KeyOrder | backend/src/modules/audit/audit-hash.util.ts:33 | the UTF-16 order of keys is total, transitive, and antisymmetric on distinct strings |
| CanonicalJson.KeyOrderExactly | backend/src/modules/audit/audit-hash.util.ts:33 | which of two keys comes first: one that begins the other, otherwise the one with the smaller character at the first difference, U+E000 to U+FFFF counting as greater than the characters of two code units |
| CanonicalJson.SmallerKeyFirst | backend/src/modules/audit/audit-hash.util.ts:32-35 | of two members the one with the smaller key is printed first, whichever way round the object holds them |
| CanonicalJson.QuoteSpells | backend/src/modules/audit/audit-hash.util.ts:25-34 | how a string literal spells each character: quote, backslash and five controls by a letter, other controls by four lower-case hex digits, anything else as itself |
| CanonicalJson.PlainTexts | backend/src/modules/audit/audit-hash.util.ts:24-34 | the texts of null, the booleans, a number, an empty array and an empty object |
| CanonicalJson.StringifyExample | backend/src/modules/audit/audit-hash.util.ts:23-36 | one object with an array and two keys, and its text in full |
| CanonicalJson.ReadInvertsPrint | backend/src/modules/audit/audit-hash.util.ts:23-36 | a JSON reader recovers any value from its unsorted text followed by any delimiter, and the text that followed |
| CanonicalJson.StringifyDecodes | backend/src/modules/audit/audit-hash.util.ts:23-36 | the same for the canonical text: it reads back as the value with members sorted at every depth, which is the value up to member order |
| CanonicalJson.StringifyCanonical | backend/src/modules/audit/audit-hash.util.ts:17-36 | two values have one text if and only if they are equal up to member order at every depth |
| CanonicalJson.StringifyUnambiguous | backend/src/modules/audit/audit-hash.util.ts:23-36 | equal texts followed by delimiters come from the same value and the same remainder |
| CanonicalJson.CanonIdempotent | backend/src/modules/audit/audit-hash.util.ts:32-35 | sorting members at every depth a second time changes nothing |
| AuditHash.IsoStringInjective | backend/src/modules/audit/audit-hash.util.ts:58 | two instants never print to the same ISO string |
| AuditHash.IsoStringLayout | backend/src/modules/audit/audit-hash.util.ts:58 | which characters of the ISO string spell which field of any instant, as decimal digits: the year in four or as a sign and six, the rest at fixed places after it |
| AuditHash.IsoStringSorts | backend/src/modules/audit/audit-hash.util.ts:58 | ISO texts of one year, or of years of four digits, sort as the instants they spell |
| AuditHash.PayloadFields | backend/src/modules/audit/audit-hash.util.ts:49-59 | the payload has nine members: each hashed field under its own name, a missing resource or support session as null |
| AuditHash.PayloadBinds | backend/src/modules/audit/audit-hash.util.ts:49-59 | payloads equal up to member order agree in every hashed field |
| AuditHash.PreimageReads | backend/src/modules/audit/audit-hash.util.ts:61-64 | the digest input is the previous hash, if there is one and otherwise nothing, followed by a text that reads as the payload with its members sorted and leaves nothing over |
| AuditHash.PreimageSplits | backend/src/modules/audit/audit-hash.util.ts:61-64 | two digest inputs are equal if and only if the previous hash and the hashed content are: hex cannot run into the payload's opening brace |
| AuditChain.LastHashBindsHistory | backend/src/modules/audit/audit.repository.ts:128-174 | two accepted chains with the same last hash have one length and agree row by row in every hashed field and hash, or a collision among their rows is named |
| AuditChain.LinkedExactly | backend/src/modules/audit/audit.repository.ts:134-167 | a chain is linked if and only if every row names the hash of the row before it, the first none, and carries the digest of that hash and its payload's text |
| AuditChain.DigestsDistinct | backend/src/modules/audit/audit-hash.util.ts:48-65 | the hashes of an accepted chain are pairwise distinct, or a collision is named |
| AuditChain.ChainDoesNotFork | backend/src/modules/audit/audit.repository.ts:53-59 | so are the previous hashes: no two rows claim one parent |
| AuditChain.RemovalDetected | backend/src/modules/audit/audit.repository.ts:134-146 | leaving a row that is not the last out of the rows verified breaks the chain at its index, or a collision is named |
| AuditChain.RearrangementIsPrefix | backend/src/modules/audit/audit.repository.ts:134-173 | any dropping, repeating or reordering of a valid chain's rows is accepted if and only if it is the chain less a suffix |
| AuditRepository.ChainOfIsTheQuery | backend/src/modules/audit/audit.repository.ts:129-132 | the rows verified are the organization's rows with a hash, each as often as the table holds it, the earlier time first and of one time the smaller id first |
| AuditRepository.RowLeqIsTimeOrder | backend/src/modules/audit/audit.repository.ts:129-132 | rows are ordered by time and then id: with years of four digits, as the ISO texts of their times sort |
| AuditRepository.Repository.VerifyChain | backend/src/modules/audit/audit.repository.ts:128-174 | the loop answers valid if and only if the rows are one chain from null, otherwise the one index at which they first break and the id there |
| AuditRepository.Repository.Write | backend/src/modules/audit/audit.repository.ts:64-112 | appends one row carrying the data and the organization's latest hash, whose own hash is the digest of that hash, or of nothing, followed by the payload's text; the rest of the table stays |
| AuditRepository.LatestIsChainEnd | backend/src/modules/audit/audit.repository.ts:75-80 | the hash a write links to is that of the last row of the organization's chain, or null without one |
| AuditRepository.WriteExact | backend/src/modules/audit/audit.repository.ts:64-112 | a write keeps the chain valid if and only if its row sorts after the rows already chained (or a collision is named), and then extends it by that row |
| AuditRepository.SameMillisecondBreaks | backend/src/modules/audit/audit.repository.ts:75-81 | two writes in one millisecond with ids in the wrong order are reported broken at index 0 |
| AuditTampering.EditReported | backend/src/modules/audit/audit.repository.ts:128-174 | what verification reports after any one row of the chain is replaced in the table by any row: it may drop out of the query, stay, move up or move down, and each case has the index that breaks, or the exact condition under which nothing does, or a collision |
| AuditTampering.ContentEditReported | backend/src/modules/audit/audit.repository.ts:129-167 | rewriting any hashed field of a row, createdAt and organization included, is reported where the row went or where it was, whichever is first; unseen if and only if the last row is given to another organization, or a collision is named |
| AuditTampering.MovedRowReportedThere | backend/src/modules/audit/audit.repository.ts:129-167 | a row rewritten into another organization is reported at its place in that organization's chain |
| AuditTampering.RemovalReported | backend/src/modules/audit/audit.repository.ts:129-146 | deleting a row from the table is reported where it stood; if it was the last, the rest is valid |
| AuditTampering.SwapReported | backend/src/modules/audit/audit.repository.ts:129-146 | two neighbouring rows that change places under each other's id and creation time are reported at the first |
| AuditTampering.ForgeryReported | backend/src/modules/audit/audit.repository.ts:128-174 | any row added to the table is reported where it lands unless it was made to follow what is there; then the row after it is, or a collision is named; only one that follows at the end of the chain is accepted |
| AuditProtocol.LockExcludes | backend/src/modules/audit/audit.repository.ts:72-73 | two transactions of one organization are never both past the advisory lock |
| AuditProtocol.StatementsAreWrite | backend/src/modules/audit/audit.repository.ts:71-111 | with nothing in between, the statements of a transaction append the very row of an undisturbed `write` and give the lock back; a rollback leaves everything as it was |
| AuditProtocol.CommitKeeps | backend/src/modules/audit/audit.repository.ts:72-111 | a commit keeps the protocol invariant and extends its organization's chain by exactly its row |
| AuditProtocol.StepKeeps | backend/src/modules/audit/audit.repository.ts:72-111 | every step of every transaction keeps the invariant and only ever extends chains |
| AuditProtocol.RunKeepsChains | backend/src/modules/audit/audit.repository.ts:50-63 | under any interleaving of lock, read, stamp, insert, commit and rollback every organization's committed rows are one chain the verifier accepts, and earlier chains are prefixes of later ones |
| AuditProtocol.LegacyStart | backend/src/modules/audit/audit.repository.ts:125-126 | a table of rows without hashes is a legal starting point |
| OpenApi31.RewriteShrinks | backend/src/config/openapi-3.1.util.ts:16-45 | rewriting a node leaves no more nullable nodes below it, and a node that is not one as it was: the measure on which the recursion ends |
| OpenApi31.RewrittenNotNullable | backend/src/config/openapi-3.1.util.ts:17-21 | a rewritten node no longer says `nullable: true`, and one that did has no `nullable` key |
| OpenApi31.RewriteExactly | backend/src/config/openapi-3.1.util.ts:16-45 | what a rewritten node holds under each key: `"null"` last among its types, or the first of `$ref`, `allOf`, `oneOf`, `anyOf` and then the null branch under `anyOf` and no other composition, and everything else as it was |
| OpenApi31.WalkClean | backend/src/config/openapi-3.1.util.ts:47-60 | no node of the output says `nullable: true` |
| OpenApi31.WalkIdentity | backend/src/config/openapi-3.1.util.ts:47-60 | an input without such a node is unchanged |
| OpenApi31.WalkIdempotent | backend/src/config/openapi-3.1.util.ts:47-60 | a second pass changes nothing |
| OpenApi31.NullableKeySurvives | backend/src/config/openapi-3.1.util.ts:17-21 | a `nullable` key is left at a node if and only if it was there with a value other than true |
| OpenApi31.RewriteWf | backend/src/config/openapi-3.1.util.ts:16-45 | rewriting keeps keys unique at every depth |
| OpenApi31.WalkLoop | backend/src/config/openapi-3.1.util.ts:47-60 | the loop that fills `result` entry by entry computes the recursive walk |
| OpenApiMeaning.ResolveWalk | backend/src/config/openapi-3.1.util.ts:62-65 | a reference resolves in the rewritten document to the rewritten component, and to nothing if it did before |
| OpenApiPreservation.Meaning | backend/src/config/openapi-3.1.util.ts:16-65 | for every schema of the domain given below, an instance is valid under the 3.0 reading of the schema if and only if it is under the 3.1 reading of the rewritten schema in the rewritten document, at every depth and through references |
| OpenApiPreservation.RefExact | backend/src/config/openapi-3.1.util.ts:16-45 | exactly when a node with a `$ref` and any keywords beside it keeps its meaning at an instance, whether it is nullable or not and has a type or not |
| OpenApiPreservation.RefSiblingComesIntoForce | backend/src/config/openapi-3.1.util.ts:16-17 | a reference with an `enum` beside it, nothing in it nullable, that accepts `true` in 3.0 and refuses it in 3.1 |
| OpenApiPreservation.UntypedExact | backend/src/config/openapi-3.1.util.ts:33-44 | exactly when a nullable node without a type or `$ref` keeps its meaning at an instance |
| OpenApiPreservation.EnumExact | backend/src/config/openapi-3.1.util.ts:42-44 | an untyped nullable enum keeps its meaning for all instances if and only if null is one of its values |
| OpenApiPreservation.SecondCompositionLost | backend/src/config/openapi-3.1.util.ts:36-39 | with two compositions at such a node the meaning changes |
| MemoryCache.InMemoryCacheService.Get | backend/src/modules/cache/cache.service.ts:43-49 | the value under the key while its expiry lies ahead, else nothing |
| MemoryCache.InMemoryCacheService.Set | backend/src/modules/cache/cache.service.ts:51-59 | replaces the entry and registers the key under each tag, keeping what was registered |
| MemoryCache.InMemoryCacheService.InvalidateKey | backend/src/modules/cache/cache.service.ts:61-64 | removes the entry and leaves the tags |
| MemoryCache.InMemoryCacheService.InvalidateTag | backend/src/modules/cache/cache.service.ts:66-75 | the loop removes exactly the entries registered under the tag, and the tag |
| CacheHistory.TagIndexExact | backend/src/modules/cache/cache.service.ts:53-57 | after any history a key is registered under a tag if and only if it was set with it since the tag was last invalidated |
| CacheHistory.EntriesExact | backend/src/modules/cache/cache.service.ts:39-76 | after any history the store holds exactly the sets nothing has dropped since, with their expiry |
| CacheHistory.GetExact | backend/src/modules/cache/cache.service.ts:39-76 | `get` answers v if and only if the last set of the key stored v, has not expired, and neither the key nor a tag it was still registered under was invalidated since |
| CacheHistory.StandsOnce | backend/src/modules/cache/cache.service.ts:39-76 | at most one set of a key stands at a time |
| RedisCache.RedisCacheService.Get | backend/src/modules/cache/cache.service.ts:103-112 | a live, non-empty, parsable string is the answer; a set under that name or anything else is a miss |
| RedisCache.RedisCacheService.Set | backend/src/modules/cache/cache.service.ts:114-129 | the pipeline: overwrite the name with the text for at least one millisecond, then add the key to each tag's set where that is not a string |
| RedisCache.RedisSetExactly | backend/src/modules/cache/cache.service.ts:114-129 | what a `set` leaves under every name of the keyspace: the text for its lifetime, the key in the set of each tag whose name holds no live string, everything else as it was |
| RedisCache.RedisCacheService.InvalidateKey | backend/src/modules/cache/cache.service.ts:131-138 | deletes the name |
| RedisCache.RedisCacheService.InvalidateTag | backend/src/modules/cache/cache.service.ts:140-151 | deletes the tag's keys and the tag; does nothing when the tag's name holds a string |
| RedisCache.RedisRefinesMemory | backend/src/modules/cache/cache.service.ts:89-151 | after any history with ttl at least 1, no key named `tag:...` and values that survive JSON, every read of every key at every time agrees with the in-memory cache |
| RedisCache.TagNamedKeyIsUnsafe | backend/src/modules/cache/cache.service.ts:92-93 | for each key named `tag:...` a history of three calls after which the two caches disagree |
| RedisCache.SafeKeyExact | backend/src/modules/cache/cache.service.ts:92-93 | a key can be used in every history without the caches disagreeing if and only if it does not start with `tag:` |
| RedisCache.TtlExact | backend/src/modules/cache/cache.service.ts:118 | the two caches agree on how long an entry lasts if and only if its ttl is at least one millisecond |
| BrandTheme.UpsertMerges | backend/src/modules/branding/brand-theme.repository.ts:32-62 | a given field takes its value and one left out keeps its own, or is null in a new row; identity and creation time stay; repeating an update changes only the update time |
| BrandTheme.BrandThemeService.GetOrDefault | backend/src/modules/branding/brand-theme.service.ts:60-73 | answers the organization's current row, or an empty theme with its id and no field set, whether cached or not; a hit leaves the cache alone and a miss fills it for five minutes under the organization's tag |
| BrandTheme.BrandThemeService.Update | backend/src/modules/branding/brand-theme.service.ts:75-86 | merges the given fields into the row, keeps the cache coherent and every storage key as it was |
| BrandTheme.BrandThemeService.UploadAsset | backend/src/modules/branding/brand-theme.service.ts:88-132 | rejects a wrong type, then a file over 5 MiB, changing nothing; otherwise moves one slot to the new key and changes no other slot or field, deletes the old object unless that fails, dangles nothing, stays coherent, and leaves only referenced objects if there were only such |
| BrandTheme.UploadKeepsRefs | backend/src/modules/branding/brand-theme.service.ts:112-121 | moving one slot to an unused key changes no other slot, keeps slots unshared and undangling, and keeps storage tidy when the old key goes |
| BrandTheme.InvalidationKeepsCoherent | backend/src/modules/branding/brand-theme.service.ts:77-78 | a row change followed by invalidating its tag keeps every cached theme current |
| BrandCoherence.StepsAreGetOrDefault | backend/src/modules/branding/brand-theme.service.ts:60-73 | with nothing in between, the steps of a read do to the cache what an undisturbed `getOrDefault` does |
| BrandCoherence.StepsAreUpdate | backend/src/modules/branding/brand-theme.service.ts:75-78 | and those of a write followed by its invalidation what an update does to row and cache |
| BrandCoherence.CachedAnswerWasCurrent | backend/src/modules/branding/brand-theme.service.ts:63-71 | under any interleaving a cached answer was the row's value at a moment inside a `getOrDefault` call whose cache write is less than 300000 ms old and not invalidated since |
| BrandCoherence.FreshAnswerWasCurrent | backend/src/modules/branding/brand-theme.service.ts:69-72 | an answer from the database was current between the call's lookup and its cache write |
| BrandCoherence.StaleOnlyBetweenWriteAndInvalidation | backend/src/modules/branding/brand-theme.service.ts:60-86 | a cached answer is out of date only when the row was written after it was fetched and not invalidated since it was cached |
| BrandCoherence.StaysCurrentExactly | backend/src/modules/branding/brand-theme.service.ts:60-86 | from any state, every answer until the next update is current if and only if the live cache entry is and no open read holds another theme |
| BrandCoherence.InvalidationSettlesExactly | backend/src/modules/branding/brand-theme.service.ts:77-78 | just after an invalidation, every answer until the next update is current if and only if no open read holds another theme |
| BrandCoherence.SequentialAnswersAreCurrent | backend/src/modules/branding/brand-theme.service.ts:60-86 | when an organization's own calls do not overlap, whatever time passes and whatever else the cache is used for, every cached answer is its current row |
| BrandCoherence.StaleAfterCompletedUpdate | backend/src/modules/branding/brand-theme.service.ts:69-78 | a run in which a read straddling an update caches the old theme after the invalidation |
| BrandCoherence.ThemeKeyIsSafe | backend/src/modules/branding/brand-theme.service.ts:17-23 | theme keys never fall under the Redis tag prefix |
| BrandAssets.StepKeeps | backend/src/modules/branding/brand-theme.service.ts:108-121 | every step of any upload or update, and stopping anywhere, keeps the asset invariant |
| BrandAssets.StepsAreUpload | backend/src/modules/branding/brand-theme.service.ts:108-119 | with nothing in between, the steps of an upload leave the rows and objects that an undisturbed `uploadAsset` leaves; one that stops before it writes leaves the rows alone |
| BrandAssets.StepIsUpdate | backend/src/modules/branding/brand-theme.service.ts:75-77 | the step of an update writes the organization's row and touches no object and no upload |
| BrandAssets.NeverDangles | backend/src/modules/branding/brand-theme.service.ts:108-121 | in every reachable state every storage key a theme names is in storage |
| BrandOrphans.StorageExactly | backend/src/modules/branding/brand-theme.service.ts:108-121 | uploads that all run to their end, however they interleave, leave in storage exactly the keys the themes name if and only if no two uploads of one asset found the same key in the row |
| BrandOrphans.CalmRunsLeaveReferencedKeys | backend/src/modules/branding/brand-theme.service.ts:108-121 | in particular when no upload of an asset begins while another has yet to write it |
| BrandOrphans.OverlapLeavesOrphan | backend/src/modules/branding/brand-theme.service.ts:108-121 | a run of two overlapping first uploads of a logo that both succeed and leave an object no theme names |
| BrandServing.DanglingAnswerExactly | backend/src/modules/branding/brand-theme.service.ts:60-132 | in any interleaving of reads, updates and uploads a cached answer names an object not in storage if and only if an upload that had found that object deleted it since the read the answer comes from, whose cache write is less than 300000 ms old and not invalidated since |
| BrandServing.SequentialAnswersNeverDangle | backend/src/modules/branding/brand-theme.service.ts:60-132 | when an organization's calls do not overlap, every object a cached answer names is in storage |
| BrandServing.UploadMakesAnswerDangle | backend/src/modules/branding/brand-theme.service.ts:117-121 | any run whose cached theme names its current logo goes on, by one upload short of its invalidation, so that the next answer names a deleted object |
| ToolSource.ExtensionAiToolSourceService.ListTools | backend/src/modules/extensions/extension-ai-tool-source.service.ts:82-94 | answers at once what was cached, nothing without an organization; starts a refresh when the entry is missing or expired and none is outstanding, and never otherwise; the cache stays as it was |
| ToolSource.ExtensionAiToolSourceService.TriggerBackgroundRefresh | backend/src/modules/extensions/extension-ai-tool-source.service.ts:96-112 | starts a refresh only when the organization has none, keeping at most one |
| ToolSource.ExtensionAiToolSourceService.Complete | backend/src/modules/extensions/extension-ai-tool-source.service.ts:114-119 | replaces the entry by what was read, for thirty seconds |
| ToolSource.ExtensionAiToolSourceService.Fail | backend/src/modules/extensions/extension-ai-tool-source.service.ts:103-108 | a failed refresh leaves the entry and the in-flight set as they were |
| ToolSource.ExtensionAiToolSourceService.Finally | backend/src/modules/extensions/extension-ai-tool-source.service.ts:109-111 | a settled refresh leaves the in-flight set, which stays exact |
| ToolRefresh.AlwaysSingleFlight | backend/src/modules/extensions/extension-ai-tool-source.service.ts:96-112 | in every reachable state an organization has at most one outstanding refresh and the in-flight set is exactly those |
| ToolRefresh.CacheNeverGoesBack | backend/src/modules/extensions/extension-ai-tool-source.service.ts:114-119 | an entry is only ever replaced by one read from the database no earlier |
| ToolRefresh.AnswersAreReadsInOrder | backend/src/modules/extensions/extension-ai-tool-source.service.ts:82-119 | each list handed out is what the database held at one read, and a later call never gets an earlier read |
| ToolRefresh.CompletedRefreshShows | backend/src/modules/extensions/extension-ai-tool-source.service.ts:114-119 | after a refresh completes, every answer comes from its read or a later one |
| ToolRefresh.FreshAnswerIsRecent | backend/src/modules/extensions/extension-ai-tool-source.service.ts:88-93 | the entry of an unexpired answer was put into the cache, by the completion of the very refresh that read it, less than 30000 ms ago |
| ToolRefresh.ChangeShowsExactly | backend/src/modules/extensions/extension-ai-tool-source.service.ts:48-51 | a change shows in an answer if and only if a refresh of the organization that read the database after the change has completed; from then on the answer is the changed list, before it is one from before the change or none |
| ToolRefresh.FirstAnswerMayBeArbitrarilyOld | backend/src/modules/extensions/extension-ai-tool-source.service.ts:48-51 | any run with an entry can go on so that the next answer predates a change older than any given delay |
| VerificationTokens.VerificationTokenService.IssueToken | backend/src/modules/auth/verification-token.service.ts:51-67 | retires the user's usable tokens of the kind and leaves the new one as the only usable one |
| VerificationTokens.VerificationTokenService.ConsumeToken | backend/src/modules/auth/verification-token.service.ts:35-49 | succeeds if and only if the token is unused, unexpired and of that kind, names its owner, and is then not accepted again |
| VerificationTokens.AcceptedExactly | backend/src/modules/auth/verification-token.service.ts:35-67 | after any history a token is accepted if and only if it was issued for that kind, has not expired, and neither a newer token of the user and kind nor an attempt to use it has come since |
| VerificationTokens.AtMostOneUsable | backend/src/modules/auth/verification-token.repository.ts:56-66 | after any history a user has at most one usable token of a kind |
| VerificationTokens.AcceptedOnce | backend/src/modules/auth/verification-token.service.ts:35-49 | a token accepted once is refused ever after |
| AuthTokens.AuthService.Login | backend/src/modules/auth/auth.service.ts:122-162 | opens a session with one token; both exist even when the profile is then missing |
| AuthTokens.AuthService.Refresh | backend/src/modules/auth/auth.service.ts:318-351 | spends the presented token whether the refresh succeeds or fails for want of a membership; a success issues one successor for thirty days from now under the same user and session and touches that session, and no other row changes |
| AuthTokens.AuthService.Logout | backend/src/modules/auth/auth.service.ts:353-362 | revokes the presented token if it is the user's own, and otherwise changes nothing |
| AuthTokens.AuthService.SwitchOrganization | backend/src/modules/auth/auth.service.ts:387-410 | issues a token for thirty days without a session to a member, and nothing to others |
| AuthTokens.AuthService.RevokeSession | backend/src/modules/security/sessions.service.ts:57-77 | not found, already revoked, or the session marked revoked together with exactly its usable tokens, no other row changing |
| AuthTokens.AuthService.RevokeAllForUserInOrganization | backend/src/modules/auth/session.repository.ts:118-135 | revokes the user's active sessions in the organization and the tokens under them, and no other row |
| AuthTokens.AllRevokedRows | backend/src/modules/auth/session.repository.ts:118-135 | row by row: the user's active sessions in the organization are marked, every token under one of them is marked even if it was already, and nothing else changes |
| AuthTokens.AuthService.ResetPassword | backend/src/modules/auth/auth.service.ts:434-445 | an accepted one-time token changes the password of its owner and revokes all the owner's usable tokens; otherwise nothing changes; the token is spent |
| AuthTokens.RotateKeeps | backend/src/modules/auth/auth.service.ts:326-350 | rotation keeps every unrevoked token under an unrevoked session of its user, and one unrevoked token per session |
| AuthRuns.RunKeeps | backend/src/modules/auth/auth.service.ts:318-362 | over any run of logins, refreshes, logouts, revocations, switches and resets an unrevoked token's session is unrevoked and no session has two unrevoked tokens |
| AuthRuns.DeadSessionStaysDead | backend/src/modules/auth/auth.service.ts:336-350 | a session without a usable token never gets one again |
| AuthRuns.SessionRevokedExactly | backend/src/modules/auth/session.repository.ts:102-135 | a session is revoked if and only if it was, or some action of the run revoked it or all its user's sessions in its organization; it then stays so |
| AuthRuns.DescentExact | backend/src/modules/auth/auth.service.ts:336-350 | the tokens recorded under a session are exactly those descended from its login by rotation |
| AuthRuns.SessionRevokeIsFinal | backend/src/modules/auth/session.repository.ts:102-116 | after a session revoke no token ever descended from it is accepted again |
| AuthRuns.RevokeAllIsFinal | backend/src/modules/auth/session.repository.ts:118-135 | the same for every session that revoking all of them closes |
| AuthRuns.PasswordResetIsFinal | backend/src/modules/auth/auth.service.ts:434-445 | after a reset no earlier token of the user, and no token descended from an earlier session of the user, is accepted again |
| AuthRuns.PresentedTokenIsSpent | backend/src/modules/auth/auth.service.ts:318-362 | a token presented once, in a refresh that succeeded or failed or a logout that succeeded, is refused ever after |
| AuthRuns.NewTokenAccepted | backend/src/modules/auth/auth.service.ts:122-162 | in every run a login, a switch and a refresh that succeeds hand out a token that is accepted for exactly thirty days unless something ends it; a refresh that fails issues none |
| AuthRuns.UsableExactly | backend/src/modules/auth/refresh-token.repository.ts:37-66 | a token stays acceptable until expiry if and only if no action of the run presents it, revokes its session or resets its user's password |
| UsageRollup.Counted | backend/src/modules/billing/usage-record.repository.ts:61 | the nearest whole quantity, halves upward, and zero for anything not positive |
| UsageRollup.UsageRecordRepository.Create | backend/src/modules/billing/usage-record.repository.ts:56-68 | adds the rounded, non-negative quantity to its period's sum and to no other |
| UsageRollup.UsageRecordRepository.UpsertSnapshot | backend/src/modules/billing/usage-record.repository.ts:106-128 | writes the total under (organization, feature, start), keeping the end a row already had |
| UsageRollup.UsageRecordRepository.RollupUsageSnapshots | backend/src/modules/billing/billing-cron.service.ts:62-75 | each open period's snapshot becomes its sum, exactly when periods that share one agree (always with one end each); the totals add up to all open usage, and no other snapshot moves |
| UsageRollup.GroupingConserves | backend/src/modules/billing/usage-record.repository.ts:90-103 | the grouped totals account for every open record once |
| UsageRollup.RollupExactly | backend/src/modules/billing/billing-cron.service.ts:62-73 | a rollup leaves the snapshot of every open period equal to its sum if and only if open periods with the same organization, feature and start have the same sum |
| UsageRollup.TwoEndsShareASnapshot | backend/src/modules/billing/usage-record.repository.ts:107-113 | two records with one start and two ends, both orders in which the query may group them, and the snapshot that is wrong for one period in either order |
| UsageRuns.StepsAreRollup | backend/src/modules/billing/billing-cron.service.ts:62-75 | with nothing in between, the steps of a rollup leave the snapshots of an undisturbed one |
| UsageRuns.SnapshotNeverExceeds | backend/src/modules/billing/billing-cron.service.ts:62-75 | however recording and rollups interleave, a snapshot never exceeds the true sum |
| UsageRuns.SnapshotNeverDecreases | backend/src/modules/billing/billing-cron.service.ts:62-75 | and never goes down |
| UsageRuns.SnapshotExact | backend/src/modules/billing/usage-record.repository.ts:83-103 | a settled snapshot is the sum the last rollup to see the period read, and the whole usage if and only if nothing was recorded after that read |
| UsageRuns.LateUsageIsInNoSnapshot | backend/src/modules/billing/usage-record.repository.ts:90-94 | usage recorded for a period when no later rollup begins before the period ends never enters its snapshot, in any run |
| UsageRuns.LateUsageRun | backend/src/modules/billing/usage-record.repository.ts:90-94 | such a run for every period: the last rollup has written its snapshot, which holds one of two uses |
| TrialSweep.BillingCronService.SweepExpiredTrials | backend/src/modules/billing/billing-cron.service.ts:77-122 | when nothing else writes during the sweep: whatever fails, only expired trials change, and a plan moves only to the free plan and only without a payment method; if nothing fails no expired trial is left and each one found got exactly one TRIAL_END |
| TrialSweep.BillingCronService.SweepOne | backend/src/modules/billing/billing-cron.service.ts:80-120 | one item with a failure at any of its calls: nothing, the update alone, or the update and its record |
| TrialSweep.SweptExactly | backend/src/modules/billing/billing-cron.service.ts:80-120 | where an item with a failing call stops, the row it leaves and the change it records, from the plan the list was read with to that plan or the free one |
| TrialSweep.SweepMoves | backend/src/modules/billing/billing-cron.service.ts:81-106 | over a whole sweep during which nothing else writes, a plan changes only to free and only without a payment method |
| TrialSweep.SweepComplete | backend/src/modules/billing/billing-cron.service.ts:77-122 | a sweep without failures leaves no expired trial and one TRIAL_END for each |
| TrialRuns.CallsAreItem | backend/src/modules/billing/billing-cron.service.ts:80-120 | the payment check, the update and the record as separate calls, with nothing in between, do what the one item of an undisturbed sweep does, whole or cut short |
| TrialRuns.NoTrialEndsTwice | backend/src/modules/billing/billing-cron.service.ts:77-122 | whatever fails and whatever else writes subscriptions in between, a subscription has no more TRIAL_END changes than trials it entered and left |
| TrialRuns.OneTrialOneEnd | backend/src/modules/billing/billing-cron.service.ts:77-122 | one that enters a trial once has at most one TRIAL_END |
| TrialRuns.EndsAreConversionsOrDowngrades | backend/src/modules/billing/billing-cron.service.ts:91-114 | every TRIAL_END keeps the plan or goes to the free plan, as its outcome says |
| TrialRuns.EndsNameTheListedPlan | backend/src/modules/billing/billing-cron.service.ts:96-114 | every TRIAL_END names the plan its subscription had when a sweep listed it, and the time that sweep began |
| TrialRuns.PlanMovesOnlyWhenUnpaid | backend/src/modules/billing/billing-cron.service.ts:81-106 | whatever is written in between, a sweep moves a plan only to the free plan and only after its check of that subscription found no payment method |
| TrialRuns.OverwritesExactly | backend/src/modules/billing/billing-cron.service.ts:78-105 | an update overwrites a row that is no longer an expired trial if and only if something else has written the row since the list was read and made it so |
| TrialRuns.CancelledComesBack | backend/src/modules/billing/billing-cron.service.ts:78-105 | for each expired trial without a payment method, a run in which it is cancelled after the list was read and the sweep makes it active again on the free plan |

## Left out

- JWT signing, password hashing, SHA-256 itself, and the UTF-8 bytes the digest is fed: foreign code. Texts are compared, not bytes.
- Two calls of `refresh` at once on one token: the code does not make finding and revoking atomic, so the token results are per whole operation.
- Tenant checks, audit records of branding, billing and session calls, logging and metrics: no part in the state proved about.
- Password, membership, second-factor and account-status checks before a login opens a session: branches over services outside the model, with no effect on token rows.
- Single sign-on, SCIM, invitations and registration: they issue tokens without a session, which the run model's `Switch` covers, or call operations already modelled.
- Deleting users, sessions or tokens (data-protection erasure, cascades): rows only ever disappear, and then accept nothing.
- Redis connection faults and reviving dates from cached JSON: a fault is a miss or a no-op; values are taken to survive their own text.
- Redis memory eviction: an evicted entry is a miss.
- Signed asset URLs, the file extension in a storage key, and theme rows deleted with their organization.
- Building and executing an extension tool, its name and schema mapping: per-call work with no state of its own.
- The metadata of usage records, record ids and the snapshot listing query: carried along, never computed with.
- Quantities beyond 2^53, where converting a database integer to a number rounds: quantities are unbounded here.
- The thirty days of a refresh token as calendar days across a daylight-saving change: thirty times 24 hours here.
- AuditProtocol.RunKeepsChains: rests on each organization's rows being inserted in order of (createdAt, id); `AuditRepository.WriteExact` shows this is exactly what is needed and `SameMillisecondBreaks` that the code alone does not ensure it.
- OpenApiPreservation.Meaning: is about schemas whose `$ref`s, nullable or not, have only annotations beside them (and compositions if nullable), whose nullable nodes without a type or `$ref` have at most one composition beside keywords that accept null, and whose data positions and property maps hold no `nullable: true`; `RefExact`, `UntypedExact`, `EnumExact`, `SecondCompositionLost` and `RefSiblingComesIntoForce` say what happens outside that.
- UsageRuns.SnapshotNeverExceeds: takes rollups one at a time and one end per organization, feature and start; `RollupExactly` and `TwoEndsShareASnapshot` say what two ends do.
- OpenApi31.WalkLoop: keeps a member named `__proto__`, which the source loses.
- TrialSweep.SweepMoves: rows and payment methods stand still during the sweep; `TrialRuns.PlanMovesOnlyWhenUnpaid` and `OverwritesExactly` are about sweeps in which anything may be written between the calls.
- TrialRuns.NoTrialEndsTwice: takes sweeps one at a time, as the hourly schedule does when a sweep ends within the hour.
- Quota checks, seats, Stripe webhooks, custom domains, attachments, role seeding, controllers, guards, user interfaces and clients: outside these components.
