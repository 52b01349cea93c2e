# Verification of the rclone cloud configuration store, API and UI state machines

This project models, in Dafny, the parts of the repository that keep state, run concurrently, or print what another part
parses, and proves what they promise for every input, run and interleaving. `dafny verify dfyconfig.toml` checks it.

- **Configuration store** (`ConfigStore.dfy`, `ConfigReplication.dfy`, `ConfigText.dfy`, `CliCommands.dfy`). The MongoDB
  storage is the class `MongoStorage`: a map of sections updated in place, saved by upserts and deletes of single
  documents, loaded back, and kept current by a change stream. Each method is proved against a function of the old state.
  `ConfigReplication` then runs any number of such processes against one collection and one event log, a database step at
  a time, with foreign writes, local edits, and `update` events that carry a later document or none. The text dump and
  the migration command are proved about the same store.
- **Rate limiter** (`RateLimiter.dfy`). Token buckets with exact integer arithmetic (nanoseconds; a token takes 200 ms to
  earn), the table swept of entries idle for three minutes, and a limiter that never forgets as its specification. A
  request's lookup and its decision are separate steps, because the code releases the lock between them.
- **Jobs** (`Jobs.dfy`). The reducer, the effects as steps of concurrent flows (a reply may be a success, a failure, or
  nothing at all after a 401), and the reload detector as a fold over the stores a visit sees.
- **Printers and parsers** (`RouteTokens.dfy`, `RemotePaths.dfy`, `Pem.dfy`, over `Splitting.dfy`). Base64 route tokens and
  breadcrumbs, the `[remote:]path` URL between UI and handler, the PEM repair, and the PKCE strings.
- **Folder table** (`TableSort.dfy`). The comparators and the stable sort, with a proof that a stable sort has only one
  possible result.
- **Refresh tokens** (`TokenRotation.dfy`) and **latest-request stores with the file viewer** (`FileViewer.dfy`). Classes
  for the store, the handlers and the component, and whole-run theorems over their interleavings.

Go strings are byte sequences and JavaScript strings are sequences of UTF-16 units; both are `string` here, except where
Base64 needs bytes as numbers. In `Pem` the characters are decoded code points, because `strings.TrimSpace` trims those. AES-GCM is a value of type `Aead`, a pair of functions with the one law that opening undoes
sealing; random nonces, generated tokens, clock readings and the outcomes of external calls are parameters.

## Where the code does less than one would expect

Each of these is a lemma, an exact condition or a counterexample, not a repair.

- A document with the empty `_id` is loaded but never applied by the watcher (`LoadAgreesWithReplay`,
  `EmptyIdIsNotReplicated`).
- A write between `Load` and `StartWatching` is missed until the section is written again (`MissedWriteStaysMissed`).
- A save ignores a delete that fails and an id listing that ends early, so removed sections can survive in the database
  (`SaveThenLoad`: the view equals the cache exactly when the listing was complete and every delete worked).
- An echo replaces a whole section and with it any newer edit (`EditLostToEcho`; `SectionStandsExactly` says when an edit
  stands, and `CacheStandsExactly` when a save can be rerun on the same cache).
- `DeleteKey` after `SetValue` does not restore a section that was there and empty (`DeleteUndoesSet`).
- The dump can be ambiguous when a value contains a newline (`NewlineIsAmbiguous`) or a key contains the separator
  (`SeparatorIsAmbiguous`). It reads back exactly when no name, key or value contains a newline, no key contains `=`, and
  no key begins with `[` (`DumpReadsBack`).
- A save deletes the documents of sections that another process has added and whose events have not arrived
  (`SaveRemovesUnseen`, and `UnseenSurvives` for the exact condition); the API saves so at every shutdown.
- A request that stalls between its lookup and its decision can hold a bucket that has left the table. Eviction is
  unobservable exactly while no request stalls for more than 176 s and 1 ns (`PatienceIsExact`), and the rate bound holds
  exactly as long (`RateBoundIsExact`): after that, 40 requests can be admitted within four seconds less 1 ns.
- Two failed submissions in one millisecond share an entry (`OneEntryEach`), and the second overwrites the first's error
  and request (`TerminalIsFinal`, `SharedMillisecond`).
- The path inside a file-system parameter is not checked for `..`, so an accepted request can lead above its remote
  (`BeneathRemoteExactly`, `SubPathClimbs`).
- A route token cuts the path at its first colon (`TokenRoundTrip`). A breadcrumb link after a leading slash loses that
  slash (`LinksArePrefixes`), and the id of the last crumb reads `null` when only one folder is open (`LastCrumb`).
- The date comparator is not an order when an invalid date stands beside two different valid ones (`ComparatorIsOrder`,
  `InvalidDateBreaksOrder`).
- The PKCE verifier applies `substring(-2)`, which in JavaScript is the whole string and not its last two characters, so
  a verifier can be longer than RFC 7636 allows (`VerifierLength`).
- An exchange whose token generation fails has already revoked the old token, and one whose signing fails keeps a token
  nobody was given (`HandleRefresh`, `LiveTokensCounted`).
- After the viewer's dialog is closed the details still shown carry a revoked URL (`ShownUrlLives`), and a file that
  arrives then is shown as a success without details (`BareExactly`, `ClosedWhileLoading`).

## Model

| member | source | states |
|---|---|---|
| `ConfigCipher.DecryptEncrypt` | apps/web-api/rclone/configs/mongodb/mongoconfig.go:48-79 | the stored bytes are the nonce and then the sealed text, and splitting and opening them gives the plaintext, for every 12-byte nonce |
| `ConfigCache.DeleteThenGet` | apps/web-api/rclone/configs/mongodb/mongoconfig.go:274-288 | a delete hides exactly one entry and leaves no section it emptied |
| `ConfigCache.DeleteUndoesSet` | apps/web-api/rclone/configs/mongodb/mongoconfig.go:265-288 | deleting a freshly set key restores the cache, except that a section which was there and empty disappears |
| `ConfigDocuments.SealedReadsBack` | apps/web-api/rclone/configs/mongodb/mongoconfig.go:163-178 | a section encrypted field by field into a document is loadable and decrypts to itself |
| `ConfigDocuments.StoredFieldReads` | apps/web-api/rclone/configs/mongodb/mongoconfig.go:107-126 | a stored field other than the id, as raw bytes or as a Binary, gives its plaintext to a load and to the watcher |
| `ConfigDocuments.OtherFieldsAreSkipped` | apps/web-api/rclone/configs/mongodb/mongoconfig.go:107-126 | the id, fields that are not bytes, and keys the document has not, are read by neither |
| `ConfigDocuments.UnreadableStopsLoad` | apps/web-api/rclone/configs/mongodb/mongoconfig.go:105-126 | a load is possible exactly when no document has bytes too short or not opened by the cipher, which the watcher skips |
| `ConfigDocuments.SaveThenLoad` | apps/web-api/rclone/configs/mongodb/mongoconfig.go:83-188 | after a completed save the decrypted database equals the cache exactly when the id listing reached every document of a removed section and all their deletes worked, and then it loads |
| `ConfigDocuments.InSyncSaveChangesNothing` | apps/web-api/rclone/configs/mongodb/mongoconfig.go:138-188 | a save by a process whose cache is the decrypted database leaves the decrypted database unchanged, wherever it stops and whatever fails |
| `ConfigDocuments.RerunEqualsUninterrupted` | apps/web-api/rclone/configs/mongodb/mongoconfig.go:138-188 | a complete save after saves that stopped anywhere, during the deletes too, is an outcome of one uninterrupted save with the same survivors |
| `ConfigDocuments.LoadAgreesWithReplay` | apps/web-api/rclone/configs/mongodb/mongoconfig.go:352-382 | loading equals applying every document through the watcher, in any order, exactly when no document has the empty id |
| `ConfigStore.Collection.ReplaceOne` | apps/web-api/rclone/configs/mongodb/mongoconfig.go:174-179 | an upsert replaces one whole document or, on a fault or an `_id` field, changes nothing |
| `ConfigStore.MongoStorage.SetValue` | apps/web-api/rclone/configs/mongodb/mongoconfig.go:265-272 | the entry reads as set and every other entry as before; the section is there and no other appears or goes |
| `ConfigStore.MongoStorage.DeleteKey` | apps/web-api/rclone/configs/mongodb/mongoconfig.go:274-288 | the entry is gone and every other reads as before; only a section that held nothing else goes with it; the result says whether it was there |
| `ConfigStore.MongoStorage.DeleteSection` | apps/web-api/rclone/configs/mongodb/mongoconfig.go:234-238 | the section and nothing else is removed |
| `ConfigStore.MongoStorage.GetValue` | apps/web-api/rclone/configs/mongodb/mongoconfig.go:255-263 | the value exactly when section and key are present |
| `ConfigStore.MongoStorage.GetSectionList` | apps/web-api/rclone/configs/mongodb/mongoconfig.go:217-225 | every section name once, in no promised order |
| `ConfigStore.MongoStorage.GetKeyList` | apps/web-api/rclone/configs/mongodb/mongoconfig.go:240-253 | every key of the section once, none for an unknown section |
| `ConfigStore.MongoStorage.Load` | apps/web-api/rclone/configs/mongodb/mongoconfig.go:83-134 | succeeds exactly when the cursor works and every binary field decrypts; the cache is then the decrypted database, and otherwise untouched |
| `ConfigStore.MongoStorage.LoadSection` | apps/web-api/rclone/configs/mongodb/mongoconfig.go:105-126 | one document decrypts exactly when each of its binary fields does; fields of other types are skipped |
| `ConfigStore.MongoStorage.SealFields` | apps/web-api/rclone/configs/mongodb/mongoconfig.go:163-173 | every value is sealed under the nonce drawn for its key; fails exactly when the random source fails for some key |
| `ConfigStore.MongoStorage.UpsertSections` | apps/web-api/rclone/configs/mongodb/mongoconfig.go:163-181 | wherever it stops, the sections done are whole, all other documents untouched, and the ids left over are the listed ones of no section done |
| `ConfigStore.MongoStorage.DeleteSections` | apps/web-api/rclone/configs/mongodb/mongoconfig.go:183-187 | besides the documents never listed, of the ids given only those whose delete failed survive |
| `ConfigStore.MongoStorage.Save` | apps/web-api/rclone/configs/mongodb/mongoconfig.go:138-188 | on an error no document is deleted and each is wholly old or wholly new; on success the collection holds the cache, the documents whose delete failed, and those a listing that ended early did not reach |
| `ConfigStore.MongoStorage.ApplyFullDocument` | apps/web-api/rclone/configs/mongodb/mongoconfig.go:352-382 | the section becomes the document's decryptable fields; an empty id or a missing document changes nothing |
| `ConfigStore.MongoStorage.ProcessChangeStream` | apps/web-api/rclone/configs/mongodb/mongoconfig.go:316-349 | the cache is the old one with the events applied in order, undecodable ones skipped |
| `ConfigStore.MongoStorage.Serialize` | apps/web-api/rclone/configs/mongodb/mongoconfig.go:191-215 | the text is a function of the map alone, whatever order the maps iterate in |
| `ConfigReplication.Convergence` | apps/web-api/rclone/configs/mongodb/mongoconfig.go:293-382 | in every interleaving, every process agrees with the decrypted database on each section, other than the empty id, that has no pending event, no unsaved edit and no missed write |
| `ConfigReplication.DrainedReplicasAgree` | apps/web-api/rclone/configs/mongodb/mongoconfig.go:316-382 | processes that have received everything, missed nothing and hold no unsaved edit hold the same map, apart from the empty id |
| `ConfigReplication.DrainedHoldsDatabase` | apps/web-api/rclone/configs/mongodb/mongoconfig.go:316-382 | that map is the decrypted database, apart from the empty id |
| `ConfigReplication.LastEventSettles` | apps/web-api/rclone/configs/mongodb/mongoconfig.go:316-349 | the last pending event of a section brings the cache to the current document, also when the event carries a later document or none |
| `ConfigReplication.InterruptibleSave` | apps/web-api/rclone/configs/mongodb/mongoconfig.go:138-188 | without other writers, whatever else other processes do, at every point where a save can stop, in any section order and for any listing: documents are wholly old or new and nothing is deleted before all upserts are done; at its end the decrypted database is the cache exactly when the listing was complete and no delete failed |
| `ConfigReplication.RerunAfterStop` | apps/web-api/rclone/configs/mongodb/mongoconfig.go:138-188 | for a process that was quiet at first: saves stopped anywhere any number of times, with deliveries and the steps of non-writing processes in between, and then one to the end, have an outcome of one uninterrupted save |
| `ConfigReplication.RerunByDrained` | apps/web-api/rclone/configs/mongodb/mongoconfig.go:138-188 | in particular a process that has received everything: with a complete listing the rerun leaves the cache it first set out to save exactly when no delete failed |
| `ConfigReplication.SectionsStored` | apps/web-api/rclone/configs/mongodb/mongoconfig.go:163-181 | a completed save among any other writers has stored each section as the cache has it, and that stands unless the section was written after its upsert |
| `ConfigReplication.SaveSettles` | apps/web-api/rclone/configs/mongodb/mongoconfig.go:163-181 | and has left no section of the cache unsaved |
| `ConfigReplication.UnseenSurvives` | apps/web-api/rclone/configs/mongodb/mongoconfig.go:183-187 | among other writers, none of whom removes it, a document of no section of the cache survives a completed save exactly when it was not listed, its delete failed, or it was written after its delete |
| `ConfigReplication.SaveRemovesUnseen` | apps/web-api/main.go:72-79 | a run in which a save removes what another process wrote and this one has not received |
| `ConfigReplication.CacheStandsExactly` | apps/web-api/rclone/configs/mongodb/mongoconfig.go:316-349 | the cache of a watching process stays the same through all such stops, deliveries and reruns exactly when no event pending at the start would change it |
| `ConfigReplication.SectionStandsExactly` | apps/web-api/rclone/configs/mongodb/mongoconfig.go:316-382 | a section, edited or not, reads the same in every run in which nobody else writes it exactly when each of its pending events says what the cache says or nothing |
| `ConfigReplication.EditReachesUpsert` | apps/web-api/rclone/configs/mongodb/mongoconfig.go:163-181 | an edit made when no event of its section is pending is what the section's next upsert stores |
| `ConfigReplication.EditLostToEcho` | apps/web-api/rclone/configs/mongodb/mongoconfig.go:380 | a run in which the echo of an earlier save replaces a newer edit |
| `ConfigReplication.EmptyIdIsNotReplicated` | apps/web-api/rclone/configs/mongodb/mongoconfig.go:353-355 | a run in which a drained, clean process differs from the database at the empty id |
| `ConfigReplication.MissedWriteStaysMissed` | apps/web-api/main.go:62-72 | a run in which a write falls between load and watch, and in no run after it does the section reach the cache until another writes it again or the process edits it or loads |
| `ConfigText.SortedIsInOrder` | apps/web-api/rclone/configs/mongodb/mongoconfig.go:195-200 | sorting any listing of a map's keys gives one and the same list |
| `StringOrder.LessMeans` | apps/web-api/rclone/configs/mongodb/mongoconfig.go:200 | the order of the names: a proper prefix first, and else the smaller unit where they first differ |
| `ConfigText.DumpOfOne` | apps/web-api/rclone/configs/mongodb/mongoconfig.go:202-213 | the dump of one section with one entry, letter by letter |
| `ConfigText.DumpOfTwoSections` | apps/web-api/rclone/configs/mongodb/mongoconfig.go:196-213 | the dump of two sections is theirs one after the other, in byte order of the names |
| `ConfigText.DumpReadsBack` | apps/web-api/rclone/configs/mongodb/mongoconfig.go:191-215 | an INI reader recovers a map from its dump exactly when no name, key or value has a newline, no key has an equals sign, and no key begins with an opening bracket |
| `ConfigText.DumpInjective` | apps/web-api/rclone/configs/mongodb/mongoconfig.go:191-215 | two such maps with one text are equal |
| `ConfigText.NewlineIsAmbiguous` | apps/web-api/rclone/configs/mongodb/mongoconfig.go:209-211 | two different maps with one text, one of them with a newline in a value |
| `ConfigText.SeparatorIsAmbiguous` | apps/web-api/rclone/configs/mongodb/mongoconfig.go:209-211 | two different maps with one text, without any newline, through the separator |
| `CliCommands.Dump` | apps/cli/cmd/dump/dump.go:15-45 | writes exactly the text Serialize writes for the same store |
| `CliCommands.Migrate` | apps/cli/cmd/migrate/migrate.go:14-56 | the cache becomes the old one overridden at the file's pairs; an empty file saves nothing; a save follows otherwise, and if it fails no document is mixed or lost |
| `CliCommands.OverrideAt` | apps/cli/cmd/migrate/migrate.go:36-41 | each entry of the override is the file's where the file has one, and the old one elsewhere |
| `CliCommands.MigrationIsOverride` | apps/cli/cmd/migrate/migrate.go:31-50 | after a successful migration by an in-sync store the decrypted database is the old one overridden at exactly the file's pairs, whatever the listing and the failing deletes |
| `TokenBucket.AvailableLater` | apps/web-api/shared/security/ratelimit.go:44 | what a bucket holds later depends only on what it holds now |
| `TokenBucket.AtOneInstant` | apps/web-api/shared/security/ratelimit.go:44 | of n requests at one instant the last is admitted exactly when there were tokens for all |
| `TokenBucket.ForgettingUnnoticed` | apps/web-api/shared/security/ratelimit.go:29-31 | dropping a bucket is unnoticed by every later request sequence exactly when it has refilled |
| `RateLimiter.Limiter.GetVisitor` | apps/web-api/shared/security/ratelimit.go:38-50 | a known address keeps its bucket and is stamped; an unknown one gets a full bucket |
| `RateLimiter.Limiter.Allow` | apps/web-api/shared/security/ratelimit.go:61 | admits exactly when a token is available, and only then spends |
| `RateLimiter.Limiter.Sweep` | apps/web-api/shared/security/ratelimit.go:28-32 | keeps exactly the entries seen within three minutes |
| `RateLimiter.StepMatches` | apps/web-api/shared/security/ratelimit.go:26-62 | one step keeps the swept table equal, in what it will decide, to buckets that are never dropped |
| `RateLimiter.EvictionUnobservable` | apps/web-api/shared/security/ratelimit.go:23-62 | in every run whose requests decide at most 176 s and 1 ns after their lookup, the limiter admits and rejects what one that never evicts does; the limit is exact by the next row |
| `RateLimiter.PatienceIsExact` | apps/web-api/shared/security/ratelimit.go:29-61 | that holds for all runs with requests at most p apart from lookup to decision exactly when p is at most 176 s and 1 ns |
| `RateLimiter.RateBound` | apps/web-api/shared/security/ratelimit.go:44-61 | in every such run one address gets at most 20 requests plus 5 a second over any window; the limit is exact by the next row |
| `RateLimiter.RateBoundIsExact` | apps/web-api/shared/security/ratelimit.go:29-61 | that bound holds for all runs with requests at most p apart from lookup to decision exactly when p is at most 176 s and 1 ns |
| `JobFlows.ResultOfReply` | apps/web-ui/src/app/content-page/store/jobs/jobs.effects.ts:136-168 | a status is a success exactly when it has no error and says so, pending when it has neither, and otherwise a failure with its error |
| `JobFlows.NamesDiffer` | apps/web-ui/src/app/content-page/store/jobs/jobs.effects.ts:35 | upload, server and failure ids never clash |
| `JobFlows.NewUploadId` | apps/web-ui/src/app/content-page/store/jobs/jobs.effects.ts:28-36 | the next upload id is the id of no earlier submission |
| `JobFlows.NewFailureId` | apps/web-ui/src/app/content-page/store/jobs/jobs.reducer.ts:10-18 | a failure id is shared only by failures of the same millisecond |
| `JobFlows.StepKeepsValid` | apps/web-ui/src/app/content-page/store/jobs/jobs.effects.ts:30-175 | every step of every flow keeps requests and results under the same keys, ids apart, and each flow's entry as its phase says |
| `JobFlows.Submitted` | apps/web-ui/src/app/content-page/store/jobs/jobs.effects.ts:33-49 | an upload waits at once under the next upload id, and another submission shows nothing before its reply |
| `JobFlows.SubmitReplied` | apps/web-ui/src/app/content-page/store/jobs/jobs.effects.ts:50-68 | a refused submission has failed with its error under its millisecond, an accepted one waits under its server id, and without a reply nothing changes |
| `JobFlows.UploadReplied` | apps/web-ui/src/app/content-page/store/jobs/jobs.effects.ts:37-48 | the reply to an upload makes its job fail with the error of the call or succeed, and without one it waits |
| `JobFlows.PollReplied` | apps/web-ui/src/app/content-page/store/jobs/jobs.effects.ts:136-168 | the reply to a poll makes the job fail with the error of the call or of the status, succeed, or wait |
| `JobFlows.ResultIsFirstVerdict` | apps/web-ui/src/app/content-page/store/jobs/jobs.effects.ts:30-175 | in every run, what the store shows of a submission that was not refused is its first decisive reply |
| `JobFlows.JobRunsThrough` | apps/web-ui/src/app/content-page/store/jobs/jobs.effects.ts:50-175 | a run from the start in which a job is submitted, accepted, polled and answered, with the result any reply gives |
| `JobFlows.UploadRunsThrough` | apps/web-ui/src/app/content-page/store/jobs/jobs.effects.ts:34-48 | the same of an upload |
| `JobFlows.TerminalIsFinal` | apps/web-ui/src/app/content-page/store/jobs/jobs.reducer.ts:10-32 | a step leaves the request and the terminal result of a job alone exactly when it is not a failure in the millisecond that names the entry with another error or request |
| `JobFlows.TerminalForever` | apps/web-ui/src/app/content-page/store/jobs/jobs.effects.ts:113-175 | a terminal job reads the same at every point of a run exactly when the run has no such failure |
| `JobFlows.SharedMillisecond` | apps/web-ui/src/app/content-page/store/jobs/jobs.reducer.ts:10-18 | a run from the start in which the second of two failures takes the entry of the first |
| `JobFlows.OnlyJobsArePolled` | apps/web-ui/src/app/content-page/store/jobs/jobs.effects.ts:113-126 | an upload is never polled and an accepted job always is |
| `JobFlows.OneEntryEach` | apps/web-ui/src/app/content-page/store/jobs/jobs.reducer.ts:10-32 | each answered submission has an entry, one each exactly when no two failures share a millisecond |
| `ReloadDetector.ScanJobs` | apps/web-ui/src/app/content-page/folder-list-view/folder-list-view.component.ts:98-115 | one pass over the jobs in any order remembers the pending ones and reports whether a remembered one succeeded |
| `ReloadDetector.NewSuccess` | apps/web-ui/src/app/content-page/store/jobs/jobs.effects.ts:128-175 | a job that turns successful was pending just before, and a step makes at most one |
| `ReloadDetector.ReloadExactness` | apps/web-ui/src/app/content-page/folder-list-view/folder-list-view.component.ts:93-127 | during a visit the detector fires as often as jobs turn successful, never for a failure or an earlier job |
| `ReloadDetector.EveryVisit` | apps/web-ui/src/app/content-page/folder-list-view/folder-list-view.component.ts:93-127 | the same from opening a folder at any moment of any run |
| `Base64.DecodeEncode` | apps/web-ui/src/app/content-page/folder-list-view/folder-list-view.tokens.ts:24 | decoding undoes encoding, with the padding of section 3.2 of RFC 4648 or without it |
| `Base64.AlphabetIsStandard` | apps/web-ui/src/app/content-page/folder-list-view/folder-list-view.tokens.ts:24 | the digits are written in the alphabet of table 1 of RFC 4648 |
| `Base64.GroupIsNumber` | apps/web-ui/src/app/content-page/folder-list-view/folder-list-view.tokens.ts:24 | four digits are three bytes read as one number, shorter groups filled with zero bits |
| `Base64.EncodedLength` | apps/web-ui/src/app/content-page/folder-list-view/folder-breadcrumbs/folder-breadcrumbs.component.ts:59 | padding fills the text to groups of four characters, one for every three bytes or less |
| `RouteTokens.TokenRoundTrip` | apps/web-ui/src/app/content-page/folder-list-view/folder-list-view.tokens.ts:18-34 | a token gives back its remote and path exactly when the path has no colon |
| `RouteTokens.TokenErrors` | apps/web-ui/src/app/content-page/folder-list-view/folder-list-view.tokens.ts:18-34 | a missing token and one without a remote are errors, and one of a remote alone has no path |
| `RouteTokens.TokenSlash` | apps/web-ui/src/app/content-page/folder-list-view/folder-breadcrumbs/folder-breadcrumbs.component.ts:59 | for ASCII text the token has no slash exactly when no `?` or DEL sits at an index congruent to 2 modulo 3 |
| `RouteTokens.Breadcrumbs` | apps/web-ui/src/app/content-page/folder-list-view/folder-breadcrumbs/folder-breadcrumbs.component.ts:28-74 | the crumbs are home, the remote and the folders by name; the remote's link parses to the remote, and, without colon or leading slash, a folder's link and id to the path down to it; the open one has no link, and its path as id or `null` for the parent at the top |
| `RouteTokens.LinksArePrefixes` | apps/web-ui/src/app/content-page/folder-list-view/folder-breadcrumbs/folder-breadcrumbs.component.ts:51-62 | every folder link is the path so far exactly when the path has no leading slash or at most one folder link |
| `RouteTokens.FolderCrumbLeads` | apps/web-ui/src/app/content-page/folder-list-view/folder-breadcrumbs/folder-breadcrumbs.component.ts:51-62 | the link of the i-th folder crumb decodes to the remote and the first i folders |
| `Pkce.VerifierLength` | apps/web-ui/src/app/auth/utils/pkce.ts:5-9 | a verifier is hexadecimal, has length 56 plus its hex digits, so 112 to 504, and meets section 4.1 of RFC 7636 exactly when the digits total at most 72 |
| `Pkce.VerifierReads` | apps/web-ui/src/app/auth/utils/pkce.ts:8 | a verifier is its words in order, each as a zero and its hexadecimal |
| `Pkce.HexReadsBack` | apps/web-ui/src/app/auth/utils/pkce.ts:8 | which reads back to the word and has no leading zero of its own |
| `Pkce.ChallengeRoundTrip` | apps/web-ui/src/app/auth/utils/pkce.ts:28-33 | the challenge uses only base64url characters and decodes to the digest; 32 bytes give 43 characters |
| `RemotePaths.FsMatchIsLazy` | apps/web-api/rclone/handler.go:32 | the pattern matches whenever it can, with the shortest first group |
| `RemotePaths.FsMatchIsSound` | apps/web-api/rclone/handler.go:32 | and what it returns is a match |
| `RemotePaths.ValidateFsParam` | apps/web-api/rclone/handler.go:67-87 | accepts exactly the values that name a configured remote before their first colon, with the right error otherwise |
| `RemotePaths.ValidFsMeans` | apps/web-api/rclone/handler.go:67-87 | that is, a non-empty configured name without colon, a colon, and anything |
| `RemotePaths.ValidateRemoteParam` | apps/web-api/rclone/handler.go:91-99 | accepts exactly the paths without a `..` component |
| `RemotePaths.ValidateRCParams` | apps/web-api/rclone/handler.go:102-130 | accepts exactly when every string among `fs`, `srcFs`, `dstFs` names a configured remote and none among `remote`, `srcRemote`, `dstRemote` has a `..` component |
| `RemotePaths.HandleGet` | apps/web-api/rclone/handler.go:141-214 | a bracketed text and a path are forbidden exactly when the text names no configured remote or the path has a `..`; else a listing exactly when the path is empty or ends in a slash, and else the file, of that text and of the path less the slashes at its ends; anything else is not found |
| `RemotePaths.HandlerReadsPrinter` | apps/web-ui/src/app/content-page/services/web-api/web-api.service.ts:107-108 | what the UI prints is answered in that way for the printed remote and path |
| `RemotePaths.PrintedFileIsServed` | apps/web-ui/src/app/content-page/services/web-api/web-api.service.ts:107-108 | a file in a folder is served under `folder/file` of its remote, and one without a folder under its name |
| `RemotePaths.AcceptedStaysBeneath` | apps/web-api/rclone/handler.go:91-99 | an accepted path, before and after trimming, leads to one place beneath its root with the same non-empty components |
| `RemotePaths.EscapesAreRefused` | apps/web-api/rclone/handler.go:157-170 | a request whose path would step above the root of the file system it names is forbidden |
| `RemotePaths.BeneathRemoteExactly` | apps/web-api/rclone/handler.go:67-99 | what is served lies beneath the configured remote exactly when the path inside the file-system parameter, which is not checked, never steps above it |
| `RemotePaths.SubPathClimbs` | apps/web-api/rclone/handler.go:67-87 | requests that are served and lead above their remote |
| `RemotePaths.PrintedStaysBeneath` | apps/web-ui/src/app/content-page/services/web-api/web-api.service.ts:107-108 | every valid request the UI prints is served from beneath its remote |
| `Pem.TrimsBothEnds` | apps/web-api/shared/jwt/jwt.go:134 | trimming takes white space from both ends, all of it and nothing else |
| `Pem.BreaksInside` | apps/web-api/shared/jwt/jwt.go:145-159 | the cut positions lie inside the text and in order: after the first dashes behind the header's opening, and before the last footer |
| `Pem.BreaksExactly` | apps/web-api/shared/jwt/jwt.go:145-155 | there are such positions exactly when some dashes that may close the header come before some footer |
| `Pem.Idempotent` | apps/web-api/shared/jwt/jwt.go:133-162 | repairing twice is repairing once, on every string |
| `Pem.InsertsTwoNewlines` | apps/web-api/shared/jwt/jwt.go:133-162 | the repair either returns the trimmed text or inserts two newlines, after the header and before the footer, and nothing else |
| `StableSorting.SortIsStable` | apps/web-ui/src/app/content-page/folder-list-view/folder-list-table/folder-list-table.component.ts:75-132 | on a total preorder the result is an ordered permutation with ties in their old order |
| `StableSorting.AnyStableSort` | apps/web-ui/src/app/content-page/folder-list-view/folder-list-table/folder-list-table.component.ts:75-132 | every stable sort returns the same list, so the algorithm does not matter |
| `TableSort.ComparatorIsOrder` | apps/web-ui/src/app/content-page/folder-list-view/folder-list-table/folder-list-table.component.ts:75-132 | a comparator is a total preorder on a list, except exactly when it sorts by date and an invalid date stands beside two different valid ones of its kind |
| `TableSort.InvalidDateBreaksOrder` | apps/web-ui/src/app/content-page/folder-list-view/folder-list-table/folder-list-table.component.ts:99-102 | three items on which the date comparator is no order |
| `TableSort.TableOrder` | apps/web-ui/src/app/content-page/folder-list-view/folder-list-table/folder-list-table.component.ts:75-132 | the rows are the items stably sorted, all folders before all files |
| `TableSort.SizesInOrder` | apps/web-ui/src/app/content-page/folder-list-view/folder-list-table/folder-list-table.component.ts:94-97 | by size, rows of one kind grow downwards in ascending order and shrink in descending, a missing size being 0 |
| `TableSort.MomentsInOrder` | apps/web-ui/src/app/content-page/folder-list-view/folder-list-table/folder-list-table.component.ts:98-101 | by date, the same of the milliseconds, a missing date being 0, when no date is invalid |
| `TableSort.NamesInOrder` | apps/web-ui/src/app/content-page/folder-list-view/folder-list-table/folder-list-table.component.ts:90-93 | by name, the same of the lowered names in string order |
| `TableSort.TypesInOrder` | apps/web-ui/src/app/content-page/folder-list-view/folder-list-table/folder-list-table.component.ts:102-105 | by type, the same of the lowered types, a missing type being empty |
| `TableSort.DefaultInOrder` | apps/web-ui/src/app/content-page/folder-list-view/folder-list-table/folder-list-table.component.ts:122-132 | without a configuration, rows of one kind are in locale order of the lowered names |
| `TableSort.TurningMirrors` | apps/web-ui/src/app/content-page/folder-list-view/folder-list-table/folder-list-table.component.ts:112-118 | on distinct keys, descending is ascending, and ascending descending, with the folders reversed and the files reversed |
| `TableSort.MissingRanksAsDefault` | apps/web-ui/src/app/content-page/folder-list-view/folder-list-table/folder-list-table.component.ts:92-105 | giving every missing size, date and type its default and sorting is sorting and then giving them |
| `TableSort.FolderListTable.ToggleSort` | apps/web-ui/src/app/content-page/folder-list-view/folder-list-table/folder-list-table.component.ts:164-174 | after any clicks the configuration is the last column, ascending if it was clicked an odd number of times in a row and descending if an even number |
| `TableSort.ClicksAlternate` | apps/web-ui/src/app/content-page/folder-list-view/folder-list-table/folder-list-table.component.ts:164-174 | n clicks in a row on a column that was not the last count as n |
| `TableSort.ClickAgainMirrors` | apps/web-ui/src/app/content-page/folder-list-view/folder-list-table/folder-list-table.component.ts:75-132 | on distinct keys, one more click on the last column turns the folders and the files of the table round |
| `TokenStore.InMemoryTokenStore.Store` | apps/web-api/auth/store.go:28-33 | the token belongs to the user, all others are as before |
| `TokenStore.InMemoryTokenStore.ValidateAndRevoke` | apps/web-api/auth/store.go:36-48 | gives the user of a stored token and forgets the token; an error and no change otherwise |
| `TokenStore.Handler.HandleCallback` | apps/web-api/auth/auth.go:262-294 | a token is stored exactly when signing and generation succeed; signing comes first |
| `TokenStore.Handler.HandleRefresh` | apps/web-api/auth/auth.go:297-345 | the reply and the store for every combination of unknown token, failed generation and failed signing |
| `TokenRotation.UninterruptedExchange` | apps/web-api/auth/auth.go:297-345 | the steps of an exchange, run without interruption, do to the store what the handler does |
| `TokenRotation.UninterruptedLogin` | apps/web-api/auth/auth.go:270-285 | the same of the steps of a login |
| `TokenRotation.RedeemedAtMostOnce` | apps/web-api/auth/store.go:36-48 | under any interleaving no token is redeemed by two requests, and a redeemed token is never live again |
| `TokenRotation.RotationKeepsUser` | apps/web-api/auth/auth.go:313-330 | a live token redeems as the user and email of the login its chain of exchanges began with |
| `TokenRotation.LiveTokensCounted` | apps/web-api/auth/auth.go:270-330 | live tokens are the logins that stored one less the exchanges between revoking and storing, for now or for good |
| `TokenRotation.OneLiveTokenPerLogin` | apps/web-api/auth/auth.go:297-345 | however often it is exchanged a login has at most one live token |
| `LatestRequest.LatestWins` | apps/web-ui/src/app/content-page/folder-list-view/folder-list-view.store.ts:31-47 | in every run the store shows the answer to the newest load, or pending while there is none |
| `LatestRequest.OrderUnnoticed` | apps/web-ui/src/app/content-page/file-viewer/file-viewer.store.ts:36-50 | the order in which answers arrive cannot be told from what is shown |
| `FileViewer.FileViewerComponent.FileDetailsResult` | apps/web-ui/src/app/content-page/file-viewer/file-viewer.component.ts:70-92 | a computation after new content revokes the old URL and makes one, if there is content and a request; the value is kept otherwise |
| `FileViewer.FileViewerComponent.OnRequest` | apps/web-ui/src/app/content-page/file-viewer/file-viewer.component.ts:94-107 | a request becomes current and is loaded; none leaves the store alone |
| `FileViewer.FileViewerComponent.CloseDialog` | apps/web-ui/src/app/content-page/file-viewer/file-viewer.component.ts:109-115 | revokes the current URL and forgets it, leaving the details computed last |
| `FileViewer.FileViewerComponent.NgOnDestroy` | apps/web-ui/src/app/content-page/file-viewer/file-viewer.component.ts:129-134 | revokes the current URL and stops listening |
| `FileViewer.NoUrlLeaks` | apps/web-ui/src/app/content-page/file-viewer/file-viewer.component.ts:70-134 | in every run the URLs created and not revoked are exactly the current one, and none after destruction |
| `FileViewer.StoreRuns` | apps/web-ui/src/app/content-page/file-viewer/file-viewer.store.ts:36-50 | until destroyed the viewer's store runs exactly its loads and answers |
| `FileViewer.DetailsMatchTheirBlob` | apps/web-ui/src/app/content-page/file-viewer/file-viewer.component.ts:82-91 | details shown carry the name and type of the very request that brought their blob |
| `FileViewer.RenderedIsCurrent` | apps/web-ui/src/app/content-page/file-viewer/file-viewer.component.ts:70-92 | once rendered, the details are those of the newest load's answer, or pending while there is none |
| `FileViewer.ShownUrlLives` | apps/web-ui/src/app/content-page/file-viewer/file-viewer.component.ts:109-115 | the URL of the details shown works exactly until the dialog is closed or the component destroyed |
| `FileViewer.BareExactly` | apps/web-ui/src/app/content-page/file-viewer/file-viewer.component.ts:73-75 | a success is shown without details exactly when new content was last rendered while no file was selected and the newest load had been answered |
| `FileViewer.ClosedWhileLoading` | apps/web-ui/src/app/content-page/file-viewer/file-viewer.component.ts:70-115 | a run in which that happens |

## Left out

- MongoDB driver, network and BSON: documents are maps of typed fields, replaced or deleted atomically. Ids are strings,
  keys have no `$` or dot treatment, and there is no collection drop.
- ConfigStore.MongoStorage.Save: as a method it has no other writers between its calls; saves that interleave are steps of
  `ConfigReplication`.
- Two saves of one process at once: `Save` takes a read lock, so its calls may overlap; a replica of `ConfigReplication`
  runs one save at a time, and a second is a save of another process with the same cache.
- ConfigStore.MongoStorage.Load: as a method it reads all documents at one moment; in `ConfigReplication` a load sees each
  document at any moment since it began.
- Locks: a method or a step is what runs under one lock. The read lock that `Save` holds is the frozen cache of the step
  system.
- AES-GCM, SHA-256, HMAC, JWT signing and random generation: abstract functions, laws or parameters as stated above. The
  byte buffer of `GenerateRefreshToken` is not modelled; that it never repeats is the assumption of `TokenRotation`.
- rclone itself, its INI parser and its backends: the INI reader in `ConfigText` is defined here for the round trip, and
  `serveRemote` ends at the path it asks the backend for.
- `handlePost`, which passes its parameters to rclone's own dispatch once they are validated.
- Google OAuth and the checks of `handleCallback` before signing: a callback starts when it has been authorised.
- RateLimiter.Limiter.Allow: real tokens instead of floating point, and clocks that do not run backwards; rounding in
  `golang.org/x/time/rate` is not modelled.
- RxJS, NgRx, Immutable and Angular signals: only what `switchMap`, `mergeMap`, `exhaustMap`, `takeWhile`, `scan`, store
  selection and memoised computation do to the modelled state. Timer ticks come at any time.
- `toLowerCase` and `localeCompare`: arbitrary functions, the second an order. `Array.sort` is a function on sequences: a
  stable sort has one result, so sorting the copied array in place is not modelled.
- UTF-8 decoding errors, percent-encoding of URLs, `ServeMux` path cleaning, and `filepath.ToSlash` on Windows.
- Templates, dialogs, theme, CORS, health, telemetry, environment loading, command-line parsing and exit codes: no property
  beyond one body.
