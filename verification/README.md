# QuackRidge: a verified model of its stores, engines and exchanges

QuackRidge is a loopback database bridge. It keeps several stores in agreement (the
configuration document and its backup, a credential store, the catalogs attached to an
engine, a running engine and its listener) while any single step may fail. This Dafny project
models the code that keeps them in agreement and proves what it promises.

| file | models |
|---|---|
| `Sources.dfy`, `Ordering.dfy` | configured sources; string order and sorting of map keys |
| `Fingerprints.dfy` | the fingerprint pre-image and the staging alias |
| `Reconcile.dfy`, `Manager.dfy` | the transactional source reconciler: its invariant, undo stack and whole runs; the code that runs it |
| `EngineHost.dfy`, `AppRuntime.dfy` | engines and listeners; start, reload, probe, swap and restore |
| `Refinement.dfy` | the reconciler meets the contract by which `AppRuntime` uses it |
| `EngineDatabase.dfy` | attach and detach inside one engine: catalogs, registry rows, ODBC handles |
| `Quoting.dfy`, `ConnectionStrings.dfy`, `SqlText.dfy` | printers of SQL and ODBC text, each undone by a reader |
| `ConfigStore.dfy` | the document file, its backup and the credential store, with failures and crashes |
| `Lifecycle.dfy`, `Pairing.dfy` | the public service and the pairing exchange under every interleaving |
| `JsonTrees.dfy`, `Policy.dfy` | decoded JSON values; the walk that authorizes a statement tree |
| `Backoff.dfy` | reconnect delays in 64-bit arithmetic |

## How failure, time and choice are modelled

* Every class that talks to the outside holds a function `fails: nat -> bool` that decides the
  outcome of its n-th fallible call. Nothing is assumed about it, so each contract holds for
  every pattern of failures; contexts that are cancelled are one such pattern. `Quiet()` says
  nothing fails, `Quiet(n, count)` that none of a range of calls does; contracts that mention it
  say when an operation does succeed. Where one failing call matters, contracts name it by its
  index, counted from the state before the operation.
* A call that fails leaves the store it addresses as it was. For the reconciler that is
  `Sources.AllOrNothing`, which `EngineDatabase.Database.Attach` and `AttachOdbc` meet. Calls whose
  error the program drops (`_ = ...`) take effect whenever they can apply.
* Map iteration order and the order of removals are chosen arbitrarily by the loops.
* SHA-256 is a function to 32 bytes; what needs it to be free of collisions says for which inputs.
  `strings.ToUpper` and `strings.ToLower` are arbitrary functions. Random tokens come from a
  function `tokens` that never yields "". Clocks are numbers that only grow.
* Each operation reads the configuration once. The exception is `Runtime.Start`, whose two reads
  are the parameters `live` and `again`.

## Findings

The code is modelled as it is. Where its comments or its evident intent promise more than it
does, the model proves exactly when the promise is kept.

* *A failed reload keeps the active set* (comment at `internal/reconcile/manager.go:58-60`). The
  attached catalogs come back exactly unless the call that failed was the cleanup of a staged copy;
  then exactly that copy stays attached (`Manager.Manager.Apply`, `StrayIsTheOnlyException`). The
  invariant is kept if and only if nothing was attached under that staging alias before, which a
  source whose configured alias starts with `qr_stage_` could bring about. From then on, until
  the engine is restarted, every reload that would replace a source by the same candidate fails,
  because its staging alias is taken (`StrayBlocksRetries`).
* Two sources cannot trade aliases in one reload, and a new source cannot take over the alias of
  one removed in the same reload. A reload is applied only if each changed source takes an alias
  that is free, or that a replaced source with a smaller id gives up, and no stray has its staging
  alias; a validated reload with no alias under the staging prefix and with every call succeeding
  is applied exactly then (`Manager.Manager.Apply`, `TradedAliasesRefused`, `TakenOverAliasRefused`).
* Stopping the runtime leaves `Manager.active` filled. After a restart the invariant holds exactly
  if the bootstrap attaches every id still listed (`StaleActive`). A source it could not attach stays
  listed. As long as no other source takes over its alias, no reload ever attaches it: reloads that
  leave its configuration unchanged succeed without it, and every reload that changes or drops it
  fails (`Manager.Manager.Apply`, `Manager.Restarted`). If another source has taken over the alias
  and was booted, the reload that drops the old one succeeds, detaches the new one's catalog and
  keeps it listed as active (`Manager.AliasUsurped`).
* The fingerprint joins fields with NUL, and validation accepts NUL in names, credential references
  and database types. A configuration without NUL shares its pre-image with no other
  (`PreimageIsItsOwn`). A valid one has a valid twin of the same id, which a reload takes for the
  same configuration when the credentials agree, if and only if there is a NUL in its database type
  or credential reference, or its name and alias can also be read as a name, another alias, a kind
  there is an adapter for, and more (`TwinExactly`).
* A failed attach may leave an "unavailable" registry row, because the failure is recorded there.
  `FateOf` and `LeavesRow` say when, from the state before the attach and the calls that fail. The
  ODBC insert has no conflict clause, so an ODBC source whose replacement leaves a row does not come
  back; without a row it does, unless a later call fails too (`Database.ReplaceOdbc`,
  `OneFailingCall`, the run `OdbcSourceLost`). The rollback results above assume that undo calls
  apply whenever the alias is free.
* Such a row also bars its catalog name for every other source, and its own source from an ODBC
  attach, until the source is attached otherwise or detached by id (`BarredName`). The reconciler
  never detaches a source that did not become active. An ODBC attach that fails at its object types
  leaves its row as well, and so bars itself (`Database.AttachOdbc`).
* `Runtime.Start` on a running runtime fails, but overwrites the base paths. The allowlist still
  fits the document exactly if the new base paths merge to the recorded list (`Runtime.Start`). Only
  a caller that uses the runtime directly can do this: the service starts it only while it has no
  engine (`Lifecycle.RuntimeCallsAreInOrder`).
* If the engine check after an in-place reload fails, the sources have moved but the recorded
  document has not. This happens exactly if the reload itself goes through and that one call fails or
  no engine runs (`Runtime.Reload`, ending `Unrecorded`). A later reload that ends in a restore then
  brings back the older document (`UnrecordedThenRestored`, the run `FailedRebuild`).
* A restore leaves the failure list of the last start as it was, so sources that the restored engine
  has may still be listed as unavailable (`Runtime.Restore`, `UnrecordedThenRestored`).
* *Reload is transactional* (comment at `service.go:120`). If a restore fails too, no engine runs,
  yet the service goes back to ready. How a rebuild ends follows from the steps that fail
  (`Runtime.RebuildEnding`, which `Runtime.Reload` and `Rebuild` meet): as long as the recorded
  document can still be prepared, one failing step never loses the engine
  (`Runtime.LosingTakesTwo`), and `FailedRebuild` gives a run with one failing step in the rebuild
  that ends restored and one with two that ends without an engine. `ReadyMeansRunning` proves that a
  ready or degraded service has a running engine if and only if no reload lost it without a later
  start, reload or restore bringing one back.
* A document save copies a damaged main file over the last good backup. If syncing that copy fails,
  or replacing the main file after it, nothing loadable is left; a save that fails before loses
  nothing (`Stores.Save`, the run `LastGoodCopyLost`).
* *One unavailable database does not prevent healthy catalogs from starting* (comment at
  `internal/reconcile/manager.go:109-111`). A bootstrap attaches an enabled source of a validated
  document if and only if it can be prepared and its own attach does not fail
  (`Manager.Manager.Bootstrap`, `Runtime.Boot`).
* A removal whose credential cannot be deleted puts the document back. With syncs working, a single
  failing call never leaves the document without a removable source whose removal failed; which calls do is
  exact (`Stores.Remove`, `OneFaultIsUndone`).
* A failed add deletes the credential it stored. With at most one failing call it leaves the
  credential store as it was if nothing was stored under the reference; a value stored there before
  is lost exactly if the put went through, the save failed and the delete went through (`Stores.Add`,
  the run `StoredValueLost`).
* A file is replaced by rename and the directory synced after it; if the sync fails, the save reports
  a failure although the new document is in place. An add then takes the credential away, and the
  document refers to a credential that is gone: exactly then an add leaves a dangling reference
  (`Stores.Add`, the run `LateSyncDangles`). With working syncs no run of edits does (`AnyEdits`).

## Model

| member | source | states |
|---|---|---|
| Ordering.LtAtFirstDifference | internal/app/runtime.go:212-227 | the order of sorted lists is decided by the first code point in which two strings differ |
| Fingerprints.JoinInjective | internal/reconcile/manager.go:305-309 | joining with NUL loses nothing if all parts but the last are free of NUL |
| Fingerprints.FingerprintDetermines | internal/reconcile/manager.go:303-311 | for a source without NUL, fingerprints agree exactly if configuration fields and credential agree, given that SHA-256 does not collide on the two credentials and on the two pre-images; equal fingerprints mean equal definitions |
| Fingerprints.PreimageIsItsOwn | internal/reconcile/manager.go:303-311 | a source without NUL shares its pre-image with no other configuration or credential, whatever characters the other has |
| Fingerprints.TwinExactly | internal/reconcile/manager.go:250-252 | a valid source has a valid twin, another configuration of its id with the same pre-image, if and only if there is a NUL in its database type or credential reference, or its name regroups with the alias |
| Fingerprints.StageAliasValid | internal/reconcile/manager.go:313-320 | the staging alias of any valid alias is itself a valid identifier and has the staging prefix |
| Fingerprints.StageAliasTells | internal/reconcile/manager.go:313-320 | two staging aliases are equal if and only if the first 45 characters of the aliases and the first four bytes of the fingerprints are |
| Reconcile.ReplayAround | internal/reconcile/manager.go:233-240 | undoing while one alias is stuck restores everything else as if it were not |
| Reconcile.OnlyBackwardsRestores | internal/reconcile/manager.go:237-239 | when an alias moves between two sources, undoing last first restores both and undoing in recorded order loses one |
| Reconcile.ActiveAliasesDistinct | internal/reconcile/manager.go:61-67 | under the invariant active sources have pairwise distinct aliases |
| Reconcile.DropsOwnOnly | internal/reconcile/manager.go:260-297 | between any two calls the undo stack takes away only catalogs this reload attached, never a kept source's |
| Reconcile.FreeIffMovable | internal/reconcile/manager.go:248-287 | midway through a reload a free alias means only earlier, replaced sources held it, and conversely if aliases are distinct |
| Reconcile.TradedAliasesRefused | internal/reconcile/manager.go:242-300 | no reload in which two changed sources trade aliases is applied |
| Reconcile.TakenOverAliasRefused | internal/reconcile/manager.go:248-297 | no reload that gives a new or changed source the alias of one it removes is applied |
| Reconcile.TakenOverInTwo | internal/reconcile/manager.go:248-297 | after an applied reload without the heir, the same snapshot with the heir on the freed alias is admissible |
| Reconcile.StrayIsTheOnlyException | internal/reconcile/manager.go:271-273 | a reload that is not applied changes something only if a staged cleanup failed, and then leaves exactly that staged copy; the invariant survives if and only if its alias was free before the reload |
| Reconcile.StrayBlocksRetries | internal/reconcile/manager.go:265-273 | once a staged copy is stuck, no later reload of the run that replaces a source by the same candidate is applied |
| Reconcile.EveryRunHolds | internal/reconcile/manager.go:89-97 | over any run of reloads catalogs are exactly active sources plus strays; success makes the snapshot's ids and fingerprints active, failure leaves active alone |
| Reconcile.UnchangedSourceStays | internal/reconcile/manager.go:250-254 | a source configured the same by every snapshot of a run stays attached under its alias in every state |
| Manager.Prepare | internal/reconcile/manager.go:183-229 | all enabled sources become candidates, or the first that cannot be prepared decides the error |
| Manager.WhatIsPrepared | internal/reconcile/manager.go:202-229 | the order in which a source is refused: no adapter, no credential, not buildable, not valid; a candidate carries the whole definition and the hash of identity and credential |
| Manager.Manager.Rollback | internal/reconcile/manager.go:233-240 | replays the undo stack last first and touches no kept alias |
| Manager.Manager.Replace | internal/reconcile/manager.go:265-280 | staging attach and cleanup, then swap; the staged copy stays exactly if its alias was free, its attach succeeds and its cleanup fails; any other failure leaves the catalogs as they were |
| Manager.Manager.ApplyOne | internal/reconcile/manager.go:248-287 | one prepared source, or everything rolled back with the failed call naming the ending; succeeds only if movable and stageable; unchanged ids are never called on |
| Manager.Manager.RemoveAbsent | internal/reconcile/manager.go:289-298 | unconfigured sources are detached in any order, or everything is exactly as before the reload; detaching goes by alias, whoever holds it |
| Manager.Manager.Apply | internal/reconcile/manager.go:231-301 | exact new state on success; on failure the old state, plus the staged copy exactly if the failing call was its cleanup; unchanged and stale sources are never touched, and a reload that changes or drops a stale one fails; a settled reload makes no call; applied only if admissible, and exactly then in a clean, quiet reload |
| Manager.Manager.Reload | internal/reconcile/manager.go:89-97 | nothing is called before every enabled source is prepared; success settles the active set on the document; the outcome is that of the snapshot |
| Manager.CredentialChangeIsSeen | internal/reconcile/manager.go:250-252 | a source whose stored credential was replaced under the same reference is unchanged if and only if the credentials are equal |
| Manager.CredentialRotated | internal/reconcile/manager.go:248-287 | after a successful reload such a source is attached anew, under the hash of its new credential |
| Manager.Restarted | internal/reconcile/manager.go:89-135 | after an engine restart and any reloads, sources the bootstrap could not attach stay listed and unattached, and reloads that change or drop one fail, as long as aliases are not handed on |
| Manager.AliasUsurped | internal/reconcile/manager.go:289-298 | dropping a stale source whose alias another one was booted under detaches that one and leaves it listed |
| Manager.Manager.Bootstrap | internal/reconcile/manager.go:112-135 | each enabled source is attached or listed as failed, and attached exactly if it can be prepared and its own call does not fail; the invariant holds exactly if no stale entry stays unattached |
| Manager.StaleActive | internal/reconcile/manager.go:112-135 | entries surviving an engine restart break the invariant unless attached anew |
| Manager.AnyRun | internal/reconcile/manager.go:89-135 | one bootstrap and any reloads, failing anywhere, end with catalogs equal to active sources plus strays |
| EngineHost.Engine.Start | internal/engine/engine.go:78-223 | a started engine serves exactly the requested address, token and allowlist, on an endpoint no other engine serves; a failed start changes nothing, and an attempt on a served endpoint is counted as a clash |
| EngineHost.Engine.Stop | internal/engine/engine.go:519-537 | the engine is stopped and its endpoint free, whatever the error |
| EngineHost.Engine.RotateToken | internal/engine/engine.go:545-566 | says which failing call makes it fail and when the endpoint still answers; the new token is recorded after it is served, and an endpoint that answers afterwards answers to the recorded token |
| AppRuntime.CollectFilePaths | internal/app/runtime.go:193-210 | collects, source by source in order, the files the next row describes |
| AppRuntime.FilePathsAre | internal/app/runtime.go:193-210 | a path is collected if and only if it is the non-empty path of an enabled sqlite or duckdb source, or that of a duckdb source with `.wal` after it |
| AppRuntime.MergePaths | internal/app/runtime.go:212-227 | the strictly sorted union of the lists without the empty path |
| AppRuntime.MergedAllows | internal/app/runtime.go:62-63 | the merged allowlist holds exactly the non-empty base paths and the files of enabled sources |
| AppRuntime.MergedAgain | internal/app/runtime.go:62-63 | merging merged base paths again changes nothing |
| AppRuntime.AllowlistReadsBack | internal/engine/engine.go:686-686 | the allowlist as printed for the engine reads back as exactly the recorded one |
| AppRuntime.Runtime.Start | internal/app/runtime.go:55-92 | says which failing steps fail it and which sources fail to boot; a started runtime is aligned with its document and allows exactly the requested paths and the files of enabled sources; starting a running one keeps alignment exactly if the base paths merge to the recorded list |
| AppRuntime.Runtime.Boot | internal/app/runtime.go:75-91 | every source is attached or listed as failed, and listed exactly if it cannot be prepared or its own step fails; an unreadable configuration stops the engine |
| AppRuntime.SameCondition | internal/reconcile/manager.go:248-287 | for sources with distinct ids and fingerprints, the condition the runtime uses is the reconciler's own |
| AppRuntime.SourceManager.Reload | internal/reconcile/manager.go:89-97 | the reconciler as the runtime sees it: applied exactly if prepared, admissible and not failed; a failure leaves everything but perhaps one stray |
| Refinement.Reload | internal/reconcile/manager.go:89-97 | the reconciler's own reload meets those clauses for the sources its candidates stand for |
| Refinement.AsSeen | internal/reconcile/manager.go:231-301 | each outcome of a reload over candidates, in terms of sets of sources |
| AppRuntime.Runtime.Reload | internal/app/runtime.go:94-114 | each ending fixes engine, options, document, sources and failure list, and follows from the state before and the steps that fail; a running engine allows exactly the base paths and the files of enabled sources of the recorded document; no endpoint is contested |
| AppRuntime.Runtime.MoveInPlace | internal/app/runtime.go:104-113 | which call failing makes an in-place reload rejected or unrecorded |
| AppRuntime.UnrecordedThenRestored | internal/app/runtime.go:104-191 | an unrecorded reload and a restore after it bring back the document from before both; the failure list stays stale |
| AppRuntime.FailedRebuild | internal/app/runtime.go:104-191 | concrete runs that end unrecorded and then restored, or unrecorded and then without an engine |
| AppRuntime.Runtime.Rebuild | internal/app/runtime.go:119-166 | a failed probe leaves the engine untouched; otherwise the new or the previous configuration runs on the same endpoint and token, or nothing runs; the failing steps decide which |
| AppRuntime.Runtime.LosingTakesTwo | internal/app/runtime.go:144-191 | a rebuild that ends without an engine took two failing steps, if the recorded document can be prepared |
| AppRuntime.Runtime.Probe | internal/app/runtime.go:125-142 | started on a free port with a token of its own; goes through exactly if none of its steps fails; the probe engine is gone afterwards and never contests an endpoint |
| AppRuntime.Runtime.Swap | internal/app/runtime.go:144-165 | which failing steps end it reloaded, restored or lost, with the engine, options, document and sources of each ending |
| AppRuntime.Runtime.Install | internal/app/runtime.go:148-165 | the replacement takes over endpoint and token exactly if none of its steps fails; otherwise the recorded state is as it was with no engine running |
| AppRuntime.Runtime.Restore | internal/app/runtime.go:168-191 | exactly if it can be prepared and no step fails, the recorded document runs again on the recorded options with the live loader and an unchanged failure list; otherwise no engine runs |
| AppRuntime.Runtime.RotateToken | internal/app/runtime.go:282-290 | in any state; after a success recorded and served token agree; a failure changes neither; alignment is kept |
| AppRuntime.Runtime.Stop | internal/app/runtime.go:238-244 | no engine runs; the manager keeps its active set |
| AppRuntime.AnyRun | internal/app/runtime.go:55-191 | in any run, with token rotations at any time, at most the runtime's own engine runs, no endpoint is ever contested, and a started runtime is aligned |
| EngineDatabase.Database.Attach | internal/engine/engine.go:239-310 | all or nothing on catalogs; success, a row left by a failure, the number of calls and the secrets follow from the state before and the calls that fail |
| EngineDatabase.Database.MountAndRegister | internal/engine/engine.go:280-309 | the attach is undone when registering fails; the secret is dropped exactly if the ATTACH fails |
| EngineDatabase.Database.AttachOdbc | internal/engine/engine.go:334-386 | all or nothing on catalogs and handles; succeeds exactly if none of its calls fails, name and id are unregistered and the request is well formed; a failure leaves its row exactly if the object types fail |
| EngineDatabase.WhatIsAttachable | internal/engine/engine.go:334-362 | what an ODBC attach asks for, written out: short lower-case identifiers, only tables and views with names of 1 to 255 characters without NUL, nothing left of the id or the alias |
| EngineDatabase.Database.Detach | internal/engine/engine.go:447-472 | removes exactly the catalog, the row and the handle; succeeds exactly if the alias is attached and the call does not fail |
| EngineDatabase.Database.Stop | internal/engine/engine.go:519-537 | closes every open handle and forgets catalogs, secrets and registry |
| EngineDatabase.AnyRun | internal/engine/engine.go:334-537 | in any run the open ODBC handles are exactly the recorded ones, one per source, and none outlives a stop |
| EngineDatabase.Database.ReplaceOdbc | internal/reconcile/manager.go:274-280 | from the state before and the failing calls: whether the replacement succeeds, leaves a row, and whether the ODBC source comes back |
| EngineDatabase.OneFailingCall | internal/engine/engine.go:239-310 | which single failing call of an attach leaves a row, and which lets it succeed |
| EngineDatabase.OdbcSourceLost | internal/engine/engine.go:370-373 | a run in which one failing ATTACH loses the ODBC source |
| EngineDatabase.BarredName | internal/engine/engine.go:400-421 | in any run without its own attach, detach or a stop, a row keeps its name from every other source and its source from ODBC |
| Quoting.UnquoteDoubled | internal/engine/engine.go:849-849 | scanning undoes doubling for every text and every quote |
| Quoting.ReadsBack | internal/source/odbc/odbc.go:178-178 | a quoted text reads back, with what follows it |
| ConnectionStrings.ConnectionString | internal/source/odbc/odbc.go:185-201 | the loop prints the head and the sorted properties |
| ConnectionStrings.ValueReadsBack | internal/source/odbc/odbc.go:203-210 | every value, braced or plain, reads back |
| ConnectionStrings.ListReadsBack | internal/source/odbc/odbc.go:196-200 | every printed list of pairs reads back |
| ConnectionStrings.TrimRemovesNothing | internal/engine/engine.go:897-897 | no printed connection string ends in a semicolon |
| ConnectionStrings.ConnectionRoundTrip | internal/engine/engine.go:896-905 | for every accepted configuration and any credentials, reading the connection string gives exactly its pairs, then the credentials that are set |
| ConnectionStrings.WhatIsRead | internal/source/odbc/odbc.go:185-201 | pair by pair: DSN or Driver first, then every property under its key with its value and in sorted order, then UID and PWD if given |
| ConnectionStrings.EveryPropertyIsRead | internal/source/odbc/odbc.go:192-200 | no property of the configuration is missing |
| ConnectionStrings.PasswordIsTheGivenOne | internal/source/odbc/odbc.go:78-88 | of what is read, a keyword that upper-cases to PWD is there exactly if a password was given, with that password |
| ConnectionStrings.PlainExactly | internal/source/odbc/odbc.go:203-210 | a value is printed as it is if and only if it is not empty, has no white space at its ends and no semicolon or brace; otherwise in braces |
| ConnectionStrings.WhatIsAccepted | internal/source/odbc/odbc.go:64-108 | what validation accepts, character by character; its test of property keys for braces and semicolons is implied by the others |
| ConnectionStrings.OneSemicolonIsTrimmed | internal/engine/engine.go:896-905 | a connection string may end in one semicolon without changing what is printed |
| SqlText.RemoteSelectReadsBack | internal/source/odbc/odbc.go:173-183 | the remote select reads back to schema and name, or the name for SQLite, for all texts and dialects |
| SqlText.RemoteQuoting | internal/source/odbc/odbc.go:173-183 | backticks for MySQL and MariaDB, double quotes for every other dialect, no schema for SQLite |
| SqlText.ViewReadsBack | internal/engine/engine.go:366-367 | the view statement reads back part by part |
| SqlText.NestedQuotingUndone | internal/source/odbc/odbc.go:151-151 | both layers of quoting are undone in turn |
| SqlText.Normalize | internal/engine/engine.go:827-839 | succeeds exactly if upper-cased keys are allowed and distinct; the error says which fails |
| SqlText.WhatIsAllowed | internal/engine/engine.go:814-826 | which five options both kinds of database have and which belong to one |
| SqlText.CreateSecretStatement | internal/engine/engine.go:810-847 | succeeds exactly if the type is an identifier and keys are allowed and distinct; the text depends on the normalized options alone |
| SqlText.OrderDoesNotMatter | internal/engine/engine.go:829-840 | the normalized options do not depend on the order keys are walked in |
| SqlText.SecretReadsBack | internal/engine/engine.go:840-846 | a printed secret reads back as exactly its name, type and sorted options |
| SqlText.QuoteStringList | internal/engine/engine.go:851-859 | prints the non-empty entries as quoted literals |
| SqlText.StringListReadsBack | internal/engine/engine.go:851-859 | every printed list reads back, whatever its entries hold |
| ConfigStore.Validate | internal/config/config.go:46-79 | accepts exactly the current-version documents with valid sources and unique ids, aliases and references |
| ConfigStore.WhatIsValid | internal/config/config.go:46-79 | a valid document written out, down to the characters of an alias |
| ConfigStore.ContainsSecretField | internal/config/config.go:101-121 | finds a secret-bearing field exactly if some object at some depth has one |
| ConfigStore.WhatIsSecret | internal/config/config.go:104-108 | six names, in any case and with hyphens for underscores |
| ConfigStore.Stores.Save | internal/config/config.go:192-215 | main file old or new after a failure or crash anywhere; its old contents reach the backup first; which failing calls or syncs make it fail, and exactly which lose the last good copy |
| ConfigStore.Stores.Load | internal/config/config.go:133-159 | the document the two files stand for; an absent main file gives the empty document, another version than 0 and 1 and a damaged file without a readable backup give none; only an old main file is rewritten |
| ConfigStore.DamageAfterTwoSaves | internal/config/config.go:150-158 | damage after two saves is answered with the previous document |
| ConfigStore.LoadTwice | internal/config/config.go:133-146 | a second load agrees with the first and rewrites nothing |
| ConfigStore.Stores.Add | internal/config/service.go:21-49 | success, the main file, the credential store and a dangling reference each follow from the state before and the failing calls; it never succeeds on files that cannot be loaded; a single fault leaves no new credential; no dangling reference while syncs work |
| ConfigStore.AddedRefs | internal/config/service.go:37-48 | a reference dangles after an add exactly if the new document is in place and its credential is gone |
| ConfigStore.StoredValueLost | internal/config/service.go:42-46 | a run in which a failed add loses a value stored before |
| ConfigStore.LateSyncDangles | internal/config/config.go:240-248 | a run in which a failed directory sync makes an add leave a dangling reference |
| ConfigStore.LastGoodCopyLost | internal/config/config.go:204-214 | a run in which a failed save loses the last good copy |
| ConfigStore.Stores.Remove | internal/config/service.go:67-99 | no dangling reference whatever fails or crashes; success and the document left behind follow from the state before and the failing calls; when nothing fails, succeeds exactly if the source is there and its credential can be deleted |
| ConfigStore.Stores.OneFaultIsUndone | internal/config/service.go:85-97 | with syncs working, a single fault never leaves the document without a source whose removal failed |
| ConfigStore.AnyEdits | internal/config/service.go:21-99 | no run of edits, failing and crashing anywhere, leaves a dangling reference while directory syncs work, or an unreadable main file |
| ConfigStore.NewRefIsUnused | internal/config/config.go:66-71 | validation makes an added source's reference new |
| ConfigStore.RemovedRefIsUnused | internal/config/config.go:66-71 | no other source shares a removed source's reference |
| Lifecycle.StepKeepsInv | service.go:75-157 | every step of every thread keeps the two-lock invariant |
| Lifecycle.OperationsNeverOverlap | service.go:75-157 | runtime calls never overlap; the phase is transient exactly while its operation is in flight |
| Lifecycle.RuntimeCallsAreInOrder | service.go:105-115 | the runtime is reloaded only after a successful start with no stop begun since, and started only while it has no engine |
| Lifecycle.OperationEffects | service.go:87-103 | what each operation leaves, compared with the status it found: a failed reload changes only the last error, a failed start or stop leaves failed |
| Lifecycle.RefusedOperationChangesNothing | service.go:79-82 | which phases let which operation through; a refused one changes nothing |
| Lifecycle.OneUnavailableSourceDegrades | service.go:95-101 | after a success the service is degraded if and only if some source is unavailable |
| Lifecycle.ReportsAreHonest | service.go:168-183 | a report shows a transient phase exactly if that operation was in flight; a ready or degraded one is judged by the sources it asks for, any other is given as seen |
| Lifecycle.ReadyMeansRunning | service.go:105-132 | ready or degraded means a running engine if and only if no reload lost it without a later start, reload or restore bringing one back |
| Lifecycle.ReadyWithoutEngine | service.go:120-125 | a run with one lost reload: ready without an engine, until the next reload brings one back |
| Pairing.StepKeepsInv | internal/pairing/pairing.go:104-166 | every step of every goroutine keeps the invariant |
| Pairing.AtMostOneToken | internal/pairing/pairing.go:135-152 | at most one request ever holds the token |
| Pairing.DoneClosesOnce | internal/pairing/pairing.go:166-166 | `done` is closed at most once |
| Pairing.TokenEndsTheExchange | internal/pairing/pairing.go:88-166 | once the token is out or the timer went off, `done` is closed or the next `finish` closes it; the timer never goes off early |
| Pairing.EndsForAReason | internal/pairing/pairing.go:84-166 | an exchange ends only after the token, after expiry, or because it was closed |
| Pairing.TokenWasEarned | internal/pairing/pairing.go:135-151 | the token went to an allowed-origin POST that found the challenge unused, unexpired and the nonce right in one critical section |
| Pairing.DecisionIsExact | internal/pairing/pairing.go:136-151 | the winner is the first to arrive in time with the right nonce; later requests conflict; others consume nothing |
| Pairing.RefusalsAreExact | internal/pairing/pairing.go:136-148 | conflict, gone and unauthorized, each exactly when, in the order of the checks |
| Pairing.FilterIsExact | internal/pairing/pairing.go:105-134 | the answers before the lock; exactly a well-formed POST from an allowed origin reaches the decision |
| Pairing.OnlyTheTokenConsumes | internal/pairing/pairing.go:149-151 | at any point of a run the challenge is consumed exactly if an earlier decision found it unused and handed out the token |
| Pairing.ConsumedStays | internal/pairing/pairing.go:135-152 | a consumed challenge stays consumed |
| JsonTrees.SomewhereByChildren | internal/policy/policy.go:152-184 | a property holds on some path exactly if it holds of the root or on a path below a child |
| Policy.InspectTree | internal/policy/policy.go:150-186 | accepts exactly the trees with no bad node at any depth, in any field order |
| Policy.WhatIsBad | internal/policy/policy.go:160-180 | which nodes are bad, field by field: calls of five families and seven further functions, unlisted table functions, and base tables with a slash, `://` or a file suffix in one of three names |
| Policy.Visit | internal/policy/policy.go:199-215 | adds exactly the catalogs of the subtree |
| Policy.CollectSources | internal/policy/policy.go:196-223 | the strictly sorted list of exactly the catalogs base tables name at any depth |
| Backoff.Backoff.Failure | internal/source/backoff.go:29-47 | the delay for the true number of failures in a row, although the counter stops at 63; no step overflows 64 bits |
| Backoff.Backoff.Ready | internal/source/backoff.go:51-55 | forgets the failures of one source only |
| Backoff.CapLosesNothing | internal/source/backoff.go:33-35 | the capped and the unbounded count give the same delay |
| Backoff.HalfwayReached | internal/source/backoff.go:37-42 | from half the maximum on, the next delay is the maximum |
| Backoff.DelaysNeverDecrease | internal/source/backoff.go:36-46 | delays grow up to the maximum until the source recovers |
| Backoff.SourcesAreIndependent | internal/source/backoff.go:14-14 | a source's count depends on its own events alone |

## Left out

- Manager.Manager.Apply: requires the invariant on entry apart from stale entries, so it says nothing about reloads after a staging alias collided with a configured one; where another source uses the alias of a stale entry that is changed or dropped, it describes only reloads that remove sources.
- AppRuntime.SourceManager.Reload: the reconciler by its contract, for configurations whose credentials do not change (`Refinement.Reload` has the same condition); which source a failed staged cleanup concerns is left open.
- Lifecycle.StepKeepsInv: threads and locks are steps on values, so the start time and the capability list of the status, and memory aliasing between snapshots, are not captured.
- Pairing.StepKeepsInv: goroutines are steps on values; HTTP headers and the moment the listener closes are not captured.
- EngineDatabase.Database.Attach: source and object status rows are kept only as far as they decide a later insert.
- ConfigStore.Stores.Load: reading an existing file does not fail, and recovery from a backup is outside the no-dangling claim, because an old backup may name a credential that is gone.
- Temporary files and file permissions: replacing a file is one step, syncing its directory another.
- DuckDB, Quack, the SQL parser, the regular expressions and the decision order in `Evaluate`: the policy starts from a decoded tree.
- Decoding source options from bytes: whether they decode to an object without secret fields enters document validation as a function.
- Adapters' own health, posture and metadata queries, and the detach some of them do after a failed check: the reconciler sees them as a failed attach.
- Command line, control socket, doctor, release tools and platform credential stores: input and output around the core.
- Liveness: that locks are handed on and timers fire.
