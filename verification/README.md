# Incuba cloud panel: verified model

A Dafny model of the parts of the panel whose small algorithms carry a guarantee over whole runs, with proofs of those guarantees.

- **Pip requirement fields.** `Text`, `Requirements` and `Replacing` model a field as its lines, some of them conflict markers of five lines, and the parser that reads it back. `Merge` holds `merge_pip_requirements` as the loop it is, proved equal to a fold over verdicts; `Reconcile` and `MergeTheorems` show that on a tended field the fold comes to a closed form, package by package, in what the manifest asks of it, once or many times; `MergePromises`, `MergeAgain` and `MergeLimits` hold what follows and where it stops; `Resync` is a deploy's whole chain of merges, taken apart into what it does to each package, and `ResyncAgain` the same chain repeated; `Sync`, `SyncConverges` and `SyncLimits` compare and reconcile an instance with its project. `Order` is the order `sorted` puts names in.
- **The executor.** `Executor` holds the step loop, the outcome's errors, the restore's plan and the capped log, in a class with the executor's own fields. `RunProtocol` is the closing protocol of `run` as a state machine: polling loop, owned task, cancel flag, with an event wherever the task awaits; `RunOutcome` says which outcome hook a run gets, and `RunEndings` what a stop, an exception and a verdict each lead to.
- **Alerts.** `Alerts` holds rows, transactions on snapshots and the unique index; `AlertSafety` proves what every interleaving keeps; `AlertTables` holds `raise_alert` and `resolve_alert` over the tables, with that invariant; `Suspicion` is the counter that confirms a measurement first; `AlertHistory` puts counter and alert together.
- **Smaller cores.** `Probe` (direct-path probe), `Terminal` (output buffer), `Upload` (chunked restore upload), `Manifest` (bounded tree walk), `RestoreSpace` (disk arithmetic).

## What the theorems take for granted

A field is *tended* when its markers begin their line and state a readable requirement, both sides of a marker name one package, no other line holds the head of a marker, and each package is stated once. Lines with comments or blanks around them are allowed. The theorems on the merge are about tended fields and manifests without a marker's head in them, packages named once or any number of times, with any repository, with or without provenance. That a field is tended is an assumption: nothing is claimed of the others. What `Reconcile.Asks` lists is all a manifest asks of one package, in order.

Where the code's own documentation promises more than the code does, the model follows the code:

- A requirement line with a comment or with blanks around it is never replaced: its conflict is reported but not marked, and an update of it is recorded but not made. `ConflictsExactly`, `ReportsAreDetected` and `ProvenanceStaysTruthful` say exactly when; a re-sync of the same manifest then records the update again (`MergeAgainChangesNothing`, `CommentedLineIsNotUpdated`).
- A package the manifest names more than once, under two environment markers for one, or in two `git+` lines, can be claimed in a form the field does not state, reported in conflict with no marker, or taken from the operator: a line nobody owns is adopted and overwritten by one merge when it is asked for first as it stands and last in another way. `NewPackage` and `UnownedLineIsTakenIff` say exactly when; `NobodysLineIsStolen`, `MissedExactly` and `OnceNamedSettles` are what holds of manifests that name each package once.
- A re-sync repeated may change the field again: `ResyncAgainIff` says exactly when, in terms of the field, the owners and the asks; `RepeatedChainDisputes` and `RepeatedChainRewrites` are its two cases.
- A sync leaves a conflict it was given a winner for when the losing line is not in its field as the comparison shows it, and no other (`SyncLeavesTheRest`).
- An ordinary exception from the transport's teardown, once a person stopped the run, lets `on_abort` close it before `on_cancelled_running` does. Those are the only runs that two hooks close (`ExactlyOneHookCloses`).
- Sweeping stale suspicions is harmless exactly for windows of at most a day (`SweepsAreSafeIff`).
- An upload finished without a total may be any part of the archive (`FinishWithoutTotalTakesAnyPrefix`).
- An empty archive can pass the bound of a download and fail the check (`EmptyArchiveAgreesIff`).
- The deploy gate looks for the head of a marker only, so a stray one closes it with no conflict to show (`StrayHeadClosesGate`).

## Model

| member | source | states |
|---|---|---|
| `Text.RawReadsBack` | incubacloud/models/_repo_requirements.py:199-205 | A specification read from any line reads back as itself, name and all. |
| `Text.StripKeepsReq` | incubacloud/models/_repo_requirements.py:199-205 | Blanks around a line change nothing of what is read from it. |
| `Text.ReadingIs` | incubacloud/models/_repo_requirements.py:199-205 | Which lines are requirements, and where they are cut: blanks, the specification, blanks, and the first `#` or the end; a requirement exactly when a name's character comes first. |
| `Text.NameIs` | incubacloud/models/_repo_requirements.py:204-205 | The name is the specification's own beginning, as far as letters, digits, `_`, `.` and `-` go, with A to Z turned into a to z and nothing else changed. |
| `Requirements.SegmentsPrintBack` | incubacloud/models/_repo_requirements.py:73-79 | Cutting any field at its markers loses nothing: printing the pieces gives the field. |
| `Requirements.CutsWhere` | incubacloud/models/_repo_requirements.py:73-79 | Of any field: a marker is cut off exactly where the head stands somewhere on a line, the separator is the third and the tail begins the fifth, at the first head on the line, and into these parts. |
| `Requirements.PrintParsesBack` | incubacloud/models/_repo_requirements.py:73-79 | Printed markers are the parsed markers: printing canonical items and cutting the text gives the items. |
| `Requirements.DetectPipConflicts` | incubacloud/models/_repo_requirements.py:226-244 | The loop lists, in order, one conflict for each marker with something to read on its existing side. |
| `Requirements.FoundSays` | incubacloud/models/_repo_requirements.py:226-244 | What is detected of any marker: its package and its four texts without the blanks around them, if its existing side is a requirement. |
| `Requirements.DetectedConcat` | incubacloud/models/_repo_requirements.py:231-244 | Conflicts are listed marker by marker, in the order of the field. |
| `Requirements.GateIs` | incubacloud/models/_repo_requirements.py:221-223 | The gate is closed exactly when the head of a marker stands anywhere on any line. |
| `Requirements.BuildPkgMap` | incubacloud/models/_repo_requirements.py:257-281 | Both passes: a marker's entry wins over a clean line, the last marker and the first clean line of a package count. |
| `Requirements.PkgMapSays` | incubacloud/models/_repo_requirements.py:257-281 | Of any field: the last marker of a package counts, or else the first line, or beginning of a marker's line, that states it, or else it has no entry. |
| `Requirements.PkgMapIsItems` | incubacloud/models/_repo_requirements.py:257-281 | On a tended field that map is, package by package, the entry of the one item that states it. |
| `Replacing.ReplaceLineAt` | incubacloud/models/_repo_requirements.py:249-254 | Replacing a line that names a clean line's package touches that item if it is the very line, and nothing otherwise, whatever the markers around it hold. |
| `Replacing.ReplaceMarkerAt` | incubacloud/models/_repo_requirements.py:369-390 | Replacing a marker's text in place touches that marker and no other. |
| `Replacing.ReplacesFirst` | incubacloud/models/_repo_requirements.py:249-254 | Of any field: the first line that is exactly the old one is replaced, and no other. |
| `Replacing.ReplacesFirstBlock` | incubacloud/models/_repo_requirements.py:381 | Of any field: the first occurrence of the old block is replaced, and no other; what stands around it on its lines stays. |
| `Merge.MergePipRequirements` | incubacloud/models/_repo_requirements.py:286-457 | The loop over text, package map, source map and lists returns what the fold of verdicts over the manifest gives, `removed` in order. |
| `Merge.ReqsConcat` | incubacloud/models/_repo_requirements.py:345-350 | A manifest's requirements are those of its lines, line by line and in order. |
| `Reconcile.Progresses` | incubacloud/models/_repo_requirements.py:345-426 | After any part of any manifest, the text prints items each in the closed form of its package's asks, and both maps hold each package's closed form. |
| `Reconcile.KnownSnoc` | incubacloud/models/_repo_requirements.py:352-426 | The closed form of what the maps hold of a package after its asks is the loop's step, repeated, from any entry and owner. |
| `MergeTheorems.MergeReconciles` | incubacloud/models/_repo_requirements.py:286-457 | The merged field parses into the reconciled items; every list is the verdicts in manifest order; `removed` is, in order, what the repository owns and no longer names. |
| `MergePromises.NothingLost` | incubacloud/models/_repo_requirements.py:345-431 | Every item survives in its place; a clean line ends up rewritten exactly when it stands whole, is the merging repository's by its owner or by being asked for first, and is asked for last in another way; a disputed one becomes the existing side of a marker; if lines are added, exactly the empty lines at the end go, else none; the packages are the union of both sides. |
| `MergePromises.AddedInOrder` | incubacloud/models/_repo_requirements.py:352-356 | The lines added are the first asks of the packages the field does not state, each once, in manifest order. |
| `MergePromises.ListsAreInOrder` | incubacloud/models/_repo_requirements.py:369-426 | Updates and conflicts are listed in the order of the requirements they are about. |
| `MergePromises.FinalEntry` | incubacloud/models/_repo_requirements.py:345-431 | What the merged field states of each package, in closed form from its entry, its owner and its asks. |
| `MergePromises.ProvenanceStaysTruthful` | incubacloud/models/_repo_requirements.py:460-481 | From a source map backed throughout, pruning after a merge drops exactly the packages in conflict and those that drift: the repository's, asked for last not as stated, with no whole line to change. |
| `MergePromises.UpdatesAre` | incubacloud/models/_repo_requirements.py:392-401 | A package is recorded as updated exactly when it is the repository's and some ask differs from what is stated, or first asked. |
| `MergePromises.ReportsAre` | incubacloud/models/_repo_requirements.py:369-426 | It is reported in conflict exactly when some ask differs and it is not the repository's. |
| `MergePromises.ShowsIsInConflict` | incubacloud/models/_repo_requirements.py:226-244 | What detection returns names exactly the packages whose item is a marker. |
| `MergePromises.ConflictsAreReported` | incubacloud/models/_repo_requirements.py:369-426 | The packages detected in conflict after a merge are those detected before it and those reported whose line the field had. |
| `MergePromises.ConflictsExactly` | incubacloud/models/_repo_requirements.py:403-426 | A package is detected in conflict after a merge exactly when it was before, or a whole line of it that is not the repository's is asked for in another way. |
| `MergePromises.RemovedIsOnlyReported` | incubacloud/models/_repo_requirements.py:433-442 | A package the manifest dropped is reported exactly when the repository owns it, in order, and neither its entry nor its owner changes. |
| `MergePromises.DetectedClosesGate` | incubacloud/models/_repo_requirements.py:221-244 | On any field whatever, a conflict that can be detected closes the deploy gate. |
| `MergeAgain.MergeAgainChangesNothing` | incubacloud/models/_repo_requirements.py:286-457 | Merging the same manifest into the merge's own result never changes owners and adds and adopts nothing; it changes no text exactly when every new package is asked for alike (first and last with provenance, throughout without), and updates nothing exactly when nothing of the repository's is asked for in another way than stated. |
| `MergeAgain.ReportsAreDetected` | incubacloud/models/_repo_requirements.py:226-244 | A reported conflict is detected in the result, with the same sides, exactly when its package was in conflict already or its line is in the field, and its ask is the last that differs. |
| `MergeAgain.GateIsDetection` | incubacloud/models/_repo_requirements.py:221-244 | When only markers hold a marker's head and each states a requirement, the gate is closed exactly when a conflict is detected, packages stated twice included. |
| `MergeLimits.NewPackage` | incubacloud/models/_repo_requirements.py:352-431 | A package the field does not state is stated as first asked; with provenance the last ask is claimed, and backed exactly when it is the first; without, a conflict is reported exactly when some ask differs; none is shown. |
| `MergeLimits.UnownedLineIsTakenIff` | incubacloud/models/_repo_requirements.py:358-401 | A whole line nobody owns is overwritten exactly when that line is asked for first and another last; updates are recorded exactly when some later ask differs; the repository is recorded as its owner, with the last ask, exactly when the line is asked for first. |
| `MergeLimits.NobodysLineIsStolen` | incubacloud/models/_repo_requirements.py:392-426 | With each package named once, a clean line is rewritten exactly when its recorded owner is the merging repository, it stands whole, and another is asked for, which is then recorded. |
| `MergeLimits.MissedExactly` | incubacloud/models/_repo_requirements.py:392-401 | With each package named once, an update finds no line exactly when the merge claims what the field does not come to state. |
| `MergeLimits.OnceNamedSettles` | incubacloud/models/_repo_requirements.py:345-457 | With each package named once, a second merge changes no text, and repeats an update exactly when the first missed it. |
| `MergeLimits.TidyFieldsMissNothing` | incubacloud/models/_repo_requirements.py:249-254 | When every clean line is the requirement alone, the merge claims what the field does not state of new packages only: those asked for last in another way than first. |
| `MergeLimits.TidyFieldsMarkEveryReport` | incubacloud/models/_repo_requirements.py:403-426 | And a package is detected in conflict exactly when it was, or is stated and reported. |
| `MergeLimits.CommentedLineIsNotMarked` | incubacloud/models/_repo_requirements.py:403-426 | A line with a comment: a conflict reported, none detected. |
| `MergeLimits.CommentedLineIsNotUpdated` | incubacloud/models/_repo_requirements.py:392-401 | The same line owned by the repository: an update recorded, not made, and recorded again by the next merge. |
| `MergeLimits.TwiceNamedIsMisclaimed` | incubacloud/models/_repo_requirements.py:352-431 | A new package named twice: the second line is claimed and recorded, the first is written. |
| `MergeLimits.TwiceNamedIsNotMarked` | incubacloud/models/_repo_requirements.py:352-431 | Without provenance: a conflict reported, none detected. |
| `MergeLimits.TwiceNamedTakesTheLine` | incubacloud/models/_repo_requirements.py:358-401 | An operator's line, named as it stands and then in another way: adopted and overwritten by one merge. |
| `MergeLimits.StrayHeadClosesGate` | incubacloud/models/_repo_requirements.py:221-244 | A marker's head alone closes the gate with nothing to detect. |
| `Resync.UnownedSurvives` | incubacloud/models/_repo_requirements.py:286-457 | One merge keeps what a line nobody owns states, and gives it no owner, unless it asks first for that very line. |
| `Resync.OperatorLineSurvives` | incubacloud/models/deploy_instance_executor.py:1389-1414 | Over any chain of merges an operator's line is never overwritten, until a manifest asks first for just that line. |
| `Resync.PackagesSurvive` | incubacloud/models/deploy_instance_executor.py:1389-1414 | After any chain of merges the packages are exactly those of the field and of every manifest. |
| `Resync.ChainIsTurns` | incubacloud/models/deploy_instance_executor.py:1389-1414 | What a chain makes of a package is what the manifests' asks for that package make of it in turn: packages never meddle with one another. |
| `ResyncAgain.PackageSettlesIff` | incubacloud/models/deploy_instance_executor.py:1389-1414 | A second round of a chain leaves a package as the first did exactly when it is not restless: not new and asked for in two ways by the first that asks, the later ones asking only for the first; nor a whole line that its owner asks for last in another way, after others asked for it as it was, the later ones asking only for the new one. |
| `ResyncAgain.ResyncAgainIff` | incubacloud/models/deploy_instance_executor.py:1389-1414 | A resync repeated changes neither text nor owners exactly when no package is restless, which the field, the owners and the asks tell before any merge. |
| `ResyncAgain.RepeatedChainDisputes` | incubacloud/models/deploy_instance_executor.py:1389-1414 | Two repositories and one line: the first resync rewrites it, the second puts it in a marker. |
| `ResyncAgain.RepeatedChainRewrites` | incubacloud/models/deploy_instance_executor.py:1389-1414 | One repository and a new package asked for in two ways: the first resync writes one, the second the other. |
| `Sync.ParseDepLines` | incubacloud/models/_repo_requirements.py:818-838 | The loop maps each key to its last line outside markers, stripped. |
| `Sync.KeyIs` | incubacloud/models/_repo_requirements.py:829-837 | A blank line and a comment have no key; a requirement's key is its package, any other line's the line in lower case, character by character. |
| `Sync.LastLineCounts` | incubacloud/models/_repo_requirements.py:827-837 | The last line of a key counts. |
| `Sync.CompareDeps` | incubacloud/models/_repo_requirements.py:882-911 | The loop over the sorted keys files each key in the list its two lines put it in. |
| `Sync.CompareSays` | incubacloud/models/_repo_requirements.py:882-911 | What the four lists hold: each key of either side in exactly the list its lines put it in, and nothing else. |
| `Sync.CompareInOrder` | incubacloud/models/_repo_requirements.py:889-904 | Each of the four lists is in the order of its keys, each key once. |
| `Order.BeforeIs` | incubacloud/models/_repo_requirements.py:889 | That order: at the first place two names differ, the lesser character, or the end, comes first. |
| `Sync.ApplySync` | incubacloud/models/_repo_requirements.py:966-1014 | Both records' fields after pushes, pulls and choices, from their values before. |
| `SyncConverges.LosingIs` | incubacloud/models/_repo_requirements.py:992-1014 | The choices, applied one after another, change each losing line where it stands whole and no other line. |
| `SyncConverges.SyncLeavesTheRest` | incubacloud/models/_repo_requirements.py:882-1014 | Whatever lines are pushed and pulled and whatever names are chosen, the comparison after lists exactly what was not selected, and the conflicts whose losing line was not there to replace; a decided key holds the winner's line on both sides, every other its own or the line brought to it. Each field is its own lines, in place, untouched or won, then the lines brought to it; only the empty lines at the end are gone, all of them, and none if nothing was brought. No marker is written. |
| `SyncConverges.ChoicesSeeWhatWasPushed` | incubacloud/models/_repo_requirements.py:981-1014 | Choices apply to the fields after the pushes: a pushed line of the user's own wording loses to the instance's when that is to win. |
| `SyncConverges.FullSyncConverges` | incubacloud/models/_repo_requirements.py:882-1014 | A full sync leaves nothing on one side only, and a conflict exactly when its losing line was not there to replace. |
| `SyncLimits.IndentedLineStaysInConflict` | incubacloud/models/_repo_requirements.py:992-1014 | A losing line with a blank before it: the full sync leaves the conflict. |
| `Executor.RanIff` | incubacloud/models/abstract_executor.py:817-865 | A step runs exactly when no earlier step stopped the run. |
| `Executor.RunsIff` | incubacloud/models/abstract_executor.py:843-864 | The same, written out: every earlier step exited zero, or with a code it accepts, or is not one to stop the run. |
| `Executor.PutSays` | incubacloud/models/abstract_executor.py:846 | A label's entry takes its last exit and keeps its place; a new label goes to the end. |
| `Executor.OutcomeErrorsAre` | incubacloud/models/abstract_executor.py:886-894 | A run has no errors exactly when the judge found none and nothing was skipped; the judge's own errors and exceptions stand. |
| `Executor.RanThenSkipped` | incubacloud/models/abstract_executor.py:817-865 | With distinct labels, what ran followed by what was skipped is the whole list in order, each result its own exit. |
| `Executor.RestoreNeverDestroysUnrestored` | incubacloud/models/backup_restore_executor.py:61-94 | The database is dropped, created or imported exactly when every step from the restore up to it succeeded. |
| `Executor.RestoreSucceedsIff` | incubacloud/models/backup_restore_executor.py:61-104 | The restore has no errors exactly when every step succeeded, an unchecked start apart: skipped steps never end in success. |
| `Executor.FlushExtends` | incubacloud/models/abstract_executor.py:1360-1413 | A flush takes the log of a stream to the log of the stream with the flushed lines at its end. |
| `Executor.CapIgnoresBatches` | incubacloud/models/abstract_executor.py:1360-1413 | However the stream is cut into flushes, the rows are its first 20,000 lines, then one marker exactly if there were more; the counts returned sum to the rows. |
| `Executor.LogIs` | incubacloud/models/abstract_executor.py:1376-1413 | Row by row: the first 20,000 lines, each redacted and with its source, and one marker after them if there are more. |
| `Executor.SystemIsOwnMessage` | incubacloud/models/abstract_executor.py:1388-1404 | Watchers are told of a system message exactly when one was among the lines stored, or the cap's marker was. |
| `Executor.Executor.FlushLogs` | incubacloud/models/abstract_executor.py:1360-1413 | The loop empties the buffer and leaves the log of one more flush; its count is the rows it created. |
| `Executor.Executor.RunSteps` | incubacloud/models/abstract_executor.py:817-865 | The loop records the exits of the steps that ran, in the shared results too, and returns the labels of the others. |
| `RunProtocol.NextKeeps` | incubacloud/models/abstract_executor.py:607-795 | Every event keeps the invariant that ties hooks started, returned and raised to where task and loop are. |
| `RunProtocol.AtMostOneHookReturns` | incubacloud/models/abstract_executor.py:621-705 | At any moment of any interleaving at most one closing hook has returned, one more only after a torn teardown; no stop cuts a hook off. |
| `RunProtocol.ExactlyOneHookCloses` | incubacloud/models/abstract_executor.py:733-795 | If no hook raises, an attempt that ends and will not be retried was closed by exactly one hook (two exactly after a torn teardown); one to be retried by none, unless its outcome was dispatched. |
| `RunProtocol.EveryRunCanEnd` | incubacloud/models/abstract_executor.py:621-705 | No interleaving is stuck: from any state a run reaches it can go on to an end, within ten events and one a step. |
| `RunEndings.StopIsHonoured` | incubacloud/models/abstract_executor.py:652-694 | From any state a run reaches before its outcome, the next poll reads a stop asked for; the task is cancelled and `on_cancelled_running` closes the run, alone. |
| `RunEndings.PollElse` | incubacloud/models/abstract_executor.py:652-659 | Once a hook has started, or if nobody asked, a poll changes nothing. |
| `RunEndings.FaultIsAborted` | incubacloud/models/abstract_executor.py:756-795 | An ordinary exception before the outcome: `on_abort` closes the run, and a stop does not cut it off. |
| `RunEndings.RetryClosesNothing` | incubacloud/models/abstract_executor.py:756-795 | An exception that is retried before the outcome: no hook runs. |
| `RunEndings.RaisedStopIsClosed` | incubacloud/models/abstract_executor.py:685-694 | A stop the task raises itself is closed by `on_cancelled_running`. |
| `RunEndings.StepsGoOn` | incubacloud/models/abstract_executor.py:840-865 | Each exit is recorded, and leads to the next step, to the verdict after the last, or to one that skipped the others. |
| `RunEndings.FailureCloses` | incubacloud/models/abstract_executor.py:896-945 | Errors or skipped steps: `on_failure` closes the run, which fails. |
| `RunEndings.SuccessCloses` | incubacloud/models/abstract_executor.py:896-945 | No errors and every step run: `on_success` closes the run, which succeeds. |
| `RunEndings.RaisingHookIsAborted` | incubacloud/models/abstract_executor.py:924-938 | An outcome hook that raises is followed by `on_abort`, or by no hook when it is retried. |
| `RunEndings.RaisingCloserIsLogged` | incubacloud/models/abstract_executor.py:1063-1110 | What `on_abort` or `on_cancelled_running` raises does not take the place of what ended the run. |
| `RunEndings.TeardownTakesOver` | incubacloud/models/abstract_executor.py:749-795 | What a teardown raises does, and is closed by `on_abort` unless a hook closed the run before. |
| `RunEndings.StopOutlastsTeardown` | incubacloud/models/abstract_executor.py:675-694 | A stopped run stays stopped if its teardown raises what would be retried, or another stop. |
| `RunProtocol.HooksMeanWhatTheySay` | incubacloud/models/abstract_executor.py:896-945 | `on_success` starts only when every step ran; `on_cancelled_running` only in a run that ends stopped. |
| `RunProtocol.TornTeardownClosesTwice` | incubacloud/models/abstract_executor.py:675-694 | A run in which the teardown of a stop raises: `on_abort` and then `on_cancelled_running` close it. |
| `RunOutcome.OutcomeIsTheVerdict` | incubacloud/models/abstract_executor.py:867-945 | `on_success` only after a verdict without errors, `on_failure` only after one with errors or a step that cut others off, never both. |
| `RunOutcome.RestoreClosesWell` | incubacloud/models/backup_restore_executor.py:61-104 | In any interleaving a restore is closed as a success only when all its steps ran and succeeded, an unchecked start apart. |
| `Alerts.DomainIsIndex` | incubacloud/models/cloud_alert.py:227-304 | The search finds exactly the active rows that hold the index entry an insert would take. |
| `AlertSafety.EntryIs` | incubacloud/models/cloud_alert.py:244-264 | Two alerts share an index entry exactly when both are active, not of failed jobs, and about one instance, or one host when there is none, and one key, with at least one of these given. |
| `Alerts.RefreshKeepsIdentity` | incubacloud/models/cloud_alert.py:403-418 | A refresh, even one that moves an instance to another host, keeps the index entry. |
| `AlertSafety.RaiseRefreshes` | incubacloud/models/cloud_alert.py:379-435 | A call that finds an alert writes its message and level on it, and where it runs if it says so; it remembers that the alert was critical, and keeps what it is about. A cancelled job's call does nothing. Nothing else changes in the transaction's view. |
| `AlertSafety.RaiseFiles` | incubacloud/models/cloud_alert.py:436-468 | A call that finds none files, once confirmed, an alert with what it says, its instance's project and no empty key; or waits, or loses the race, and changes nothing. |
| `AlertSafety.DismissSays` | incubacloud/models/cloud_alert.py:490-512 | A refused dismissal is forgiven exactly when the row was dismissed or gone meanwhile, and fails the transaction when the alert is still active. |
| `AlertTables.Database.RaiseAlert` | incubacloud/models/cloud_alert.py:331-468 | Against the tables: refresh the row the snapshot shows, file nothing for a cancelled job or a suspicion, else insert and let the index decide; the invariant of the tables is kept. |
| `AlertTables.Database.ResolveAlert` | incubacloud/models/cloud_alert.py:470-512 | Dismisses the row found; one dismissed by someone else meanwhile is no failure and changes nothing; the invariant of the tables is kept. |
| `AlertSafety.AfterKeeps` | incubacloud/models/cloud_alert.py:227-468 | Every begin, raise, dismissal, commit and rollback keeps the invariant of rows, snapshots and unfinished writes. |
| `AlertSafety.AtMostOneActive` | incubacloud/models/cloud_alert.py:227-304 | However producers on stale snapshots interleave, no search of what is committed finds two alerts of one identity. |
| `AlertSafety.LoserKeepsTheWinner` | incubacloud/models/cloud_alert.py:443-468 | A producer that loses the race changes nothing, and another's row with that identity is there for a search to find. |
| `AlertHistory.RaisesKeepOneAlert` | incubacloud/models/cloud_alert.py:379-435 | However often an alert is raised, call after call, there is one: it says what the last call said, where the last one said it runs, and whether it ever was critical. |
| `AlertSafety.RefreshesKeepTheAlert` | incubacloud/models/cloud_alert.py:382-421 | Over any number of refreshes an alert keeps its identity and is still found by each of their calls. |
| `Suspicion.Suspicions.Sight` | incubacloud/models/cloud_alert.py:1149-1188 | One sighting: the row it leaves and whether it confirms; other targets' rows stay. |
| `Suspicion.Suspicions.Gc` | incubacloud/models/cloud_alert.py:1195-1199 | Exactly the rows not seen for a day go. |
| `Suspicion.ConfirmsIffRun` | incubacloud/models/cloud_alert.py:1149-1193 | A sighting confirms exactly when it ends a run of n with gaps within the window and no clear or confirmation between. |
| `Suspicion.SweepsChangeNothing` | incubacloud/models/cloud_alert.py:1195-1199 | Taking every sweep out of a history changes no confirmation, for windows of at most a day. |
| `Suspicion.SweepsAreSafeIff` | incubacloud/models/cloud_alert.py:1135-1138 | Sweeps are harmless for every history exactly when the window is at most 86,400 seconds. |
| `AlertHistory.OpenIffRun` | incubacloud/models/cloud_alert.py:395-512 | Over any history of raises, resolves, dismissals and sweeps of one target, an alert is open exactly when, since it was last clear or dismissed, the target was seen n times, each within the window of the one before. |
| `Probe.CountersAreHistory` | incubacloud/models/_direct_probe.py:37-84 | Saturating counters, latch and time of entry are those of the full history; a latched DNS failure implies failing. |
| `Probe.EntersIff` | incubacloud/models/_direct_probe.py:71-77 | Failing is entered exactly on a DNS failure or a second counted failure in a row. |
| `Probe.LeavesIff` | incubacloud/models/_direct_probe.py:54-70 | Failing is left exactly when the last two counted probes were good, half an hour passed, and a good job probe followed every DNS failure. |
| `Probe.FirstGoodProbeWorks` | incubacloud/models/_direct_probe.py:62-63 | From unknown, a name works exactly from its first good probe. |
| `Probe.ThreeChangesTakeHalfAnHour` | incubacloud/models/_direct_probe.py:8-13 | Of any three changes of state the last comes at least half an hour after the first. |
| `Terminal.Session.AppendOutput` | incubacloud/terminal_session_base.py:176-183 | The buffer stays the tail of the stream: at most 10,000 chunks, at least the last 5,000 or all. |
| `Terminal.Session.ReadOutput` | incubacloud/terminal_session_base.py:147-150 | The loop returns every chunk of the stream after the number exactly when the reader is not behind the buffer. |
| `Terminal.ReadIsSuffix` | incubacloud/terminal_session_base.py:147-150 | A poll returns the whole rest of the stream exactly when the buffer holds it. |
| `Terminal.PollingLosesNothing` | incubacloud/terminal_session_base.py:147-183 | Any event keeps a reader at most 5,000 chunks behind in possession of the stream up to its number, whatever comes next. |
| `Terminal.PollerHasTheStream` | incubacloud/terminal_session_base.py:147-183 | From the start of a session, under any interleaving of appends and polls, a reader that keeps up has the stream, with no gap and no repetition. |
| `Upload.Staged.AppendPart` | incubacloud/controllers/main.py:421-479 | What a part may leave of the file and be answered, on a sound or failing disk. |
| `Upload.Staged.Finish` | incubacloud/controllers/main.py:487-533 | The answer, and that every refusal after the size is read removes the file. |
| `Upload.FinishSays` | incubacloud/controllers/main.py:498-533 | Of any staged file and total, when each answer is given: accepted exactly when the file is not empty, no total was given or it is the file's size, and the restore was enqueued. |
| `Upload.StagedIsPrefix` | incubacloud/controllers/main.py:445-479 | Despite loss, repetition, reordering, oversize and interrupted writes the file is a prefix of the archive within the limit, never shrinks, and every size answered is its own. |
| `Upload.FinishTakesTheWhole` | incubacloud/controllers/main.py:498-511 | With the archive's size as total, finish accepts the whole archive and nothing else. |
| `Upload.FinishWithoutTotalTakesAnyPrefix` | incubacloud/controllers/main.py:505-511 | Without a total it accepts any non-empty part. |
| `Upload.ResumingProgresses` | incubacloud/controllers/main.py:451-479 | On a sound disk, resuming from the size last answered moves the file on by just that part. |
| `Manifest.TooComplex` | incubacloud/github/import_inspector.py:109-116 | The walk refuses a tree exactly when its nodes or its height exceed the limit, visits at most one node over it, and ends. |
| `Manifest.OrderPlaysNoPart` | incubacloud/github/import_inspector.py:109-116 | Trees that differ in the order of children, at any of their nodes, have one size and one height, so one answer. |
| `RestoreSpace.AdmissionIsOneRule` | incubacloud/restore_space.py:166-220 | For archives of a byte or more, the bound admits exactly what the check does not refuse, on one disk or two. |
| `RestoreSpace.RoomIs` | incubacloud/restore_space.py:36-44 | In bytes: five gibibytes stay free, an archive takes twice its size to unpack and its size for each copy, on one disk or each on its own. |
| `RestoreSpace.LandingChangesNoAnswer` | incubacloud/restore_space.py:166-220 | An upload is within the bound before it lands exactly when the check accepts it after. |
| `RestoreSpace.EmptyArchiveAgreesIff` | incubacloud/restore_space.py:166-220 | For an empty archive the two agree exactly when the reserve alone fits. |

## Left out

Requirement fields:

- The regular expression engine. A field is its lines, and `CONFLICT_RE` is read line by line: it matches where a line holds the marker's head, the third line is the separator and the fifth begins with the tail.
- `_replace_whole_line` takes its replacement as a template, so a backslash in a requirement or in a repository's label would be read as an escape: the model inserts the text as it is.
- MergeTheorems.MergeReconciles: assumes a tended field and a manifest without a marker's head, as do the theorems that follow from it. `MergePipRequirements` and its fold cover every field and manifest.
- ResyncAgain.ResyncAgainIff: the repositories of a chain have keys, each its own; `Resync.ChainChangesNothingIff` is about every chain, with the chain's own effect on each package as its condition.
- `_format_source` and `_normalize_url`: the label and the key of a repository are parameters; the label is taken to hold no newline.
- Lower-casing outside ASCII, which only the keys of lines that are no requirement can meet.
- Source map entries that are not of the usual shape (no repository, no specification).
- The apt field of a sync, which is the same code, the repositories' half of `apply_sync`, and the refusal of `compare_instance_project` to compare a field with conflicts: `FullSyncConverges` takes that refusal as its precondition.

Executor:

- Threads and real time: `run` is a state machine whose events are what the task awaits, in any order the event loop allows.
- The loop's own writes to the log and the bus are taken not to raise, and a cancellation to leave the task once its teardown ends.
- `AnsibleExecutor._async_entry`, which does not follow the base class's abort protocol.
- A base class `on_abort`, which does nothing, counts as a hook that returned at once.
- What a hook does, the text of log messages and errors, a step's output, and the time a step takes: exits are given for every step in advance.
- `_mark_success_before_cancel` and `_refresh_host_disk`, which never raise and decide nothing here; publication on the bus.

Alerts:

- Mail, bus and on-call notifications, payloads, audience, the job link, `extra` fields and the times stamped on a row.
- AlertTables.Database.RaiseAlert: a suspicion's answer is a parameter, as are the policy's count and window; `AlertHistory` supplies it, one call at a time.
- AlertHistory.OpenIffRun: each call is a transaction of its own, with the same count, window and message, for an identity the index covers and the only one of its code and target: a suspicion does not carry the key.
- Suspicion.Suspicions.Sight: the race of two first sightings for one row is not modelled: one target's sightings come one after another.
- An alert about a project comes with the project's key, as `_link_target` gives it, and no producer makes up such a key itself.
- AlertTables.Database.ResolveAlert: leaves the suspicion to `Suspicion.Suspicions.Forget`, and dismisses one row, which is all an identity the index covers can have; `job_failed` and alerts about nothing in particular, which may be many, are not covered.
- The database's own waiting: a statement that must wait for another transaction changes nothing and may be tried again.

Others:

- The probe's parsers, its reports and `covered`, which rest on other libraries.
- The terminal's input queue, resizing, timeouts and the reading of the remote end.
- Upload permissions, rate limits, file names and two requests at once for one upload; the size limit is taken not to change during an upload.
- The manifest's byte limit, Python's parser, the evaluation of the literal and the bounded reading of YAML.
- The measurement of disks and the wording of refusals.
