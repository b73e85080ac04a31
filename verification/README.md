# A model of the build cache's core

Mr. Boxington caches build actions: a record per action, objects in a content
addressed store, manifests that predict which actions a task will need, and
adapters that turn a compiler command line into a cache key. This project models
the parts of it whose correctness rests on reasoning across several functions or
processes, and proves what they promise.

Each file holds one module.

| module | what it models |
|---|---|
| `Cache` | digests, action results, optional values and results |
| `ActionSlots` | the claim, lock and re-check protocol on one action record, as a step system of any number of processes |
| `ActionStore`, `StoreAlone` | concurrent stores and eviction sweeps, which use the record only through slots, and what a store undisturbed comes to |
| `ObjectGraph` | the intactness walk and the list of objects a result names, on any object graph |
| `UseTimes` | access times, and the record time that stands for a whole closure |
| `DownloadBudget` | the shared download counter with its compare-and-exchange loops and reservations |
| `Manifests`, `Merging` | the bounded order of predictions in a task manifest, and merging two manifests |
| `Predictions` | one task run: its baseline, its recordings, its local commit |
| `Commits` | any number of runs over one manifest file |
| `Publication` | withholding, precedence over the remote, and the conditional put |
| `ProbeCache` | the remembered answer of `cargo metadata` and its pins |
| `CcParser`, `CcStripping`, `CcKeys`, `CcAdmission` | the C compiler command line parser, removing the caller's dependency flags, what the parsed arguments say about the line, and which lines are admitted |
| `Depfile`, `DepfileReading`, `DepfileRoundTrip` | the make-style dependency list: the loops, what parsing gives on any text, and printing and parsing back |
| `IncludeManifest`, `ManifestText` | include directory listings, their reduction, and the text they are digested as |
| `AssemblerScan` | the chunked scan for assembler input directives |
| `Paths`, `PathKeys`, `PathKeyLaws` | path components, mapped path keys and their laws |
| `Calendar` | the civil calendar arithmetic of two date conversions |

Where the source changes things step by step, the model does too: methods with
loops and classes with fields, proved against specification functions about
which the theorems are then stated. Protocols are step systems, and their
theorems are about every run. Integers are unbounded except where a width
matters: the download counter is a 64-bit word whose subtraction wraps, and the
seconds of a timestamp are computed in signed 64-bit arithmetic that wraps.

A few statements show where the code does less than one might expect.
`ObjectGraph.IntactMayMissOutput`: the intactness walk does not look at captured
compiler output, which the list of named objects does include.
`UseTimes.FreshRecordProvesNothing`: a fresh record says nothing about the age of
its objects, so a store has to walk. `PathKeyLaws.ParentComponentsBreakTheOrder`:
mappings are sorted by the component count of their roots as spelled, so a root
with `..` in it can come before a root nested inside it; matching is deepest
first exactly under `PathKeyLaws.DeepestMatchCondition`. `ProbeCache.EarlyScanMisses`:
configuration is scanned for included files before the moment pins are dated
from; agreement needs the recalling scan not to precede that moment, and
`ProbeCache.ScanGapDecides` says by exactly how much.
`UseTimes.LateMarksDecide`: an object's time is read and set in two calls, so a
walk that stalls in between for more than a refresh interval can set a time back.
`ManifestText.NewlinesHideAChange`: names are joined by newlines, so a newline in
a name can hide a change. `Calendar.FarYearsWrap`: far years wrap around.
`Publication.KnownBaseline` and `UnknownBaseline` give withholding exactly, value
by value; `DepfileRoundTrip.RoundTrip` and `ProbeCache.WindowsMatchTicks` are
equivalences.

## Model

| member | source | states |
|---|---|---|
| `ActionSlots.StepKeepsInv` | crates/mbx-cache-core/src/action_slot.rs:45-172 | every step of every process (open, create, lock, re-check, read, replace, publish, remove, drop) keeps the lock and claim invariant |
| `ActionSlots.RunKeepsInv` | crates/mbx-cache-core/src/action_slot.rs:45-172 | the invariant holds in every state of every run of any number of processes |
| `ActionSlots.HolderKeepsPath` | crates/mbx-cache-core/src/action_slot.rs:45-163 | whoever holds an occupied slot still has the path naming its inode until it acts itself, whatever the others do |
| `ActionSlots.OccupiedIsExclusive` | crates/mbx-cache-core/src/action_slot.rs:45-96 | at no moment do two processes hold occupied slots |
| `ActionSlots.PathChangesOnlyByItsHolder` | crates/mbx-cache-core/src/action_slot.rs:115-163 | a publish only ever fills an empty path; any other change is a replace or removal by the holder of the lock on the inode the path names, and what is put there is an inode nobody was using |
| `ActionSlots.RoundsAreCounted` | crates/mbx-cache-core/src/action_slot.rs:45-96 | a claim under way has lost exactly as many rounds as it counts, and fewer than sixty-four |
| `ActionSlots.ClaimGivesUpExactly` | crates/mbx-cache-core/src/action_slot.rs:45-96 | the check after the lock gives the slot exactly when the path still names what was locked, and ends the claim without one exactly at the sixty-fourth lost round |
| `ActionSlots.ContentIsStable` | crates/mbx-cache-core/src/action_slot.rs:104-163 | a record file is never rewritten in place: what a process has open, or finds at the path, stays as it is, although inode numbers come back |
| `ActionSlots.NoReturn` | crates/mbx-cache-core/src/action_slot.rs:115-163 | a record that stopped being current does not come back under its number while any process has it open |
| `ActionSlots.NumbersComeBack` | crates/mbx-cache-core/src/action_slot.rs:45-163 | otherwise it can: a run in which a removed record's number is taken by the next one |
| `ActionStore.StepKeepsInv` | crates/mbx-cache-core/src/local.rs:579-656 | every step of stores and sweeps keeps what each job knows about the record it holds |
| `ActionStore.RunKeepsInv` | crates/mbx-cache-core/src/local.rs:579-656 | that invariant holds in every state of every run |
| `ActionStore.RefinesSlots` | crates/mbx-cache-core/src/local.rs:579-656 | every run of stores and sweeps, seen at the record, is a run of the slot protocol, so all its theorems apply |
| `ActionStore.WritingIsJustified` | crates/mbx-cache-core/src/local.rs:606-653 | a job about to write holds the current record and found it unusable earlier in the same claim, with the path untouched since |
| `ActionStore.OverwriteIsJustified` | crates/mbx-cache-core/src/local.rs:579-656 | each overwrite replaces the record still current, which that process found unparseable, not intact or (keeping mode) not restorable in the same claim; afterwards its own result is current |
| `ActionStore.OverwrittenWasBad` | crates/mbx-cache-core/src/local.rs:579-656 | an overwritten record was unusable at some earlier moment, from which on the path named it without a break |
| `ActionStore.GoodRecordIsKept` | crates/mbx-cache-core/src/local.rs:579-656 | a record that stays intact and restorable from the moment it became current is never replaced or removed in any run, whatever records had its inode number before |
| `ActionStore.GivingUpNeedsRemovals` | crates/mbx-cache-core/src/local.rs:622-655 | between the beginning of a call that gives up and its end, at least seven records were removed |
| `ActionStore.StoresAloneNeverGiveUp` | crates/mbx-cache-core/src/local.rs:622-655 | a call during which fewer were removed, and so one during which none was, does not give up |
| `ActionStore.SeenWasCurrent` | crates/mbx-cache-core/src/local.rs:606-636 | the record a decision is about was current at some moment of the same call, and every object found since was there at some moment since |
| `ActionStore.OutcomeIsTrue` | crates/mbx-cache-core/src/local.rs:579-656 | a stored or unchanged result was current at some moment of the call; for a kept or conflicting outcome another result was, each object it names was found present after that moment, and a kept one was restorable for the caller |
| `ActionStore.OutcomeHasACause` | crates/mbx-cache-core/src/local.rs:606-656 | in every run a store fails only by an error of its own or a refused result, is stored only by its own write of a new record file, gives up only on a path that was filled, is unchanged only at its own result, conflicts only at a different record all of whose objects it found, and keeps one only if that is also restorable; a broken or unrestorable record never ends a store |
| `StoreAlone.StoreAloneEnds` | crates/mbx-cache-core/src/local.rs:579-656 | from any state that any run can reach, a store of this action's result that no lock holder is in the way of comes to its end by its own error-free steps: unchanged at its own result, a conflict or a kept record at another whole and, when keeping, restorable one, and otherwise stored, with its result current; nothing else changes the record |
| `ObjectGraph.DirectoryIsIntact` | crates/mbx-cache-core/src/local.rs:442-467 | the walk with one shared seen set ends on every graph; a yes means all it visited is sound and closed, a no names a reachable unsound directory |
| `ObjectGraph.IsIntact` | crates/mbx-cache-core/src/local.rs:431-438 | true exactly when the action and metadata objects are present and every reachable directory is stored, verified, parses, and has all its files |
| `ObjectGraph.TreeObjects` | crates/mbx-cache-core/src/local.rs:544-559 | the worklist ends on every graph and lists exactly the reachable directories and their files |
| `ObjectGraph.NamedObjects` | crates/mbx-cache-core/src/local.rs:524-560 | lists exactly the objects a result names |
| `ObjectGraph.IntactCoversNamed` | crates/mbx-cache-core/src/local.rs:431-560 | on an intact result every named object is stored and verified, captured output excepted |
| `ObjectGraph.IntactMayMissOutput` | crates/mbx-cache-core/src/local.rs:431-560 | the exception is real |
| `UseTimes.WalkMarksReached` | crates/mbx-cache-core/src/local.rs:505-516 | after a walk every stored object it reached counts as used within one refresh interval, and no time went back |
| `UseTimes.StoreFiles.RecordFileUse` | crates/mbx-cache-core/src/local.rs:26-34 | one object's time moves to now, unless it is recent; nothing else changes |
| `UseTimes.StoreFiles.RecordClosureUse` | crates/mbx-cache-core/src/local.rs:505-516 | all named objects are marked, then the record, unthrottled |
| `UseTimes.StoreFiles.RecordUse` | crates/mbx-cache-core/src/local.rs:481-493 | a recent record changes nothing; otherwise the whole closure is marked |
| `UseTimes.StepKeepsInv` | crates/mbx-cache-core/src/local.rs:481-516 | every step of concurrent hits, walks, stores and evictions keeps what record times prove about closures, looking at a time and setting it being two steps, as long as no mark is later than a limit |
| `UseTimes.HitStandsForClosure` | crates/mbx-cache-core/src/local.rs:481-516 | after a hit, even one that walked nothing, every object the record's last walk reached and still stored is younger than twice the refresh interval, if no time is set more than one interval after its walk read the clock |
| `UseTimes.WalkStandsForClosure` | crates/mbx-cache-core/src/local.rs:499-516 | after a walk everything it reached is younger than one refresh interval, or no older than a late mark can leave it, and the record remembers exactly that walk |
| `UseTimes.LateMarksDecide` | crates/mbx-cache-core/src/local.rs:26-34 | the bound of twice the interval holds in every run if and only if no mark is more than one interval late: for every larger delay a run is given in which it fails |
| `UseTimes.FreshRecordProvesNothing` | crates/mbx-cache-core/src/local.rs:495-503 | a run of a store, a question and a hit that walks nothing, after which an object has been unused for any given length of time |
| `DownloadBudget.StepKeepsInv` | crates/mbx-cache-core/src/agent.rs:792-817 | each load, exchange, commit and drop keeps counter = charged + outstanding within the limit, every full reservation at what was asked and every partial one within it, and no subtraction wraps |
| `DownloadBudget.BudgetIsExact` | crates/mbx-cache-core/src/agent.rs:995-1048 | all of that holds in every interleaving |
| `DownloadBudget.SettledBudget` | crates/mbx-cache-core/src/agent.rs:798-817 | in any state in which no task holds a reservation, the counter is within the limit, and is exactly what was downloaded if and only if no download overran its reservation |
| `DownloadBudget.CurrentWasObserved` | crates/mbx-cache-core/src/agent.rs:996-1023 | the value compared against was the counter at a moment of the same call |
| `DownloadBudget.RefusalIsHonest` | crates/mbx-cache-core/src/agent.rs:995-1025 | a refused reservation did not fit at some moment of the call; a partial one is never refused |
| `DownloadBudget.GrantIsExact` | crates/mbx-cache-core/src/agent.rs:995-1048 | an exchange that sees the counter it compares against grants a request for n bytes, raising the counter by n, exactly when n more fit; a partial request gets what was asked or exactly what was left |
| `DownloadBudget.HoldingIsGranted` | crates/mbx-cache-core/src/agent.rs:1009-1021 | a task comes to hold a reservation only by its own successful exchange, which raises the counter by what is reserved |
| `DownloadBudget.ChargedIsDownloaded` | crates/mbx-cache-core/src/agent.rs:803-808 | what is charged is at most what was downloaded, and is that exactly when every download stayed within its reservation |
| `DownloadBudget.DownloadsStayWithinLimit` | crates/mbx-cache-core/src/agent.rs:995-1025 | in every interleaving without an overrun, the bytes downloaded and all that is still reserved, exact requests counting in full, are together the counter and within the limit |
| `Manifests.UpdateInOrder` | crates/mbx-cache-core/src/agent/manifest.rs:91-146 | the loops compute `Updated`, about which the next two rows are |
| `Manifests.UpdatedIsFirstFit` | crates/mbx-cache-core/src/agent/manifest.rs:83-146 | an update succeeds exactly when the protected entries fit on their own, and keeps everything from the first position on at which both the count and the byte bound hold: no unprotected entry is retired before an older one or without need |
| `Manifests.UpdatedValues` | crates/mbx-cache-core/src/agent/manifest.rs:83-146 | the result has distinct invocations, meets both bounds, holds only values of the overlay, keeps every protected one, and is the overlay when everything fits |
| `Manifests.RetiredCut` | crates/mbx-cache-core/src/agent/manifest.rs:111-144 | one retirement loop is the first cut that is light enough, or leaves exactly the protected entries |
| `Manifests.KeepLastOfEach` | crates/mbx-cache-core/src/agent/manifest.rs:99-105 | the reversed filter keeps each invocation's last update, in order |
| `Manifests.OrderedByAge` | crates/mbx-cache-core/src/agent/manifest.rs:99-110 | every updated entry stands after every entry not updated; the latter keep their order, the former that of their last updates |
| `Merging.MergedValues` | crates/mbx-cache-core/src/agent/manifest.rs:148-203 | a merge is valid and bounded; a required value of the update wins, otherwise the base's, otherwise the update's; everything required or preferred is kept |
| `Merging.MergeSucceeds` | crates/mbx-cache-core/src/agent/manifest.rs:154-203 | a merge succeeds exactly when both sides are valid and what it must keep fits; its own final check never fails |
| `Predictions.TaskRun.Record` | crates/mbx-cache-core/src/agent.rs:2965-3004 | the run's whole new state, and that a refused recording leaves no trace |
| `Predictions.RecordingsTrack` | crates/mbx-cache-core/src/agent.rs:2965-3004 | after any sequence of recordings, `changed` holds exactly the invocations whose current value differs from the baseline, each with its baseline value |
| `Predictions.ConcurrentIsTheDifference` | crates/mbx-cache-core/src/agent.rs:595-610 | the concurrent predictions are exactly the disk entries that differ from the loaded baseline |
| `Predictions.RequireLocal` | crates/mbx-cache-core/src/agent.rs:576-591 | the reverse loop computes `Required`, described by the next row |
| `Predictions.RequiredIsNewest` | crates/mbx-cache-core/src/agent.rs:576-591 | the working set, plus the newest concurrent changes: all of them or as many as reach the bound |
| `Predictions.CommitLocal` | crates/mbx-cache-core/src/agent.rs:1555-1578 | the locked part of a commit computes `Committed`, described by the next row |
| `Predictions.CommitIsHonest` | crates/mbx-cache-core/src/agent.rs:612-637 | after a commit, a changed invocation has the run's value, an unchanged hit has the disk's, and anything else kept its value or was retired for want of room |
| `Predictions.CommitSucceeds` | crates/mbx-cache-core/src/agent.rs:1555-1578 | a commit succeeds exactly when the run's working set and the newest concurrent changes, as many as the bound has room for, are small enough together |
| `Commits.StoreIsLawful` | crates/mbx-cache-core/src/agent.rs:1555-1578 | the agent's commit and reconciliation obey the laws the interleaving argument uses |
| `Commits.StepKeepsInv` | crates/mbx-cache-core/src/agent.rs:1555-1578 | load, begin, record, commit and reconcile keep the manifest valid and every run tracking its baseline, however long after its load a run begins and whatever run it takes the place of |
| `Commits.HistoryKeepsInv` | crates/mbx-cache-core/src/agent.rs:1555-1578 | so do all interleavings of any number of runs |
| `Commits.HitsNeverRevert` | crates/mbx-cache-core/src/agent.rs:612-637 | a step that is not a commit of a real change leaves the disk's value of an invocation or retires it; a run that hit it does not even retire it |
| `Commits.ReconcileKeepsValue` | crates/mbx-cache-core/src/agent.rs:1669-1699 | bringing in a remote manifest never changes or retires a local value |
| `Commits.LastWriterWins` | crates/mbx-cache-core/src/agent.rs:612-637 | in every interleaving, a value that came to be different was committed by a run that had changed it to that from its own baseline, and has been that value since; an invocation the disk had lost can also be listed again, with a baseline's or a remote value |
| `Commits.CommitsEndWell` | crates/mbx-cache-core/src/agent.rs:1451-1579 | in every interleaving a commit writes exactly when something changed, a publication is needed, or hits are near the bound; it then settles every invocation on disk and ends the run, or, without room for what it cannot give up, leaves the file and the run as they were; so a change is on disk afterwards or still with the run |
| `Commits.UnchangedRunsKeepValues` | crates/mbx-cache-core/src/agent.rs:1555-1578 | below the bounds, any number of commits by runs that did not change an invocation leave its value alone |
| `Publication.Manifest.Withhold` | crates/mbx-cache-core/src/agent.rs:752-785 | the manifest afterwards and the withheld set, described value by value by the next rows |
| `Publication.WithholdingAt` | crates/mbx-cache-core/src/agent.rs:752-785 | a withheld invocation has its previous value or none, every other keeps its own, and invocations stay unique |
| `Publication.KnownBaseline` | crates/mbx-cache-core/src/agent.rs:1595-1638 | with a known baseline a value is advertised exactly when the baseline held it or its upload was held and did not fail; otherwise the baseline's value takes its place |
| `Publication.UnknownBaseline` | crates/mbx-cache-core/src/agent.rs:1607-1638 | with none, exactly the values this run changed and did not upload are left out |
| `Publication.PutRemote` | crates/mbx-cache-core/src/agent.rs:1789-1824 | up to four puts, each but the first answering the refusal before it; success exactly on a stored answer |
| `Publication.Publish` | crates/mbx-cache-core/src/agent.rs:1585-1667 | the puts of a whole publication |
| `Publication.PublishedIsVouched` | crates/mbx-cache-core/src/agent.rs:1585-1667 | whatever the remote answers, every entry of every manifest put was held by the baseline, uploaded by this queue (or, with no baseline, not changed by this run), or shown by the remote itself |
| `Publication.AuthorityIsEarned` | crates/mbx-cache-core/src/agent.rs:655-694 | what outranks the remote are exactly the committed values this run or another local run came to, and that this run can answer for |
| `Publication.GapFillingIsExact` | crates/mbx-cache-core/src/agent.rs:695-726 | what only fills gaps is exactly the baseline's value for a withheld one, an unchanged hit, and, with no known baseline, a concurrent value not uploaded and what the snapshot does not list |
| `Publication.LocalChangesArePublished` | crates/mbx-cache-core/src/agent.rs:655-694 | a value with such authority is in every manifest of every publication, whatever snapshot it builds on and whatever the remote answers |
| `Publication.GapFillersArePublished` | crates/mbx-cache-core/src/agent.rs:695-726 | a gap-filling value is in every manifest until the remote shows another value of the invocation |
| `Publication.RemoteValueWins` | crates/mbx-cache-core/src/agent.rs:655-726 | after a refusal a value without authority never displaces the one the remote shows |
| `Publication.AuthorityPersists` | crates/mbx-cache-core/src/agent.rs:1789-1824 | a value with authority is in every put, whatever the remote shows |
| `ProbeCache.ProbeStore.Recall` | crates/mbx-cache-cargo/src/lib.rs:1116-1130 | a recall answers exactly when the record is for the key and all its pins hold, with the recorded roots |
| `ProbeCache.ProbeStore.Remember` | crates/mbx-cache-cargo/src/lib.rs:1134-1171 | what is stored, or that nothing is when a file cannot be pinned or a pin is racy |
| `ProbeCache.RememberedExactly` | crates/mbx-cache-cargo/src/lib.rs:967-1009 | an answer is remembered exactly when every watched file, and the root manifest after the probe, is absent or was written longer ago than the window its timestamp calls for |
| `ProbeCache.DescribeAll` | crates/mbx-cache-cargo/src/lib.rs:1024-1112 | pins for all watched files, or nothing when one cannot be described |
| `ProbeCache.WindowsMatchTicks` | crates/mbx-cache-cargo/src/lib.rs:990-1019 | the two race windows catch every write exactly on filesystems whose tick is at most the fine window, or whole seconds within the coarse one |
| `ProbeCache.PinFreezesFile` | crates/mbx-cache-cargo/src/lib.rs:986-1009 | a file that still fits a pin not racy at the observation has not changed since then, or since the instant before |
| `ProbeCache.LeftPinsEverything` | crates/mbx-cache-cargo/src/lib.rs:1134-1171 | a record pins every watched file and the root manifest, none racily |
| `ProbeCache.StandingIsMet` | crates/mbx-cache-cargo/src/lib.rs:1116-1130 | on the disk a recaller meets pin by pin, a recall answers exactly when the record stands for it in the sense of the theorems below |
| `ProbeCache.RecallAgrees` | crates/mbx-cache-cargo/src/lib.rs:903-921 | a recalled answer is what Cargo would answer when the recall began, although pins are checked one after the other and the manifest's was taken after the probe |
| `ProbeCache.EveryRecallAgrees` | crates/mbx-cache-cargo/src/lib.rs:903-921 | so is every recalled answer among any number of overlapping invocations, unless the recaller scanned the configuration before the author's pins were dated |
| `ProbeCache.EarlyScanMisses` | crates/mbx-cache-cargo/src/lib.rs:1086-1094 | whatever the times, a scan too early by more than the fine window has a world in which the recalled answer is wrong |
| `ProbeCache.ScanGapDecides` | crates/mbx-cache-cargo/src/lib.rs:1086-1094 | recalls agree in every world if and only if no scan is earlier than the author's pins by two nanoseconds or more |
| `CcParser.Parser.ParseDependencyFlag` | crates/mbx-cache-cc/src/lib.rs:1664-1691 | the request, the recorded positions and the arguments consumed by one dependency flag |
| `CcParser.Parser.ParseArgument` | crates/mbx-cache-cc/src/lib.rs:1560-1575 | one round of the loop is one step of the specification, its errors included |
| `CcParser.Parser.Parse` | crates/mbx-cache-cc/src/lib.rs:1560-1655 | the parser computes `Parsed`, which `CcKeys.KeyTellsTheLine` and the stripping theorems are about |
| `CcKeys.KeyTellsTheLine` | crates/mbx-cache-cc/src/lib.rs:1560-1957 | an admitted line's arguments are its flags with their values, one canonical spelling each, in order; its source is the one argument that is no flag, its output, sysroot and language the last given, its include directories all those given, in order |
| `CcKeys.EqualKeysSpellAlike` | crates/mbx-cache-cc/src/lib.rs:1757-1957 | two admitted lines with equal arguments spell the same flags and values, up to separate or attached values and the other listed equivalent forms |
| `CcKeys.AdapterIsRegular` | crates/mbx-cache-cc/src/lib.rs:268-305 | the adapter's separate-path and prefix-map flags have the form those two theorems ask for |
| `CcAdmission.AdmittedExactly` | crates/mbx-cache-cc/src/lib.rs:1560-1733 | exactly which lines are admitted, told from their text: every argument is readable and has its value, every flag is known and none refused, there is one source whose language is known when it is met, a mode and an output are given, and the caller's list flags fit together; and exactly which list the caller of an admitted line wants |
| `CcAdmission.FlagAdmits` | crates/mbx-cache-cc/src/lib.rs:1757-1957 | whatever the order of the tests, a flag is refused exactly when it asks for a query, another output, another tool, a plugin, coverage or this machine's processor, or is not known |
| `CcAdmission.EarlyReasons` | crates/mbx-cache-cc/src/lib.rs:1757-1800 | the reason given for each flag that is refused outright |
| `CcAdmission.LateReasons` | crates/mbx-cache-cc/src/lib.rs:1861-1957 | and for every other refusal |
| `CcAdmission.OptionsAreListed` | crates/mbx-cache-cc/src/lib.rs:1778-1786 | assembler options pass exactly when they are listed ones with commas between them |
| `CcAdmission.AdapterIsOrderly` | crates/mbx-cache-cc/src/lib.rs:234-305 | the adapter's own lists are made up as those theorems ask |
| `CcStripping.WithoutIsKept` | crates/mbx-cache-cc/src/lib.rs:910-917 | leaving out the recorded positions leaves exactly the other arguments with the values they consumed |
| `CcStripping.KeptRuns` | crates/mbx-cache-cc/src/lib.rs:1560-1733 | those arguments, wherever they stand in a line, rebuild everything but the dependency request |
| `CcStripping.StrippingPreservesMeaning` | crates/mbx-cache-cc/src/lib.rs:910-917 | if a command line is admitted, so is the stripped one, with the same arguments, source, output, include directories, required inputs, sysroot and language, and no caller dependency list |
| `CcStripping.StrippingIsIdempotent` | crates/mbx-cache-cc/src/lib.rs:910-917 | stripping again changes nothing |
| `CcStripping.AdapterIsLocal` | crates/mbx-cache-cc/src/lib.rs:1664-1957 | every flag uses at most one argument more and otherwise does not look past itself, and a dependency flag records just the positions it uses |
| `CcStripping.AdapterKnowsDependencyFlags` | crates/mbx-cache-cc/src/lib.rs:1757-1957 | the shim's own flags are read as dependency flags unless listed as queries |
| `CcStripping.DriverLinePreservesMeaning` | crates/mbx-cache-cc/src/lib.rs:1014-1016 | the stripped line with the shim's own dependency flags appended is admitted exactly when a preprocessing run has a file to list into and, for GCC, a source with a file name; it is then the same compile and lists into the shim's file |
| `Depfile.EscapeMakeWord` | crates/mbx-cache-cc/src/depfile.rs:152-164 | the printer's escaping, whose inverse is `RoundTrip` |
| `Depfile.JoinContinuations` | crates/mbx-cache-cc/src/depfile.rs:167-191 | continuation lines joined as specified line by line, or the error of an unterminated one |
| `Depfile.SplitEscapedPrerequisites` | crates/mbx-cache-cc/src/depfile.rs:210-255 | the words of an escaped list, or its error |
| `Depfile.FieldsAreWords` | crates/mbx-cache-cc/src/depfile.rs:197-208 | the fast splitter gives what the escaped one gives on every string that takes it |
| `Depfile.SplitPrerequisites` | crates/mbx-cache-cc/src/depfile.rs:197-208 | hence the splitter with its fast path equals the escaped splitter on every string |
| `Depfile.Parse` | crates/mbx-cache-cc/src/depfile.rs:96-108 | the parser computes `Parsed` |
| `Depfile.Render` | crates/mbx-cache-cc/src/depfile.rs:119-149 | the printer computes `Rendered` |
| `DepfileRoundTrip.RoundTrip` | crates/mbx-cache-cc/src/depfile.rs:96-255 | parsing what was printed returns exactly the paths, with or without phony rules, if and only if the list is not empty, no path is empty or holds a backslash, tab or newline, and the last does not end in a carriage return |
| `DepfileRoundTrip.ParsedIsClean` | crates/mbx-cache-cc/src/depfile.rs:96-255 | whatever is parsed from any text are non-empty paths without those characters |
| `DepfileRoundTrip.QuotedTargetIsFine` | crates/mbx-cache-cc/src/depfile.rs:119-149 | a quoted target without a newline always leaves the rule readable |
| `DepfileRoundTrip.HeaderReads` | crates/mbx-cache-cc/src/depfile.rs:119-149 | quoted targets, split as words, are the targets' names in order |
| `DepfileRoundTrip.PhonyRules` | crates/mbx-cache-cc/src/depfile.rs:119-149 | every file but the source, compared by path components, gets a rule on a line of its own with nothing after the colon |
| `DepfileReading.ParsedExactly` | crates/mbx-cache-cc/src/depfile.rs:96-255 | what parsing gives on any text: it fails exactly for a line continued without an end, for want of a rule, or at an unknown escape or variable, and otherwise gives the runs of letters between blanks in the first rule |
| `DepfileReading.JoinedIsLogical` | crates/mbx-cache-cc/src/depfile.rs:167-191 | joining makes each group of continued lines one line, a blank between each two, and fails exactly when the last group has no end |
| `DepfileReading.WordsAreRuns` | crates/mbx-cache-cc/src/depfile.rs:197-255 | however a prerequisite list is taken apart into blanks, escapes and plain letters, splitting gives the runs of letters, or the error of what cannot be read |
| `IncludeManifest.IncludeNames` | crates/mbx-cache-cc/src/depfile.rs:713-768 | the worklist lists exactly the includable names beneath a directory, and fails exactly when the shared budget is exceeded |
| `IncludeManifest.IncludableExactly` | crates/mbx-cache-cc/src/depfile.rs:674-696 | a name is includable exactly when it has no dot, or a stem that is not empty, a last dot, and a listed extension in any case |
| `IncludeManifest.ManifestTellsNames` | crates/mbx-cache-cc/src/depfile.rs:698-768 | a manifest holds exactly the includable names a walk can reach, so none can appear or go unnoticed; a missing directory has none and is no error |
| `IncludeManifest.ManifestCovers` | crates/mbx-cache-cc/src/depfile.rs:620-638 | covers exactly when the descendant is under the ancestor and every step between is a real directory |
| `IncludeManifest.MinimalManifestDirectories` | crates/mbx-cache-cc/src/depfile.rs:550-591 | every directory is covered by a kept one, kept ones do not cover each other, and directories without an identity are all kept |
| `IncludeManifest.CoveredFollows` | crates/mbx-cache-cc/src/depfile.rs:620-638 | between two trees, a covered directory's names change only if its ancestor's do |
| `IncludeManifest.ReductionLosesNothing` | crates/mbx-cache-cc/src/depfile.rs:550-591 | unchanged listings of the kept directories imply unchanged listings of all |
| `ManifestText.SameTextSameLines` | crates/mbx-cache-cc/src/depfile.rs:765-766 | two lists of names are digested as the same text exactly when they take up the same lines |
| `ManifestText.TextTellsNames` | crates/mbx-cache-cc/src/depfile.rs:765-766 | without newlines in names, equal texts mean equal names and the other way round |
| `ManifestText.ReductionLosesNoDigest` | crates/mbx-cache-cc/src/depfile.rs:550-591 | so when the listings of the kept directories have no newline in a name, before and after, unchanged digests of those directories imply unchanged digests of all |
| `ManifestText.NewlinesHideAChange` | crates/mbx-cache-cc/src/depfile.rs:713-768 | with a newline in a name a covered directory can change while the text of the kept one does not |
| `AssemblerScan.FindAny` | crates/mbx-cache-cc/src/depfile.rs:801-812 | the byte search finds a directive exactly when the window holds one, ignoring ASCII case |
| `AssemblerScan.WindowSuffices` | crates/mbx-cache-cc/src/depfile.rs:776-818 | carrying over one byte less than the longest directive loses no occurrence |
| `AssemblerScan.DirectivesInAnyCase` | crates/mbx-cache-cc/src/depfile.rs:19-21 | what counts as found are exactly the three directives, each letter in either case |
| `AssemblerScan.Scan` | crates/mbx-cache-cc/src/depfile.rs:776-818 | true exactly when the whole stream holds a directive, for every way the reads split it; a read error matters only when nothing was found before it |
| `AssemblerScan.ContainsAssemblerInputDirective` | crates/mbx-cache-cc/src/depfile.rs:776-818 | the same with the source's directives and window |
| `Paths.NormalizeComponents` | crates/mbx-cache-core/src/path_mapping.rs:276-288 | the loop computes `Normalized` |
| `Paths.NormalizedIsNormal` | crates/mbx-cache-core/src/path_mapping.rs:276-288 | an absolute path normalises to a root and names it had |
| `PathKeys.OrderedSorts` | crates/mbx-cache-core/src/path_mapping.rs:22-27 | ordering is a permutation by descending component count |
| `PathKeys.ValidateMappings` | crates/mbx-cache-cc/src/lib.rs:1421-1447 | accepts exactly absolute roots with well-formed distinct placeholders, in an absolute working directory |
| `PathKeys.NormalizeMappedPath` | crates/mbx-cache-core/src/path_mapping.rs:132-159 | the loop computes `MappedKey` |
| `PathKeys.DenormalizePath` | crates/mbx-cache-cc/src/lib.rs:1128-1160 | the loop computes `Denormalized` |
| `PathKeyLaws.KeyRoundTrip` | crates/mbx-cache-cc/src/lib.rs:1128-1160 | a path's key denormalises to the path exactly when no name after the placeholder holds a backslash, and otherwise to an error |
| `PathKeyLaws.AbsoluteIsGood` | crates/mbx-cache-core/src/path_mapping.rs:132-147 | every path given in an absolute directory has an absolute form the key laws apply to |
| `PathKeyLaws.SpelledIsGood` | crates/mbx-cache-core/src/path_mapping.rs:132-147 | the same for any two texts read as paths |
| `PathKeyLaws.KeysNeverCollide` | crates/mbx-cache-core/src/path_mapping.rs:132-159 | different paths never share a key |
| `PathKeyLaws.DenormalizedStaysInside` | crates/mbx-cache-cc/src/lib.rs:1128-1160 | whatever the text, a denormalised path lies under a mapping root or is a normal system path |
| `PathKeyLaws.DeepestMatchCondition` | crates/mbx-cache-core/src/path_mapping.rs:148-158 | matching picks the deepest root for every path if and only if no root precedes one nested inside it |
| `PathKeyLaws.OrderedIsDeeperFirst` | crates/mbx-cache-core/src/path_mapping.rs:22-27 | sorting achieves that when roots are spelled without `.` and `..` |
| `PathKeyLaws.ParentComponentsBreakTheOrder` | crates/mbx-cache-core/src/path_mapping.rs:22-27 | and need not otherwise: two validated mappings whose keys differ for the same directories |
| `PathKeyLaws.KeysSurviveMoving` | crates/mbx-cache-core/src/path_mapping.rs:23-27 | mapping lists with the same placeholders and the same nesting give corresponding paths the same key |
| `Calendar.NextDayAddsOne` | crates/mbx-cache-core/src/imds.rs:284-292 | the day after any valid Gregorian date, in any year, is one more |
| `Calendar.CountsDays` | crates/mbx-cache-core/src/imds.rs:284-292 | n days after any valid date, counted one at a time, is n more |
| `Calendar.CountedFromTheEpoch` | crates/mbx-cache-core/src/imds.rs:284-292 | counting that many days from 1970-01-01, or up to it, reaches exactly the date |
| `Calendar.EpochIsZero` | crates/mbx-cache-core/src/imds.rs:284-292 | 1970-01-01 is day zero |
| `Calendar.StrictlyMonotone` | crates/mbx-cache-core/src/imds.rs:284-292 | later dates have larger day numbers |
| `Calendar.CivilInvertsDays` | crates/mbx-cache-core/src/sigv4.rs:306-322 | converting a valid date to days and back gives the date |
| `Calendar.DaysInvertsCivil` | crates/mbx-cache-core/src/sigv4.rs:306-322 | every day number is a valid date and converts back to itself |
| `Calendar.TimestampsKeepOrder` | crates/mbx-cache-core/src/imds.rs:259-281 | where the instant fits in 64 bits, well-formed timestamps are refused exactly before 1970 and accepted ones keep their order |
| `Calendar.LeapSecondRollsOver` | crates/mbx-cache-core/src/imds.rs:259-281 | a leap second reads as the start of the next minute, of the next hour in minute 59, and of the next day at 23:59 |
| `Calendar.SecondsAreRight` | crates/mbx-cache-core/src/imds.rs:259-281 | for every year that is not negative, the parser is right exactly when the instant is below 2^63 seconds |
| `Calendar.FitsInI64` | crates/mbx-cache-core/src/imds.rs:259-292 | no value computed on the way leaves 64 bits exactly when the first product and the last sum do not: always strictly between the years -292277022657 and 292277026596, never beyond them |
| `Calendar.FarYearsWrap` | crates/mbx-cache-core/src/imds.rs:277-280 | every timestamp has a far one, 2^64 seconds later, that is taken for it |
| `Calendar.OverlongMonthRollsOver` | crates/mbx-cache-core/src/imds.rs:284-292 | a day past its month's end reads as a day of the next month |

## Left out

- Hashing, JSON and UTF-8: digests are abstract, a record is canonical or garbled, and the serialised size of a prediction is a parameter.
- File identity on disk: a staged file becomes an inode of the record when it is renamed into place; its number was not named by the path or open in any process before.
- The order of an intactness walk: it finds the objects a record names one by one, in any order, and which objects those are is fixed by their digests.
- Locks are advisory in the source; processes that do not use slots are not modelled.
- The remote clients, the upload queue's internals, retries and timeouts: the queue's held and failed sets and the remote's answers are inputs.
- Choosing an inherited manifest for a new task: it enters the model as a manifest brought in when none is on disk.
- Deciding in write-only mode whether the baseline counts as known: the publication theorems hold for either case.
- Symbolic links, case folding and verbatim prefixes in path resolution; paths are alias-free.
- Paths that are not UTF-8, beyond the errors they cause.
- `manifest_directory_identity`: a directory's identity is an input to the reduction.
- Sort order among equally deep include directories, on which no property depends.
- The MSVC parser, and the contents of the `-f` and `-m` allowlists, which are parameters of the parser.
- The default path and target of a caller's dependency list stay symbolic in the parsed invocation.
- ProbeCache.RecallAgrees: asks that the recalling invocation scanned no earlier than the recorded pins were dated, that no pinned-absent file came and went between the probe and the check of its pin, and that Cargo's answer depends only on the watched files and the root manifest.
- Calendar.SecondsAreRight: says nothing of negative years, which the text of a timestamp cannot give, and takes overflow to wrap, as it does without overflow checks.
- Statistics, diagnostics, prefetching, the connection loop and the command line tools.
- Running Cargo, Git and compilers, and `install --path` rewriting.
