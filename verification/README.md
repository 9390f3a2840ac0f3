# Endless OS updater: a verified model

This project models, in Dafny 4.11, the parts of the Endless OS updater whose
correctness is not visible from any one function: the program that installs and
removes flatpaks after an OS update, the updater daemon and the automatic
updater that drives it, the choice of what to update to, the recursive removal
of a file tree, and the Bloom filter with its SipHash function.

`dafny verify dfyconfig.toml` checks everything.

## How it is organised

Flatpak autoinstall pipeline, from the actions to whole histories of runs:

- `Actions.dfy`: actions as heap objects, installations as maps, and the
  *verdict* a list of actions passes on a ref. Two lists do the same to every
  installation exactly when they pass the same verdicts
  (`SameEffectIffSameVerdicts`); most later proofs go through this.
- `ActionSort.dfy`, `ActionFile.dfy`: the comparator with its 32-bit
  subtraction, the stable merge sort GLib runs with it, and loading a file.
- `Squash.dfy`, `Tables.dfy`: squashing to one action per ref, the two filters
  against the progress counter, and flattening all files into one list.
- `Dependencies.dfy`, `DependencyOrder.dfy`: inserting dependency actions and
  where they end up.
- `Installer.dfy`: a machine with its installation and counter file, performing
  a list until the first failure, and check mode.
- `PendingFacts.dfy`, `Recovery.dfy`: what the counter means over any history of
  releases and interrupted runs. `Resumption.dfy`, `Attempts.dfy`,
  `Convergence.dfy`: what runs leave behind, for files that share refs and for
  files that do not. `Checks.dfy`, `CheckMode.dfy`: what check mode then says.
  `DependencyRuns.dfy`: what dependencies change about it.

Daemon and automatic updater:

- `Protocol.dfy`: the daemon as a state machine over method calls and worker
  completions. `Service.dfy`: its objects, each handler and callback proved to
  take one step of that machine.
- `Autoupdater.dfy`: the reactions of the automatic updater, as functions and
  as the program's globals updated in place. `StoredResults.dfy`: the date it
  keeps in a file. `Session.dfy`: updater and daemon together, over any number
  of runs. The daemon's notifications queue up, each with the
  properties as they were when it was sent; calls, notifications and tasks may
  be delayed, and none is lost.
- `Download.dfy`: a fetch waiting for the download scheduler, and giving its
  schedule entry back.

Choosing an update:

- `Redirects.dfy`: following end-of-life redirections. `Updates.dfy`: deciding
  what a poll offers, and histories of offered updates booted in turn.
  `Sources.dfy`: the latest update among several sources, and size sums.

Self-contained algorithms: `Removal.dfy`, `SipHash.dfy`, `Bloom.dfy`. What
several modules share is in `Common.dfy`.

## Properties that fail, and when they hold

Each is in the table below with its exact condition, where there is one, and with
an input for which it fails.

- Serials are compared by 32-bit subtraction. Lists come out in order for every
  input order exactly when no two serials are more than 2^31 - 1 apart
  (`SortAscendsIffSpreadFits`, for files `LoadsInOrderIffSpreadFits`); beyond
  that even a repeated serial can go unnoticed (`RepeatUnnoticed`). Signed
  overflow is undefined in C; the model wraps around.
- The comparator is a weak order exactly when no serial is shared by a
  dependency, a non-dependency of its kind and an action of the other kind
  (`WeakOrderIffNoTiesClash`); two files can bring that about
  (`TwoFilesClash`). The dependency order that the sort is there for is proved
  without needing a weak order.
- If an app is installed, its dependencies are to be in place. Where one is
  missing, it is in place in time exactly if no later action takes it over and
  the action that stands for it by then installs it
  (`MissingDependencyInPlaceIff`; `DependencyInPlaceIff` for every machine). It
  is not when the app is listed before its own runtime
  (`RuntimeComesTooLate`), or when an earlier action only updates the runtime,
  or uninstalls it (`RuntimeOnlyMentioned`). Removed dependencies come after
  what needed them, unless they are installed again
  (`RemovedDependencyComesLast`, `RemovedDependencyOutlasts`). The exception to
  both is a tie of main actions of both kinds (`TiedRemovalOvertakes`,
  `TiedUninstallGoesFirst`).
- The manual page of the installer says that it saves the most up to date
  serial of each file. A complete run takes it to the end of a file exactly when
  the last new action is not squashed away (`CounterReachesEndIff`,
  `CounterLagsBehind`). A second complete run always does when no ref is in two
  files (`SecondRunFinishes`), and as many as there are new actions always do
  (`EveryActionIsPassed`).
- The manual page of the autoinstall files lets later files win over earlier
  ones. Across one run they do (`FlattenPriority`), but the losing file's
  counter is left behind, so the next run performs the losing action
  (`SharedRefComesBack`). Running again, after an interrupted or a complete run,
  is harmless exactly if what the counter has not passed decides each ref, in
  name order, as all the new actions did (`ResumesIff`,
  `RerunChangesNothingIff`; `AttemptsResumeIff` for any number of attempts);
  files that share no ref always meet that (`DisjointFilesResume`).
- A machine that check mode finds clean is found clean after a run exactly if, on
  each ref, what is behind the counter then decides, in name order, as what was
  behind it and the run together do (`RunKeepsCleanIff`). Complete runs over
  files that share no ref meet that (`RunKeepsCheckClean`); a complete run over
  files that share one need not (`SharedRefNotClean`), and neither need an
  interrupted one (`CheckCleanAfterIff`, `InterruptedRunNotClean`).
- When dependency actions are in the list, an action that fails is pending again
  exactly if nothing before it carries its file and serial
  (`FailedActionOfferedAgainIff`). A dependency of it does
  (`FailedInstallIsForgotten`).
- The code says that rebase loops are ignored; only a ref that redirects to
  itself is. Two refs that redirect to each other keep the poll going for ever
  (`TwoRefsNeverFinish`, `NeverFinishesIffComesBack`).
- Commit dates increase along offered updates only while the ref stays the same
  and the booted commit can be loaded (`NoDowngrade`; `CommitOfferedIff`
  says when a commit is offered at all); redirected to another branch and back,
  a system boots the commit it started from (`BranchesCanLeadBack`).
- The delay of a user-visible update counts from when the update last changed
  exactly if that was written to the file, or is only just being noted, the file
  could be read ever since, and it was about another update before
  (`CountsFromChangeIff`, `UnreadableStartsAnew`, `UnwrittenIsForgotten`).
- A failed poll notes what the daemon shows at that moment. A readable file
  survives that exactly if the daemon still shows its update
  (`Session.FailedPollKeepsDateIff`); after a restart it shows none, and the
  delay starts anew (`DelayStartsAgain`).

## Model

| member | source | states |
|---|---|---|
| Actions.SameEffectIffSameVerdicts | libeos-updater-util/flatpak-util.c:1363-1374 | The priority rules in the comment are a complete meaning: two lists change every installation alike exactly when they pass the same verdict on every ref |
| Actions.PerformByVerdict | libeos-updater-util/flatpak-util.c:1771-1775 | Performing a list leaves each ref as its verdict says, starting from missing, stale or current |
| ActionSort.WeakOrderIffNoTiesClash | libeos-updater-util/flatpak-util.c:518-559 | Within 31 bits of spread the comparator is a weak order exactly when no serial mixes dependency flags of one kind with an action of the other kind |
| ActionSort.ParsedActionsOrdered | libeos-updater-util/flatpak-util.c:518-559 | On actions as parsed it is a weak order that agrees with the serials |
| ActionSort.SortIsPermutation | libeos-updater-util/flatpak-util.c:1012-1013 | Sorting loses and repeats nothing, whatever the comparator does |
| ActionSort.SortAscendsIffSpreadFits | libeos-updater-util/flatpak-util.c:523-523 | Every arrangement of the actions sorts to ascending serials exactly when the subtraction cannot overflow on them |
| ActionSort.SortNeverOvertakes | libeos-updater-util/flatpak-util.c:525-556 | An action that compares below nothing in front of it keeps all of that in front, even where the comparator is not a weak order |
| ActionFile.LoadActions | libeos-updater-util/flatpak-util.c:1012-1033 | The scan of neighbours returns the sorted list or the first repeated serial |
| ActionFile.LoadsIffSerialsDistinct | libeos-updater-util/flatpak-util.c:1012-1033 | A file without repeated serials loads, as the same actions; the serial in an error is repeated; and as far as serials can be subtracted, every repeat is found and what loads is strictly increasing |
| ActionFile.LoadsInOrderIffSpreadFits | libeos-updater-util/flatpak-util.c:1012-1033 | Entries with distinct serials load in order from every arrangement exactly when no two serials are more than 2^31 - 1 apart |
| ActionFile.RepeatUnnoticed | libeos-updater-util/flatpak-util.c:1015-1031 | A serial used twice goes unnoticed with one 2^31 below in between |
| Squash.SquashActions | libeos-updater-util/flatpak-util.c:1349-1425 | The two passes with the hash table and pointer comparison compute the squashed, sorted list |
| Squash.SquashKeepsOnePerRef | libeos-updater-util/flatpak-util.c:1345-1347 | Every ref mentioned has exactly one action left, the one the rules keep, by identity |
| Squash.SquashMember | libeos-updater-util/flatpak-util.c:1400-1419 | An action survives exactly if it is the keeper of its ref |
| Squash.SquashPreservesMeaning | libeos-updater-util/flatpak-util.c:1349-1425 | Performing the squashed, re-sorted list does what performing the whole list in order does, to every installation and for every comparator outcome |
| Squash.SquashIsMinimal | libeos-updater-util/flatpak-util.c:1464-1473 | No list with the same effect is shorter |
| Tables.KeepOnlyNewActions | libeos-updater-util/flatpak-util.c:1541-1581 | The loop returns what follows the first serial above the counter, all of it if the file has no entry |
| Tables.KeepOnlyExistingActions | libeos-updater-util/flatpak-util.c:1589-1624 | The loop returns what precedes that serial, nothing if the file has no entry |
| Tables.FiltersPartition | libeos-updater-util/flatpak-util.c:1535-1624 | For every counter the two filters cut every list in two |
| Tables.SquashTable | libeos-updater-util/flatpak-util.c:1475-1502 | Each file is squashed on its own, in whatever order the table is walked |
| Tables.FilterTable | libeos-updater-util/flatpak-util.c:1513-1533 | Each file is filtered and squashed, in whatever order the table is walked |
| Tables.Flatten | libeos-updater-util/flatpak-util.c:2084-2104 | Lists are concatenated in name order and squashed |
| Tables.NamesCompare | libeos-updater-util/flatpak-util.c:2084-2092 | The order of the files is by the first character in which their names differ, a prefix first |
| Tables.FlattenMatchesFileByFile | libeos-updater-util/flatpak-util.c:1513-1533 | Squashing each file, concatenating, squashing again and interleaving by serial does what running every file in name order does |
| Tables.FlattenPriority | eos-updater-flatpak-installer/docs/eos-updater-flatpak-autoinstall.d.5:31-39 | The file that installs or uninstalls a ref and whose name sorts last, by its characters, decides about it, whatever the serials |
| Tables.LaterFileWins | eos-updater-flatpak-installer/docs/eos-updater-flatpak-autoinstall.d.5:31-39 | Of two files that disagree about a ref, the one whose name sorts later has its way |
| Installer.Machine.TryInstall | libeos-updater-flatpak-installer/perform-flatpak-actions.c:71-146 | Installs or updates; a failure changes nothing |
| Installer.Machine.TryUpdate | libeos-updater-flatpak-installer/perform-flatpak-actions.c:36-69 | Updates what is installed and succeeds on what is not |
| Installer.Machine.TryUninstall | libeos-updater-flatpak-installer/perform-flatpak-actions.c:148-178 | Removes unconditionally and succeeds on what is not installed |
| Installer.Machine.PerformAction | libeos-updater-flatpak-installer/perform-flatpak-actions.c:180-210 | A performed action has the effect the squash rules assume of it: install means install or update, update leaves what is missing, uninstall is unconditional |
| Installer.Machine.UpdateCounter | libeos-updater-flatpak-installer/perform-flatpak-actions.c:233-280 | New entries replace old ones, other files' entries stay |
| Installer.Machine.ApplyRefActions | libeos-updater-flatpak-installer/perform-flatpak-actions.c:311-368 | The actions before the first failure are performed and no others, and the counter covers just those, on success and on failure; in stamp mode nothing is performed and the counter covers all of them |
| Installer.Machine.CheckRefActionsApplied | libeos-updater-flatpak-installer/perform-flatpak-actions.c:423-495 | The deltas are, in order, one for each install of what is missing and each uninstall of what is present, naming its ref, its file and which of the two it is |
| Installer.Machine.Run | eos-updater-flatpak-installer/main.c:239-305 | A run filters, flattens, when pulling adds dependencies, and applies against its own counter; without pulling, in perform mode, it is an attempt in the sense of the histories below |
| Installer.Machine.Check | eos-updater-flatpak-installer/main.c:201-237 | Check mode is clean exactly if the actions behind the counter show no delta |
| Installer.NoDeltasIffAsDecided | libeos-updater-flatpak-installer/perform-flatpak-actions.c:411-422 | There is no delta exactly if every ref is installed or not as the list decides |
| Installer.ProgressIsLast | libeos-updater-flatpak-installer/perform-flatpak-actions.c:350-360 | The entry saved for a file is the serial of an action performed from it |
| PendingFacts.PendingMember | eos-updater-flatpak-installer/main.c:247-254 | For any files, the pending list holds exactly the action that stands for each ref among all new actions in name order |
| PendingFacts.PendingBySource | eos-updater-flatpak-installer/main.c:247-254 | With no ref in two files, it holds exactly what each file still decides about each ref |
| Recovery.RunKeepsOutcome | libeos-updater-flatpak-installer/perform-flatpak-actions.c:328-367 | However far a run gets, and whether or not the counter is written, what the machine will finally be does not change |
| Recovery.HistoryStaysOnPlan | libeos-updater-flatpak-installer/perform-flatpak-actions.c:311-368 | Every history of releases and interrupted runs keeps the machine on the way to what the files in full say |
| Recovery.EveryPublishedActionTakesEffect | libeos-updater-util/flatpak-util.c:1535-1581 | After any such history the next run to finish leaves the machine as if every action ever published had been performed in order on the machine as it was at first |
| Recovery.InterruptedEqualsUninterrupted | libeos-updater-flatpak-installer/perform-flatpak-actions.c:340-353 | From any counter, any number of failed runs and a complete one do what one uninterrupted run does |
| Resumption.TodoAfterRun | libeos-updater-util/flatpak-util.c:1541-1581 | For any loaded files, a run that stops after k actions leaves new in each file just what follows the last of them |
| Resumption.StillNewIff | libeos-updater-util/flatpak-util.c:1541-1581 | An action is still new after a complete run exactly if it was and its serial is above all pending ones of its file |
| Resumption.ResumesIff | libeos-updater-flatpak-installer/perform-flatpak-actions.c:340-353 | For any loaded files and any stop, the next complete run makes good exactly if on each ref what is left decides, in name order, as all the new actions do |
| Resumption.RerunChangesNothingIff | libeos-updater-flatpak-installer/perform-flatpak-actions.c:355-365 | For any loaded files, running again after a complete run changes nothing exactly under that condition on what follows the last pending action of each file |
| Resumption.DisjointFilesResume | libeos-updater-flatpak-installer/perform-flatpak-actions.c:340-353 | Files that share no ref meet it wherever a run stops |
| Attempts.AttemptsResumeIff | libeos-updater-flatpak-installer/perform-flatpak-actions.c:328-367 | For any loaded files and any history of attempts, with counters saved or lost, a complete run makes good exactly if on each ref all that was performed and then what is left decide, in name order, as all the new actions did at first |
| Resumption.SharedRefComesBack | libeos-updater-util/flatpak-util.c:2084-2104 | With a ref in two files, the file that lost the first run undoes the winner in the second |
| Resumption.CounterReachesEndIff | eos-updater-flatpak-installer/docs/eos-updater-flatpak-installer.8:41-46 | For any loaded files, a complete run takes a file's counter to the end exactly when its last new action stands for its ref among all new actions |
| Resumption.CounterLagsBehind | eos-updater-flatpak-installer/docs/eos-updater-flatpak-installer.8:41-46 | After an install and an update of one ref the counter stays at the install |
| Resumption.EveryActionIsPassed | libeos-updater-flatpak-installer/perform-flatpak-actions.c:355-365 | For any loaded files, as many complete runs as there are new actions leave nothing pending |
| Convergence.OnlyIdleUpdatesLeft | libeos-updater-util/flatpak-util.c:1541-1581 | With no ref in two files, after a complete run only updates are pending, and performing them changes nothing |
| Convergence.CounterReachesEndOfFileIff | eos-updater-flatpak-installer/docs/eos-updater-flatpak-installer.8:41-46 | The counter of such a file reaches the end exactly when its last new action is not an update that the file itself makes idle |
| Convergence.SecondRunFinishes | libeos-updater-flatpak-installer/perform-flatpak-actions.c:355-365 | After two complete runs nothing is pending |
| Checks.CheckCleanAfterIff | libeos-updater-flatpak-installer/perform-flatpak-actions.c:423-495 | If check mode is clean before a run, it is clean after the run's first k actions exactly if what the counter has passed agrees with the machine on each ref that still waits |
| Checks.RunKeepsCheckClean | libeos-updater-flatpak-installer/perform-flatpak-actions.c:423-495 | If check mode is clean before a complete run it is clean after it |
| Checks.InterruptedRunNotClean | libeos-updater-flatpak-installer/perform-flatpak-actions.c:340-353 | Installing one ref and another and then removing the first, interrupted before the removal, is not clean |
| CheckMode.CleanAfterRunIff | libeos-updater-flatpak-installer/perform-flatpak-actions.c:423-495 | For any loaded files and any stop, a machine is found clean after a run exactly if on each ref it is as the last deciding action behind the counter says, in name order |
| CheckMode.RunKeepsCleanIff | libeos-updater-flatpak-installer/perform-flatpak-actions.c:423-495 | Every machine found clean before such a run is found clean after it exactly if, on each ref, what is behind the counter after it decides as what was behind it and the run together do |
| CheckMode.SharedRefNotClean | libeos-updater-util/flatpak-util.c:2084-2104 | With a ref in two files, a complete run from a clean machine is not found clean |
| Dependencies.TransactionReady | libeos-updater-util/flatpak-util.c:1669-1755 | The operations on another ref, all of them and in order, each become a new flagged action of the same kind on the same ref, with the serial and source of the main one |
| Dependencies.FindRelated | libeos-updater-util/flatpak-util.c:1757-1871 | The same of what the dry run reports; nothing comes out exactly if it reports no other ref, or an update or uninstall is of what is not installed |
| Dependencies.AddDependencies | libeos-updater-util/flatpak-util.c:1898-1979 | The nested loops assemble and squash the list that the lemmas below are about |
| DependencyOrder.DependenciesOnce | libeos-updater-util/flatpak-util.c:1917-1978 | Each main action's ref and each dependency's ref is in the result once, and nothing else; a main action itself exactly if it is kept |
| DependencyOrder.DependencyInPlaceIff | libeos-updater-util/flatpak-util.c:1962-1974 | On every machine, what a kept install or update depends on is there just before it as the action that stands for it by then leaves it, or, if a later action takes it over, as it was on the machine, unless that one, an uninstall of the same serial, overtakes |
| DependencyOrder.MissingDependencyInPlaceIff | libeos-updater-util/flatpak-util.c:1962-1968 | Where it is missing, it is there in time exactly if no later action takes it over and the action that stands for it installs it |
| DependencyOrder.TakerFollows | libeos-updater-util/flatpak-util.c:525-556 | A later action that takes a ref over overtakes only as an uninstall of the same serial, in a list that uninstalls a dependency with that serial |
| DependencyOrder.TiedUninstallGoesFirst | libeos-updater-util/flatpak-util.c:525-556 | Such an uninstall of a dependency can overtake the install that needs it |
| DependencyOrder.RuntimeOnlyMentioned | libeos-updater-util/flatpak-util.c:1951-1957 | A runtime that an earlier action updates but is not installed, or that it uninstalls, is not installed for the app that needs it |
| DependencyOrder.RuntimeComesTooLate | libeos-updater-util/flatpak-util.c:1962-1974 | An app listed before its own runtime is installed before it, and without it |
| DependencyOrder.RemovedUnlessReinstalled | libeos-updater-util/flatpak-util.c:1932-1936 | The ref of a removed dependency ends up removed exactly if no later action installs it for good |
| DependencyOrder.RemovedDependencyComesLast | libeos-updater-util/flatpak-util.c:1932-1936 | That removal follows every kept uninstall that relates to it, short of a tie of main actions of both kinds |
| DependencyOrder.RemovedDependencyOutlasts | libeos-updater-util/flatpak-util.c:1932-1936 | Short of that, what an uninstall relates to is there just before it exactly if it was on the machine |
| DependencyOrder.TiedRemovalOvertakes | libeos-updater-util/flatpak-util.c:525-556 | In such a tie the removal can come before the uninstall that relates to it |
| DependencyOrder.TwoFilesClash | libeos-updater-util/flatpak-util.c:518-559 | An uninstall and an install with a dependency, sharing a serial, assemble to a list on which the comparator is no weak order |
| DependencyRuns.FailedActionOfferedAgainIff | libeos-updater-util/flatpak-util.c:1739-1750 | For any loaded files, a pending action that fails in a list with dependencies is pending again exactly when nothing performed before it carries its file and serial |
| DependencyRuns.FailedInstallIsForgotten | libeos-updater-util/flatpak-util.c:1739-1750 | One install that fails after its dependency was installed is not pending again |
| Removal.FileSystem.Delete | libeos-updater-util/util.c:217-235 | Deletes a file or an empty directory, and tells why it did not |
| Removal.FileSystem.RemoveIgnoringMissing | libeos-updater-util/util.c:216-235 | Succeeds on what is missing, and on what is not empty if told to |
| Removal.FileSystem.ScanDirectory | libeos-updater-util/util.c:272-310 | One directory's files are gone, its subdirectories are at the head of the queue, the ignored children counted |
| Removal.FileSystem.RemoveFiles | libeos-updater-util/util.c:266-316 | The queue loop ends, having visited every exposed directory and deleted every exposed file; the delete list is in order of falling depth |
| Removal.FileSystem.RemoveDirectories | libeos-updater-util/util.c:321-330 | The delete loop removes exactly the listed directories with nothing ignored beneath them |
| Removal.FileSystem.RemoveRecursive | libeos-updater-util/util.c:237-333 | On success what remains below the top is exactly what is ignored, what lies beneath that and what leads to it; on failure nothing that should remain is lost, and some path below the top could not be removed or read |
| Removal.SparedUnlessClear | libeos-updater-util/util.c:258-316 | Within the top, what should remain is what is shielded from the traversal or has something ignored at or below it |
| Removal.EmptyIffClear | libeos-updater-util/util.c:321-330 | When a listed directory's turn comes it is empty exactly if nothing below it is ignored, so ignoring "not empty" errors is right |
| Removal.NoneIgnored | libeos-updater-util/util.c:312-319 | If no visited directory had an ignored child then nothing below the top is ignored and the top may go |
| Protocol.AlwaysOneWorker | eos-updater/object.c:96-102 | In every run of calls, cancellations and completions a worker exists exactly in the three busy states, only one, of the kind the state names, with its own copy of the update on offer; the next task's cancellable is not cancelled; errors are shown exactly in the error state |
| Protocol.CallsExclude | eos-updater/object.c:96-102 | A task is accepted only when none runs and starts uncancelled; Cancel is accepted exactly when one runs |
| Protocol.CallAnswered | eos-updater/poll.c:891-910 | In every run a poll is accepted exactly if no task runs and no update has been applied, a fetch exactly if an update is available, an apply exactly if one is ready; the daemon is then busy with that one task on the update on offer, and any other call changes nothing |
| Protocol.CancelAnswered | eos-updater/main.c:86-113 | In every run Cancel cancels the task that runs, and none started later, and changes nothing else |
| Protocol.SharedDataStable | eos-updater/data.h:33-67 | While a worker lives, no event changes the data it shares |
| Protocol.CancelledIffCalled | eos-updater/main.c:108-109 | A worker is cancelled exactly if Cancel was called since it started: replacing the cancellable keeps later tasks out of it |
| Protocol.OutcomeOfTask | eos-updater/poll-common.c:1338-1415 | In every run a task lives until its own end; a cancelled one then shows the cancellation error whatever it returned, any other shows its own error or the state its outcome calls for, and only a poll that found an update changes the offer |
| Protocol.Provenance | eos-updater/poll-common.c:1342-1373 | An update on offer is the one the most recent poll found, with that poll's sources and flag, and was fetched and applied after it if the state says so |
| Protocol.AppliedWasPolledAndFetched | eos-updater/apply.c:419-438 | What has been applied was found by the most recent poll, then fetched, then applied, by tasks given that id and refspec |
| Protocol.FetchUsesItsOwnResults | eos-updater/fetch.c:1195-1227 | Whenever Fetch is accepted the shared results and the offline flag belong to the update on offer |
| Protocol.AppliedIsFinal | eos-updater/main.c:86-106 | After an update has been applied no event changes anything |
| Service.Updater.SetError | eos-updater/object.c:49-94 | Shows the error and the error state, other properties stay |
| Service.Updater.ClearError | eos-updater/object.c:104-119 | Clears the error and shows the state |
| Service.UpdaterService.constructor | eos-updater/main.c:143-167 | Starts ready or in error, without a task, with a fresh cancellable |
| Service.UpdaterService.ResetCancellable | eos-updater/data.c:52-63 | A cancelled cancellable is replaced by a new object, any other is kept |
| Service.UpdaterService.HandlePoll | eos-updater/poll.c:883-923 | The handler takes the step of a poll call, and replies accordingly |
| Service.UpdaterService.HandlePollVolume | eos-updater/poll.c:1029-1073 | The same for polling a volume |
| Service.UpdaterService.HandleFetchFull | eos-updater/fetch.c:1182-1232 | The same for fetching |
| Service.UpdaterService.HandleApply | eos-updater/apply.c:409-443 | The same for applying |
| Service.UpdaterService.HandleCancel | eos-updater/main.c:76-113 | Cancels the running task's object and replaces it, or refuses |
| Service.UpdaterService.MetadataFetchFinished | eos-updater/poll-common.c:1323-1426 | The callback takes the step of a finished poll |
| Service.UpdaterService.ContentFetchFinished | eos-updater/fetch.c:105-152 | The callback takes the step of a finished fetch |
| Service.UpdaterService.ApplyTaskFinished | eos-updater/apply.c:56-88 | The callback takes the step of a finished apply |
| Autoupdater.Agent.UpdatePollResults | eos-autoupdater/main.c:458-503 | The stored results are kept if they can be read and are about the same update, and replaced in memory, and if possible on disk, otherwise |
| Autoupdater.Agent.DoUpdateStep | eos-autoupdater/main.c:548-615 | Makes the call or stops as the reaction function says, for which Session.ReactsAsConfigured and Session.ApplyWaitsForDelay tell when; the results are never missing where the delay needs them |
| Autoupdater.Agent.OnStateChanged | eos-autoupdater/main.c:633-702 | The handler computes the reaction the lemmas are about, globals and file included |
| Autoupdater.Agent.InitialPollIdleFunc | eos-autoupdater/main.c:844-863 | The first reaction treats an error as ready |
| Autoupdater.CallFitsState | eos-autoupdater/main.c:633-702 | A call is made only in its own state, never past the configured last step, a poll only once |
| StoredResults.StoredFromIff | eos-autoupdater/main.c:341-503 | Over any number of runs and failed reads and writes, the file holds a note exactly if every later one that was written kept it and it did not keep the one before |
| StoredResults.CountedFromIff | eos-autoupdater/main.c:486-500 | The date in memory is that of the latest note, if what was last written before is about another update or cannot be read, and otherwise that of the note in the file |
| StoredResults.CountsFromChangeIff | eos-autoupdater/main.c:447-457 | That date is when the noted update last changed exactly if that note was written, or is the latest, the file could be read ever since, and what was last written before is about another update or could not be read |
| StoredResults.CountsFromLastChangeIff | eos-autoupdater/main.c:447-457 | When every read and write works it is that date and no other |
| StoredResults.UnreadableStartsAnew | eos-autoupdater/main.c:341-392 | A file that cannot be read makes the date start anew |
| StoredResults.UnwrittenIsForgotten | eos-autoupdater/main.c:406-447 | An update that could not be written leaves an older date to count again |
| Session.CallsOfEachRun | eos-autoupdater/main.c:548-615 | In every history each run calls poll, fetch, apply in that order, each at most once, none past the last step, and the daemon accepts every call |
| Session.RankFalls | eos-autoupdater/main.c:629-631 | Whatever happens within a run brings its end nearer |
| Session.RunsAreShort | eos-autoupdater/main.c:629-631 | A run has at most 73 steps |
| Session.RunEndsWithQuit | eos-autoupdater/main.c:699-711 | However calls, notifications and tasks are delayed, a run in which nothing can happen any more has quit |
| Session.EndsWhenDone | eos-autoupdater/main.c:651-701 | A run that ends without failing has nothing under way, and has polled in vain, gone as far as configured, left a visible update waiting or put the update in place |
| Session.FailsIffErrorSeen | eos-autoupdater/main.c:659-663 | The program reports failure exactly if the last state it reacted to was an error, and has quit then |
| Session.ApplyWaitsForDelay | eos-autoupdater/main.c:584-607 | Over any number of runs and failed reads and writes, a ready update is applied exactly if forced, not user visible, or the clock, negative times counting as 0, has reached the date that counts plus the delay, cut off at 2^64 - 1; that date is that of a note about this update |
| Session.ReactsAsConfigured | eos-autoupdater/main.c:633-702 | In every history, each new state has its one reaction: the first ready state of a run a poll, of the volume if one is given; an available update a fetch and a ready one an apply, as far as configured and as the delay permits; an error failure; work in progress is waited out, and everything else quits |
| Session.OthersLeaveUpdater | eos-autoupdater/main.c:633-645 | Nothing but a new state changes what the updater remembers, its file or its calls |
| Session.NotesWhatItLearns | eos-autoupdater/main.c:458-503 | The update shown is noted, with the time, exactly when a poll has ended or an available or ready update is met without results in memory; memory then holds the results that count, and none once a poll is started |
| Session.FileHoldsIff | eos-autoupdater/main.c:486-500 | In every history the file holds just the results that start the latest stretch of written notes about one update |
| Session.FailedPollKeepsDateIff | eos-autoupdater/main.c:641-645 | What the file holds survives a failed poll if it can be read and the daemon still shows that refspec and ID, and is otherwise replaced by those, dated now |
| Session.DelayStartsAgain | eos-autoupdater/main.c:641-645 | After an update was noted, a restart of the daemon and a failed poll make the delay start anew |
| Download.Fetch.UnscheduleDownload | eos-updater/fetch.c:822-860 | The entry is given up whether or not the scheduler could remove it |
| Download.FlagsBySignals | eos-updater/fetch.c:744-770 | After any rounds the flags say which signals have come, and the permission is the last one given |
| Download.Fetch.CheckScheduler | eos-updater/fetch.c:901-1018 | For every order of signals: forced and offline fetches never reach the scheduler; others wait until the scheduler's last word is yes or they are called off by a cancellation, an invalidated entry or a timeout that is set, and proceed exactly if its last word then is yes, holding an entry of their own; a refusal holds none |
| Download.Fetch.ContentFetch | eos-updater/fetch.c:1056-1152 | Nothing is pulled before permission; then the new way is tried if there are results, the old way if there are none or the new one failed other than by cancellation, the flatpaks after either has worked, and the fetch works exactly if that does; the entry is gone on every way out |
| Redirects.ParseLatestCommit | eos-updater/poll-common.c:869-959 | A redirection is one to another ref; a commit that is missing is none |
| Redirects.FetchLatestCommit | eos-updater/poll-common.c:763-861 | The loop, in which every round pulls afresh, computes the function the lemmas are about |
| Redirects.LoopFollowsRebases | eos-updater/poll-common.c:763-861 | The loop asks for the refs that the commits of its rounds rebase to, one after another, until one rebases to no other ref, and returns the checksum, version and notes of what that one leads to, or its failure |
| Redirects.LatestDescribesTerminal | eos-updater/poll-common.c:850-861 | Whatever refs come to lead to meanwhile, checksum, refspec, version and notes all describe one round's head of the first ref asked for that redirects nowhere, on the remote it started from |
| Redirects.FetchIsLastOfChain | eos-updater/poll-common.c:763-848 | While refs lead to the same, the loop finishes exactly when it has more rounds than the chain has redirections, with the last ref's error or description |
| Redirects.RoundsNeeded | eos-updater/poll-common.c:763-848 | A chain that ends needs as many rounds as it has distinct refs, no more and no fewer |
| Redirects.NeverFinishesIffComesBack | eos-updater/poll-common.c:924-941 | The loop goes on for ever exactly if the chain comes back to a ref |
| Redirects.TwoRefsNeverFinish | eos-updater/poll-common.c:924-933 | Two refs that redirect to each other are not cut |
| Updates.IsChecksumAnUpdate | eos-updater/poll-common.c:146-273 | Fails if the commit is not the booted one and cannot be loaded; otherwise it is an update exactly if it is not the booted one, and is on another ref, or the booted one is lost, or it is later; visible exactly if both majors are known and grow |
| Updates.CheckBranch | eos-updater/poll.c:355-445 | Fills in or clears the record with what one branch offers |
| Updates.CheckFollowingCheckpointIfAllowed | eos-updater/poll.c:562-605 | The checkpoint's branch counts only if the booted branch offers nothing |
| Updates.MetadataFetchNew | eos-updater/poll.c:608-687 | Filling and clearing the shared record step by step never mixes what offline and online sources found |
| Updates.MetadataFetchFromMain | eos-updater/poll.c:690-733 | The main source alone |
| Updates.MetadataFetchInternal | eos-updater/poll.c:735-857 | The record ends up with what the poll offers; a failed or empty search falls back to the main source |
| Updates.OfferIsLegitimate | eos-updater/poll.c:608-687 | An offer comes whole from one set of places, told by the flag and the source list, offline ones first; it ends a chain from the booted branch or the checkpoint, differs from what is booted, stays on its remote, and is later on the same ref |
| Updates.NoDowngrade | eos-updater/poll-common.c:233-257 | Along offered updates booted in turn, on one ref with loadable commits, dates strictly increase and no commit comes back |
| Updates.OfferedExactly | eos-updater/poll.c:735-857 | Every offer, whole, follows from where the refs lead, which commits can be loaded, their dates and majors, and who advertises them: there is one exactly if the search, offline before online before the main source, comes to a place that has one to take |
| Updates.CommitOfferedIff | eos-updater/poll-common.c:201-273 | In whichever places and from whichever branch the search comes to a loadable commit, it is offered exactly if it is on another branch, the booted one is lost, or it is later; and visibly exactly if both majors are known and grow |
| Updates.BranchesCanLeadBack | eos-updater/poll-common.c:238-257 | Across branches a system can come back to where it was, with every commit loadable and every checksum naming one commit |
| Sources.GetLatestUpdate | eos-updater/poll-common.c:1082-1144 | In any table order, the first source whose update no other exceeds in date, or none |
| Sources.RunFetchers | eos-updater/poll-common.c:1146-1209 | Fails exactly when a fetcher was cancelled, else chooses among what was fetched |
| Sources.ChosenIsLatest | eos-updater/poll-common.c:1146-1209 | The choice is the earliest in source order among the latest in date of all that was fetched |
| Sources.SomethingIsChosen | eos-updater/poll-common.c:1195-1208 | If anything was fetched something is chosen |
| Sources.GetCommitSizes | eos-updater/poll-common.c:1242-1321 | Each of the four is the sum of its own size over its own entries, all or those not in the repository, cut off at 2^64 - 1 |
| Sources.TotalOfParts | eos-updater/poll-common.c:1292-1312 | A sum over entries is that of its parts, however they are split, down to the single entry |
| Sources.PublishedSizes | eos-updater/poll-common.c:1376-1391 | The published sizes are those sums cut off at 2^63 - 1, and what is to be downloaded never exceeds the whole |
| SipHash.Siphash | libeos-updater-util/ostree-bloom.c:484-571 | The loop over words, the fall-through tail and the final rounds compute SipHash-2-4 as section 2 of the SipHash paper defines it, for every length |
| SipHash.TestVector | libeos-updater-util/ostree-bloom.c:484-571 | The definition gives the result that appendix A of the SipHash paper works out |
| SipHash.LastWord | libeos-updater-util/ostree-bloom.c:497-536 | The switch yields the last bytes, zeros and the length modulo 256 as one little-endian word |
| SipHash.RoundInPlace | libeos-updater-util/ostree-bloom.c:450-466 | The sequence of assignments is one round of the definition |
| SipHash.BytesOfWord | libeos-updater-util/ostree-bloom.c:434-448 | What is stored little-endian is loaded again |
| SipHash.StrBloomHash | libeos-updater-util/ostree-bloom.c:597-617 | The string hash is SipHash-2-4 under the function's own key |
| SipHash.KeyIsFunctionNumber | libeos-updater-util/ostree-bloom.c:609-612 | That key is sixteen times the byte that numbers the function |
| SipHash.CollectionRefBloomHash | libeos-updater-util/ostree-bloom.c:641-647 | The exclusive or of the two strings' hashes |
| Bloom.Bloom.constructor | libeos-updater-util/ostree-bloom.c:117-138 | No bit is set |
| Bloom.Bloom.FromBytes | libeos-updater-util/ostree-bloom.c:158-181 | The bits are those of the bytes |
| Bloom.Bloom.GetBit | libeos-updater-util/ostree-bloom.c:233-246 | Reads the numbered bit, in bounds |
| Bloom.Bloom.SetBit | libeos-updater-util/ostree-bloom.c:249-256 | Sets the numbered bit and no other |
| Bloom.NumberedFromLowest | libeos-updater-util/ostree-bloom.c:232-256 | Bits are numbered byte by byte, and from the lowest up in each |
| Bloom.IndexWraps | libeos-updater-util/ostree-bloom.c:346-347 | A hash that is so many whole arrays of bits and a rest stands for the bit numbered by the rest |
| Bloom.Bloom.AddElement | libeos-updater-util/ostree-bloom.c:335-349 | Sets the element's bits and no others; refused once sealed |
| Bloom.Bloom.MaybeContains | libeos-updater-util/ostree-bloom.c:271-291 | True exactly if all of the element's bits are set, so always for an element that was added |
| Bloom.Bloom.Seal | libeos-updater-util/ostree-bloom.c:308-321 | Returns the same bytes every time, holding exactly what was added |
| Bloom.AddedIsKept | libeos-updater-util/ostree-bloom.c:271-291 | Adding anything never loses what has been added |
| Bloom.PositiveIffCovered | libeos-updater-util/ostree-bloom.c:259-270 | A new filter answers yes exactly if each of the element's bits is shared with an added element |
| Bloom.ReloadRemembers | libeos-updater-util/ostree-bloom.c:158-181 | Reloaded from its bytes, a filter answers as before |

## Left out

- Actions.Effect: does not model the remote of origin, because squashing keeps the last install of a ref while a sequential run keeps the first origin.
- ActionSort.Compare: signed overflow, undefined in C, is modelled as 32-bit wrap-around.
- Recovery.RunKeepsOutcome: needs files that do not mention each other's refs; with shared refs it fails (Resumption.SharedRefComesBack), and Resumption.ResumesIff says exactly when it does not.
- Recovery.HistoryStaysOnPlan: the same; lists with dependency actions are not covered, as they can lose an action (DependencyRuns.FailedInstallIsForgotten).
- Recovery.EveryPublishedActionTakesEffect: the same two conditions, for the same reasons.
- Recovery.InterruptedEqualsUninterrupted: needs files that share no ref; for any loaded files see Attempts.AttemptsResumeIff.
- Convergence.OnlyIdleUpdatesLeft: needs files that share no ref, or the losing file's action is left (Resumption.SharedRefComesBack).
- Convergence.SecondRunFinishes: needs files that share no ref; for any loaded files see Resumption.EveryActionIsPassed.
- Checks.CheckCleanAfterIff: needs files that share no ref; for any loaded files see CheckMode.CleanAfterRunIff.
- Checks.RunKeepsCheckClean: needs files that share no ref, or it fails (CheckMode.SharedRefNotClean); CheckMode.RunKeepsCleanIff is the exact condition.
- PendingFacts.PendingBySource: needs files that share no ref; PendingFacts.PendingMember does not.
- Resumption.ResumesIff: loaded files have serials at most 2^31 - 1 apart, across files too; beyond that the lists are not in order (ActionSort.SortAscendsIffSpreadFits).
- DependencyOrder.DependencyInPlaceIff: the dependencies come from the caller as lists, flagged, with the serial and file of what needs them, all uninstalling or none as that does, and on other refs than its own, as DependencyOrder.DependenciesOnce, DependencyOrder.RemovedUnlessReinstalled and DependencyRuns.FailedActionOfferedAgainIff assume too.
- DependencyOrder.RemovedDependencyComesLast: in a tie of main actions of both kinds the order is not determined by the lists' contents but by where the merge sort halves them; only the direction that rules such ties out is proved.
- Installer.Machine.Run: what find_related reports for each action is an input, or that it failed.
- Installer.Machine.CheckRefActionsApplied: failures to look up a ref, which end the check early, are not modelled.
- Removal.FileSystem.RemoveRecursive: a failure to query the top itself other than its absence is not modelled; the filter is a set of ignored paths; the inner loops are methods of their own.
- Protocol.Step: the transient ready state before an error at the end of a poll is part of one step; the quit file, live systems (where all calls are refused) and the daemon losing its bus name are left out.
- Download.Fetch.ContentFetch: pulls are outcomes; that the scheduler may withdraw its permission during a pull is among them. Which remote the old way uses is not modelled, so an offline fetch that falls back may go online without asking.
- Autoupdater.Agent.DoUpdateStep: the force option passed with a fetch is not modelled.
- Session.Next: the daemon has no other client during a run, sends one notification for each change, in order, and does not disappear; the transport loses none.
- Redirects.FetchLatestCommit: the rounds that are considered are finitely many; the lemmas quantify over them. Which ref the finders are asked for, and reading the remote's collection ID, are not modelled.
- Redirects.NeverFinishesIffComesBack: refs keep leading to the same, as for the other lemmas about Redirects.Fetch; Redirects.LatestDescribesTerminal does not assume that.
- Updates.MetadataFetchInternal: cancellation, unreadable configuration and systems without a booted deployment are not modelled; a search that would never end counts as failed.
- Updates.IsChecksumAnUpdate: the leading number of a version is an input; parsing it is GLib's.
- Sources.GetLatestUpdate: dates outside the range of GDateTime are not modelled.
- SipHash.Siphash: the variant with 16 bytes of output is left out; the length is widened by its low byte, which is all the shift by 56 bits keeps.
- Bloom.Bloom.Seal: freeing, reference counting and taking over the buffer without a copy are not modelled.
- JSON parsing, filters by architecture and locale, key files and GVariant encoding: parsed lists and a counter map are inputs.
- libflatpak and libostree: transactions, pulls and deployments are steps that succeed or fail or return a given list.
- GLib containers are maps, sets and sequences; the sort is the stable merge sort as a function.
- D-Bus transport, metrics, logging, command lines, the HTTP server and the Avahi service files.
- File names compare by character, not by byte.
