# Verified models of the repository's protocols and algorithms

Each module models one self-contained mechanism of the repository and proves what it is for. Code that
changes things step by step is modelled as methods, loops and classes, and each such method is proved
against a specification; what the source promises is then proved of that specification, over every input,
every run or every interleaving.

| modules | mechanism |
|---|---|
| `MigrationGate`, `MigrationLineage` | the gate on committed migrations, the three-way merge behind it, and databases brought forward release by release against ones built today |
| `TimelineColumns`, `Timeline`, `TimelineLaws`, `TimelineRewrite`, `TimelinePasses`, `TimelineRun` | moving a seeding run's stored times into the past, in four passes and a closing check |
| `FileSets`, `PluginCommand` | the undo log over files whose writes may fail, and the command that relies on it |
| `Shutdown` | signals, a supervisor's channel, a deadline and the graceful end racing one another |
| `Sbom` | polling for a dependency report under a deadline, against any server and any clock |
| `ErrorGraph` | describing an error whose references may run in circles |
| `DirectoryTree`, `TreeHash`, `BuildContext` | the canonical bytes of a tree, the ignore matcher and its pruned walk |
| `Quantiles`, `RandomStream`, `Lockfile` | interpolated quantiles, a 32-bit hash loop, a lockfile reader and the printer it reads back |
| `Pools`, `CompileAdmission` | two worker pools and the admission of compilations |
| `Options`, `Ordering`, `Text` | shared: optional values, the order of strings and sorted listings, splitting and joining |

`dafny verify dfyconfig.toml` checks the whole project.

## What the proofs found

- **An acknowledged rename is not looked at.** The gate lets a rename it has acknowledged pass without the
  naming and ordering checks. An accepted change merges into the base plus its additions exactly when every
  rename it reports has already been made on the base (`AcceptedMergeIsBasePlusAdded`). For a well-named
  trunk, a database that was up to date and one built after the change agree exactly when its renames take
  no name away from the trunk and bring none that sorts before one of them (`CurrentBaseAgreesIff`). The one
  rename the source acknowledges, on a trunk that still has the old name, makes a database run the same SQL
  twice (`AcknowledgedRenameRunsTwice`); the source says that no deployment had applied it
  (`tools/quality/check-migrations-immutable.ts:94`).
- **The gate judges the base it is given.** Any merge that goes through, from whatever merge base, keeps the
  databases together exactly when HEAD has what the merge base and the trunk agree on of the trunk's
  migrations and every name the merge brings sorts after all that are there (`MergedAgreesIff`). For an
  accepted change merged from the merge base it was diffed from, against however old a base it was judged,
  that comes down to its renames and its names (`UpgradedAgreesIff`). Of any two files welcome on one base,
  both accepted and merging cleanly, the one that sorts first parts the databases when it lands second
  (`StaleBaseBreaksOrder`).
- **When the renames it reports have landed, HEAD itself is the base plus what was added exactly when it has
  every file of the base and the base still has the merge base's content where HEAD does**
  (`AcceptedHeadIsBasePlusAdded`): the gate judges a merge to come, not a branch pushed over the base.
- **The gate judges only what is added.** A file already on the base whose name the rule would refuse can
  sort after an added one; the lineage grows at its end exactly when none does (`LineageGrowsAtEnd`). With a
  `zz.sql` on the base every file the gate lets in parts the databases (`MisnamedFileBreaksOrder`).
- **A stray time is not always caught.** The comments at `tools/demo/timeline.ts:14-17` and `:276-280` say that a
  write outside every recorded step is refused. A revocation after the last step began is set to null and
  nothing is said (`LateRevocationIsErased`); a clean-up time written between two steps is carried off with
  the reservation it belongs to (`LateCleanupIsCarried`); and a value stamped by a process whose clock is behind
  the database's, after its step, is left as it is when that reading lies before the run on the database's
  clock, by which alone the check asks (`LateBindingIsMissed`). `StrayValueIsCaughtIff` says of every column, on
  either clock, exactly which stray values are left for the check to find. The check runs after the commit, so
  what it refuses stays rewritten.
- **Putting files back can fail too.** `Rollback` gives every file back exactly when no operation of its own
  throws; when one does the undo log stands and still leads back. So a command that ends with every file as it
  was ends `Refused`, and `Stuck` is exactly an operation that threw while putting back (`RunPluginCommand`).
- **A rule that puts a file back below a directory left out is not followed by the walk**, which does not
  enter that directory (`PutBackBelowIsMissed`); by the rules the repository ships, a `.env.example` below a
  `node_modules` is kept by the rules and not found by the walk (`ExampleInModulesIsMissed`). Without such rules
  walking is filtering (`WalkIsFilter`).
- **The compile permit does not bound compilations under way.** An interrupted request gives its permit back
  while its compilation goes on. One compilation is under way at a time exactly as long as the permit is
  never given while another goes on alone (`OneAtATimeIff`); with interruptions there is no bound
  (`InterruptedWithoutBound`).

## Model

| member | source | states |
|---|---|---|
| `MigrationGate.LaterStampSortsAfter` | packages/plugins/infra/database/src/defaults.ts:24 | of two well-named files the one with the later stamp sorts after the other, whatever their slugs |
| `MigrationGate.NamedAsSpelled` | packages/plugins/infra/database/src/defaults.ts:24 | the names the rule admits are just those put together of fourteen digits, or of them and words of lowercase letters and digits behind an underscore with dashes between, and `.sql` |
| `MigrationGate.Head` | tools/quality/check-migrations-immutable.ts:227-231 | the base's last stamp: one it has, with every other before it, and none exactly when no file is stamped |
| `MigrationGate.PlainDiffDescribes` | tools/quality/check-migrations-immutable.ts:129-214 | what is asked of a diff is met, between any two trees, by the one that tells no renames |
| `MigrationGate.AcceptedIffAcceptable` | tools/quality/check-migrations-immutable.ts:106-253 | the refusals, made one after the other, let a change pass exactly when the rollout overrides are the acknowledged ones and each names a migration of HEAD that says nothing itself, every line of the diff adds a file or renames one, content untouched, by a pair on the list, nothing on the base is edited, and each added file is well named, later than every stamp of the base, and declares its rollout |
| `MigrationGate.AcceptedKeepsCommitted` | tools/quality/check-migrations-immutable.ts:121-153 | an accepted change leaves every file of its merge base as it was, save one that an acknowledged pair moves, content and all; with none acknowledged it only adds |
| `MigrationGate.MergeIs` | tools/quality/check-migrations-immutable.ts:14-21 | the three-way merge of whole files is the given tree exactly when no path was moved by both sides apart and each path ends as the side that moved it has it |
| `MigrationGate.AcceptedMergeIsBasePlusAdded` | tools/quality/check-migrations-immutable.ts:129-214 | an accepted change merges without conflict into the base plus the added files, exactly when every rename it reports has landed on the base |
| `MigrationGate.AcceptedHeadIsBasePlusAdded` | tools/quality/check-migrations-immutable.ts:129-214 | when its renames have landed, HEAD without a merge is that tree exactly when it has every file of the base and the base still has the merge base's content at every path of both the merge base and HEAD |
| `MigrationLineage.CommittedLineageIsLineage` | tools/release/recovery-drill.ts:111-116 | the committed lineage is the tree's `.sql` files in name order, however the folder lists them |
| `MigrationLineage.LineageGrowsAtEnd` | tools/quality/check-migrations-immutable.ts:216-240 | the merged lineage is the base's followed by the sorted added names, exactly when no ill-named file of the base sorts after an added one |
| `MigrationLineage.MisnamedBaseFileBreaksOrder` | tools/quality/check-migrations-immutable.ts:212-240 | on every base on which the gate has nothing to say of the overrides, with any ill-named file there: a welcome file that does not sort after it is accepted, merges, does not stand at the end of the lineage, and parts upgraded databases from fresh ones |
| `MigrationLineage.DeployReachesFresh` | packages/plugins/infra/database/src/migrator.ts:158-177 | a database whose history is a beginning of the fresh one is brought to exactly the fresh one, names and contents |
| `MigrationLineage.MergedAgreesIff` | tools/quality/check-migrations-immutable.ts:8-21 | of any clean merge, whatever the gate saw of it: a database that was up to date before runs the same files in the same order as a fresh one exactly when HEAD keeps what the merge base and the trunk agree on of the trunk's migrations, and every name the merge brings sorts after all that were there |
| `MigrationLineage.UpgradedAgreesIff` | tools/quality/check-migrations-immutable.ts:8-21 | for an accepted change, whatever base it was judged against, merged from the merge base it was diffed from, that is: exactly when no migration of the trunk is renamed away and every name gained sorts after all that were there |
| `MigrationLineage.CurrentBaseAgreesIff` | tools/quality/check-migrations-immutable.ts:121-240 | judged against the well-named trunk it lands on: exactly when its renames take no name of the trunk and bring none that sorts before one |
| `MigrationLineage.StaleBaseBreaksOrder` | tools/quality/check-migrations-immutable.ts:225-240 | any two new files, each welcome on one base: both changes are accepted against it and merge cleanly one after the other, and when the second to land sorts first the databases part |
| `MigrationLineage.StepKeepsSound` | tools/quality/check-migrations-immutable.ts:129-253 | every merge that keeps the trunk as `MergedAgreesIff` has it, from whatever merge base, and every deployment, keeps all databases on the one history, and the history only grows |
| `MigrationLineage.RunsShareOneHistory` | tools/quality/check-migrations-immutable.ts:8-21 | over every run of proposals, each with a merge base of its diff and another of its merge, and of deployments, in which merges keep the trunk as `MergedAgreesIff` has it: a database deployed at any points and then once more has run the same files in the same order as one built today |
| `MigrationLineage.CurrentRunsArePossible` | tools/quality/check-migrations-immutable.ts:8-40 | from a well-named trunk on, every run in which changes are judged against the trunk they land on, by the merge that lands them, and their renames are made already or are harmless and well named, is such a run |
| `MigrationLineage.UnlandedRenameRunsTwice` | tools/quality/check-migrations-immutable.ts:121-140 | an accepted rename of a file the trunk still has, to a name it has not, makes a database that ran the old name run its SQL again and end unlike a fresh one, whenever it merges |
| `MigrationLineage.AcknowledgedRenameRunsTwice` | tools/quality/check-migrations-immutable.ts:90-96 | the one pair acknowledged is such a rename on every trunk that still has the old name |
| `MigrationLineage.LedgerAgainstHistory` | tools/release/recovery-drill.ts:118-128 | of two points of one history either ledger stands against the other exactly by the names between them |
| `MigrationLineage.LedgerAgainstTrunk` | tools/release/recovery-drill.ts:118-128 | after every accepted run no database holds a foreign name, and `behind` is the number of migrations a deployment would apply |
| `MigrationLineage.LedgerAgainstCounts` | tools/release/recovery-drill.ts:123-128 | without repeats: nothing is foreign exactly when every applied name is of the lineage, and `behind` counts the names not applied |
| `TimelineColumns.ListsAreSound` | tools/demo/timeline.ts:20-125 | the lists as they stand do not contradict one another: each column is moved once, companions follow moved columns, and only trailing and leading ones get a second look |
| `Timeline.Recorder.Step` | tools/demo/timeline.ts:161-174 | a step that succeeds adds one window with its two clocks' readings, one that fails adds none, and windows recorded one after another stay apart |
| `TimelineRewrite.MoveRow` | tools/demo/timeline.ts:214-226 | a row is updated exactly when a window of the column's clock holds its value, and then to the step's moment plus its offset |
| `TimelineRewrite.CompanionRow` | tools/demo/timeline.ts:199-213 | a companion is shifted exactly when it is set and a window holds the value it follows |
| `TimelineRewrite.FindLastBegun` | tools/demo/timeline.ts:232-239 | the latest window begun by a time, none exactly when none has begun |
| `TimelineRewrite.FindNextBegun` | tools/demo/timeline.ts:251-258 | the earliest window still to begin, none exactly when none is left |
| `TimelinePasses.Database.PassCompanions` | tools/demo/timeline.ts:199-213 | every companion column follows its column's windows as that column stands before the pass, all else is kept, and the count is the number of cells updated |
| `TimelinePasses.Database.PassMoved` | tools/demo/timeline.ts:214-226 | the same of every moved column |
| `TimelinePasses.Database.PassLook` | tools/demo/timeline.ts:227-264 | every run-time value left in a trailing column goes with the last step begun before it, in a leading one to the next step's moment; a pass that fails found such a value, required and with no step to take it |
| `TimelineRun.PassesRewrite` | tools/demo/timeline.ts:184-264 | four passes, each over the tables the one before left, amount to one rewrite stated cell by cell |
| `TimelineRun.EachMovedOnce` | tools/demo/timeline.ts:186-263 | when the story lies in the past no cell is updated by two passes, so the sum of the row counts is the number of values moved |
| `TimelineRun.Transact` | tools/demo/timeline.ts:184-270 | all four passes, or every table as it was and then some required value of the run had no step to take it |
| `TimelineRun.Rewrite` | tools/demo/timeline.ts:184-274 | a refusal leaves every table as it was and tells of such a value; a return means the cells were rewritten, the count is that of the cells updated, and no column holds a time of the run up to the check |
| `TimelineRun.EachByItsOwnClock` | tools/demo/timeline.ts:99-125 | by the lists as they stand, with two steps whose windows on the two clocks cross: of two equal values one goes with the second step and one with the first, each as its own clock has it |
| `TimelineRun.RequireNothingLeftBehind` | tools/demo/timeline.ts:281-299 | names every column holding a run-time value when it began, and no column that holds none when it ends |
| `TimelineRun.StrayValueIsCaught` | tools/demo/timeline.ts:276-299 | a value in an unlisted column, or in a moved one outside every window, is found - save in the trailing, leading and companion columns, which the next row takes in |
| `TimelineRun.StrayValueIsCaughtIff` | tools/demo/timeline.ts:198-299 | for every column on either clock, companions included, and any value no window of its own holds: exactly when the check still counts it afterwards, in terms of the windows, the value a companion follows and whether the database's clock has it in the run |
| `TimelineRun.LateRevocationIsErased` | tools/demo/timeline.ts:246-264 | by the lists as they stand, a revocation after the last step began is set to null and the check finds nothing |
| `TimelineRun.LateCleanupIsCarried` | tools/demo/timeline.ts:199-213 | by the lists as they stand, a clean-up time outside every window is carried to the past with its reservation and the check finds nothing |
| `TimelineRun.LateBindingIsMissed` | tools/demo/timeline.ts:99-125 | by the lists as they stand, an attachment bound outside every window, by a process whose clock is behind the database's, keeps that time and the check finds nothing |
| `TimelineLaws.WindowedValueMovesOnce` | tools/demo/timeline.ts:214-226 | a value written in a window ends at the step's moment plus its offset there, and no later pass moves it again |
| `TimelineLaws.NodeValueMoves` | tools/demo/timeline.ts:198-226 | a time stamped from the process's clock, at which a step was under way on that clock, ends at the step's moment plus its distance from the step's start on that clock |
| `TimelineLaws.DatabaseValueMoves` | tools/demo/timeline.ts:198-226 | any other moved time so by the database's clock |
| `TimelineLaws.WindowKeepsDistances` | tools/demo/timeline.ts:214-226 | two values of one window keep their distance |
| `TimelineLaws.CompanionKeepsDistance` | tools/demo/timeline.ts:198-226 | a companion stays as far from the time it follows as it was |
| `TimelineLaws.NodeCompanionShifts` | tools/demo/timeline.ts:199-213 | a companion of a time stamped from the process's clock is shifted by the moment less the start, on that clock, of the step under way at that time |
| `TimelineLaws.DatabaseCompanionShifts` | tools/demo/timeline.ts:199-213 | and else by the start on the database's clock |
| `TimelineLaws.CompanionStays` | tools/demo/timeline.ts:199-213 | with nothing to shift, nothing to follow or no step under way then it stays as it is |
| `TimelineLaws.OrderSurvivesIffSpaced` | tools/demo/timeline.ts:161-174 | placing keeps the order of all times in windows of a clock exactly when the story leaves each step room for its window |
| `TimelineLaws.StoredOrderSurvives` | tools/demo/timeline.ts:10-12 | so the rewrite keeps the order of every two cells stored in windows of one clock |
| `TimelineLaws.UnspacedStepsTurnRound` | tools/demo/timeline.ts:10-12 | and between two steps without that room it turns round what is stored at the end of the one and the start of the other |
| `TimelineLaws.TrailingValueFollowsItsStep` | tools/demo/timeline.ts:227-245 | a trailing value between windows goes with the last step begun before it, and is null exactly when there is none |
| `TimelineLaws.LeadingValueFollowsItsStep` | tools/demo/timeline.ts:246-264 | a leading value between windows goes to the next step's moment, and is null exactly when there is none |
| `TimelineLaws.TrailingValueMoves` | tools/demo/timeline.ts:227-245 | with the steps in order: of the first n begun by then the last takes it, at its distance from that step's start, and none does when n is nought |
| `TimelineLaws.LeadingValueMoves` | tools/demo/timeline.ts:246-264 | and a leading one goes to the moment of the first step not begun before it, and to none when there is none |
| `FileSets.Disk.WriteAtomic` | packages/core/assembly/src/lock.ts:186-205 | a write that throws leaves the old bytes or the new ones |
| `FileSets.ReplayIgnoresLogged` | apps/cli/src/resolution.ts:69-74 | replaying the log does not depend on what the logged files hold now |
| `FileSets.ReplayLeavesOthers` | apps/cli/src/resolution.ts:69-74 | replaying the log touches no other file |
| `FileSets.ReplayCoversWrite` | apps/cli/src/resolution.ts:58-65 | an entry recorded before its write covers it, landed or not, repeats of one file included |
| `FileSets.FileSet.Write` | apps/cli/src/resolution.ts:58-68 | throws exactly when an operation of the disk does; after any sequence of writes, thrown ones too, the log newest first leads back to the files at open; says exactly when a file is written, left or in doubt |
| `FileSets.FileSet.Rollback` | apps/cli/src/resolution.ts:69-76 | exactly when no operation of its own throws, every file is back with its presence and bytes and the log is empty; else the log is kept and still leads back |
| `PluginCommand.ApplyAt` | apps/cli/src/resolution.ts:98-111 | files no target names are left alone, others hold a content given for them |
| `PluginCommand.LastOneWins` | apps/cli/src/resolution.ts:88-94 | a file given twice ends with the last content |
| `PluginCommand.SettledIffConsistent` | apps/cli/src/resolution.ts:88-94 | all targets hold afterwards exactly when no file was given two contents |
| `PluginCommand.WriteResolution` | apps/cli/src/resolution.ts:97-111 | exactly when nothing throws the disk ends with every target, each line said right for its file; the log covers what was touched |
| `PluginCommand.NothingWrittenIffSettled` | apps/cli/src/resolution.ts:103-110 | nothing is said to be written exactly when everything already was as it should be, and then the lock alone is named |
| `PluginCommand.SecondWriteIsQuiet` | apps/cli/src/resolution.ts:97-111 | a second write writes nothing exactly when no path has two contents; with distinct paths it says that the lock is unchanged and no more |
| `PluginCommand.WriteProposal` | apps/cli/src/plugin.ts:102-126 | the writing part of it: everything proposed, or every file as it was, or a fault while putting back |
| `PluginCommand.RunPluginCommand` | apps/cli/src/plugin.ts:54-126 | which outcome there is, by the verb and what the manifest's text parses to: each refusal exactly when its own condition holds, `already so` exactly when enabling the enabled or disabling the disabled, and else the edited text is proposed; then the manifest, the lock and all modules are as proposed, and nothing threw; or every file is as it was, because a write threw or nothing resolved; only when an operation throws while putting back may files of the proposal, and no others, differ |
| `Shutdown.Process.constructor` | apps/server/src/main.ts:294-305 | the state of the empty history: one drain registered, the one that arms the deadline |
| `Shutdown.Process.RequestShutdown` | apps/server/src/shutdown.ts:35-39 | the first request runs every drain in order and arms the deadline; a later one changes nothing |
| `Shutdown.Process.OnSignal` | apps/server/src/main.ts:325-341 | keeps the variables what the history makes of them, and exits exactly when the history says that the press is a distinct later one |
| `Shutdown.Process.OnTimer` | apps/server/src/main.ts:305-320 | the same; exits exactly when the first request is a deadline ago, with the code of the first signal if any came |
| `Shutdown.Process.OnUnwound` | apps/server/src/main.ts:352-367 | the same; the runtime's end exits with 0 when it succeeded or was only interrupted, else with 1 |
| `Shutdown.RunIsAccount` | apps/server/src/main.ts:301-342 | over every history the live process's state is what the history says: first request, first signal, drains registered in time |
| `Shutdown.EventEndsIt` | apps/server/src/main.ts:301-342 | each event ends the process exactly when, and with the code, the history says, and a process that is gone stays as it is |
| `Shutdown.DrainsRunOnce` | apps/server/src/shutdown.ts:16-39 | the drains run are those registered before the first request, once each and in that order; none registered later runs |
| `Shutdown.OnlyADistinctPressForces` | apps/server/src/main.ts:326-333 | a signal within a second of the first changes nothing; a later one exits with its own code; a first one never exits |
| `Shutdown.FiredTimerEndsIt` | apps/server/src/main.ts:305-320 | a history in which the timer has fired, when due or later, has no process left, gone by then: at the timer with the first signal's code if any came, even after the channel asked first, else with 1, or at an event before it |
| `Shutdown.GoneByDeadline` | apps/server/src/main.ts:305-320 | so, if the surroundings let the timer fire at most so much late and before anything later, whatever comes after that finds the process gone, by the first request plus the deadline and that lateness |
| `Shutdown.NothingAfterDeadline` | apps/server/src/main.ts:305-320 | no event finds the process alive later than that, and the timer, fired when due or later, is its end |
| `Shutdown.ExitInTime` | apps/server/src/main.ts:305-320 | every exit after a request happens by the first request plus the deadline and that lateness |
| `Shutdown.ArmedOnce` | apps/server/src/main.ts:305-320 | whatever comes after, the deadline is never moved and no drain runs again |
| `Shutdown.GoneAt` | apps/server/src/main.ts:301-367 | a process that is gone went at one event of its history, for what the history said then |
| `Sbom.Client.Pause` | tools/lib/sbom.ts:126-133 | after an answer whose `retry-after`, or without one whose `x-poll-interval`, says n it sleeps n seconds; without either, at the limit, until the second the limit is said to be reset; else, or after a throw, five seconds for every try in a row; never over a minute; refuses exactly when that does not fit in the time left |
| `Sbom.HeaderSays` | tools/lib/sbom.ts:55-63 | a header is read as the number that printed, with zeros in front or not, gives it, and as none exactly when it has a character that is no digit, or none at all |
| `Sbom.WaitIs` | tools/lib/sbom.ts:53-66 | the wait worked out for an answer is the one wait that fits the numbers its headers say |
| `Sbom.Client.Ask` | tools/lib/sbom.ts:134-149 | one to five fetches of that one address with a wait between each; gives the one answer that is not transient, or none, and that only after five tries that failed or when the wait for the last answer did not fit |
| `Sbom.Client.Download` | tools/lib/sbom.ts:181-196 | a report that redirected is fetched from where it redirected, without the token, and the outcome is what that tells |
| `Sbom.Client.FetchReport` | tools/lib/sbom.ts:167-196 | from an accepted job on, the outcome is what the settled answers tell, and they tell the end unless five tries in a row failed or a wait did not fit; asks the report's address and where it redirected alone; ends on every server |
| `Sbom.Client.FetchSbom` | tools/lib/sbom.ts:107-197 | a document comes of an accepted job, polls not ready, a redirect and a download that reads, each where the one before said, and every other trace gives none; gives up before an end is told only after five tries in a row or when a wait did not fit; all waits together are shorter than the deadline; at most three requests more than waits; asks only the addresses the answers name; the token goes to the API alone |
| `Sbom.PollsDoNotMatter` | tools/lib/sbom.ts:167-174 | how often the report was not ready, and what those answers held, does not change the outcome |
| `ErrorGraph.Describer.DescribeError` | apps/cli/src/main.ts:102-111 | ends on every finite graph; its lines and the `seen` it leaves are those of the walk |
| `ErrorGraph.FirstLine` | apps/cli/src/main.ts:102-104 | an error not told of yet begins with its message, or with its name when that is empty; one told of, or no error at all, is one line |
| `ErrorGraph.CarriedBeforeCause` | apps/cli/src/main.ts:104-110 | an error's heading comes first, then what it carries in order, then its cause |
| `ErrorGraph.WrappedAreToldInOrder` | apps/cli/src/main.ts:102-111 | errors wrapped in one another, however many, are headed from the outside in and nothing else is said, save what the innermost was caused by, even when that is one of them again |
| `ErrorGraph.SeenIsExactlyReachable` | apps/cli/src/main.ts:102-111 | started with nothing seen, the final `seen` is exactly the errors reachable through `errors` and `cause` |
| `ErrorGraph.SaidOnce` | apps/cli/src/main.ts:102-111 | from any `seen`: each error newly seen is headed once, and the lines are one more than the references those errors hold |
| `ErrorGraph.EveryReachableErrorIsHeadedOnce` | apps/cli/src/main.ts:94-111 | from the top: every reachable error has its heading said exactly once, nothing else has, and there is one line more than references |
| `TreeHash.Walker.Walk` | tools/repo/vendor-sync.ts:163-171 | pushes the paths of the files below, directory by directory |
| `TreeHash.VisitedIsEveryFile` | tools/repo/vendor-sync.ts:163-172 | the paths pushed are exactly those at which a file stands |
| `TreeHash.VisitedOnce` | tools/repo/vendor-sync.ts:163-172 | no path is pushed twice |
| `TreeHash.SortingFullPaths` | tools/repo/vendor-sync.ts:174-175 | full paths under one root sort as the paths below it do |
| `TreeHash.TreeContentBytes` | tools/repo/vendor-sync.ts:161-180 | the bytes digested are relative path, zero byte and content digest of each file, in the order of the full paths |
| `TreeHash.RenderIsInjective` | tools/repo/vendor-sync.ts:173-178 | the bytes can be read back: equal bytes mean the same paths in the same order with the same digests |
| `TreeHash.SameBytesIffSameFiles` | tools/repo/vendor-sync.ts:151-180 | two trees give the same bytes exactly when they have files at the same paths with the same digests; listing order, empty directories and special files have no part in it |
| `BuildContext.ContextExcludes` | tools/release/context.ts:46-57 | the loop's verdict is that of the last rule matching the path or an ancestor |
| `BuildContext.LastRuleDecides` | tools/release/context.ts:46-57 | a rule hits a path by itself or by a directory on the way to it; with no rule hitting, the path stays in, and else the last that does decides |
| `BuildContext.ExcludedBelow` | tools/release/context.ts:46-57 | without a `!` rule what is left out stays out all the way down |
| `BuildContext.WalkIsEveryReachedFile` | tools/release/context.ts:65-81 | the walk gives exactly the files no step to which, below the start, is left out; the start itself is not asked about |
| `BuildContext.NameGivesReachedFiles` | tools/release/context.ts:65-81 | from a name: those files under what stands there, and nothing when nothing stands there |
| `BuildContext.WalkedOnce` | tools/release/context.ts:65-81 | no file is given twice |
| `BuildContext.ListingOrderDoesNotMatter` | tools/release/context.ts:75-80 | the result, its order included, does not depend on the order directories are listed in |
| `BuildContext.WalkIsFilterWithoutPruned` | tools/release/context.ts:65-81 | from a start that is kept, the walk is the filter of all files less exactly those kept below a directory left out |
| `BuildContext.WalkIsFilter` | tools/release/context.ts:46-81 | without a `!` rule the pruned walk is the filter of all files |
| `BuildContext.PutBackBelowIsMissed` | tools/release/context.ts:42-81 | with one it need not be, whatever the matcher and the other rules: where a rule that leaves out decides of a directory and one that puts back of a file in it, the file is kept and not found |
| `BuildContext.LiteralPutBackIsMissed` | tools/release/context.ts:42-81 | so with a literal rule leaving out a directory and one putting back a file in it, for any matcher that takes those two patterns literally |
| `BuildContext.ExampleInModulesIsMissed` | tools/release/context.ts:33-81 | by the rules as they stand, so is a `.env.example` in a `node_modules` |
| `Quantiles.QuantilesAscend` | tools/demo/compile.ts:363-372 | none for no values, else twenty-one that never fall |
| `Quantiles.EndsAreExtremes` | tools/demo/compile.ts:363-372 | the first is the rounded minimum, the last the rounded maximum |
| `Quantiles.OnAnElement` | tools/demo/compile.ts:366-371 | a quantile that falls on an element of the sorted list is that element, rounded |
| `Quantiles.InProportion` | tools/demo/compile.ts:366-370 | one that falls r twentieths of the way from an element of the sorted list to the next is the first plus that share of their difference, rounded |
| `Quantiles.CentsIsNearest` | tools/demo/compile.ts:370 | rounding gives the nearest whole number of hundredths, the upper of two as near |
| `Quantiles.OrderDoesNotMatter` | tools/demo/compile.ts:365 | permuting the values changes nothing |
| `RandomStream.HashOf` | tools/demo/seed/random-stream.ts:4-10 | the loop, in signed 32-bit arithmetic, computes FNV-1a |
| `RandomStream.StepIsMix` | tools/demo/seed/random-stream.ts:7 | one step is exclusive or and multiplication modulo 2^32, whatever the signs in between |
| `RandomStream.XorBits` | tools/demo/seed/random-stream.ts:7 | each bit of an exclusive or is set exactly when the two bits differ |
| `RandomStream.InFigures` | tools/demo/seed/random-stream.ts:5-7 | the start is the exclusive or of the two constants, and a step multiplies by the prime modulo 2^32 |
| `RandomStream.MixIsBijection` | tools/demo/seed/random-stream.ts:7 | for each byte a step is a bijection on 32-bit words, with its inverse |
| `RandomStream.HashIsBijection` | tools/demo/seed/random-stream.ts:5-8 | so is hashing any bytes |
| `RandomStream.OneByteChangesTheHash` | tools/demo/seed/random-stream.ts:4-10 | bytes of one length that differ in exactly one place never hash to the same value |
| `Lockfile.LockedPackages` | tools/lib/lockfile.ts:28-42 | the loop with its early end collects the entries of the section |
| `Lockfile.KeySplits` | tools/lib/lockfile.ts:37-39 | a key reads back as its name and version exactly when there is a name and the version has no `@` |
| `Lockfile.KeyIs` | tools/lib/lockfile.ts:35 | a line holds a key exactly when it is two spaces, a quote or none, the key, a quote or none and a colon; the key begins with no space and no quote, has no line end in it, and ends in a quote only before another |
| `Lockfile.KeyLineReadsBack` | tools/lib/lockfile.ts:34-39 | a printed key, quoted or bare, scoped or not, gives its package |
| `Lockfile.PrintedReadsBack` | tools/lib/lockfile.ts:28-42 | a printed file reads back entry for entry and in order, whatever attributes, blank lines and sections stand around |
| `Pools.Pool.Take` | tools/benchmarks/formula-provisional-scoring.ts:170-174 | keeps the variables what the steps so far make of them, and starts the first task not yet started, or returns when there is none |
| `Pools.Pool.End` | tools/benchmarks/formula-provisional-scoring.ts:174 | the same; the task had not ended before, and its failure is its worker's end |
| `Pools.Lanes.Take` | tools/quality/typecheck.ts:115-117 | keeps the variables what the steps so far make of them, and starts the first project not yet started, or returns |
| `Pools.Lanes.End` | tools/quality/typecheck.ts:118-130 | the same; the project had not ended before, its two lines are said together, a failure is noted and the lane goes on |
| `Pools.SaidTogether` | tools/quality/typecheck.ts:122-127 | in all that is said each project's heading and output stand together, in the order the projects ended |
| `Pools.RunKeeps` | tools/benchmarks/formula-provisional-scoring.ts:167-178 | over every interleaving: tasks start in order, and each started one has exactly one worker or has ended |
| `Pools.StartsInOrderWithinWidth` | tools/benchmarks/formula-provisional-scoring.ts:166-178 | tasks start in order of submission, once each, end once having started, and no more are in flight than workers, in both pools |
| `Pools.StoppedHasRanAllIff` | tools/benchmarks/formula-provisional-scoring.ts:167-178 | when no worker goes on, every task has run once exactly when the list was handed out |
| `Pools.PoolRunsAll` | tools/benchmarks/formula-provisional-scoring.ts:166-178 | with fewer failures than workers every task has run once, and some worker returned exactly then |
| `Pools.LanesRunAll` | tools/quality/typecheck.ts:115-133 | whatever fails, every project has been checked once when the lanes are done |
| `Pools.RunIsAsLongAsItsWork` | tools/benchmarks/formula-provisional-scoring.ts:167-178 | no run is longer than two steps a task and one a worker, and until all have stopped there is a step to take |
| `CompileAdmission.Authoring.Compile` | apps/sandbox-authoring/src/main.ts:91-96 | keeps the variables what a possible history makes of them, and refuses exactly when eight requests wait or run |
| `CompileAdmission.Authoring.TakePermit` | apps/sandbox-authoring/src/main.ts:97-100 | the same; the permit is there only when none runs, and then this one runs alone |
| `CompileAdmission.Authoring.Settle` | apps/sandbox-authoring/src/main.ts:100-138 | the same; a compilation's end, well or not, leaves none running |
| `CompileAdmission.Authoring.Interrupt` | apps/sandbox-authoring/src/main.ts:97-138 | the same; an interrupted request is pending no more, and what is under way stays under way |
| `CompileAdmission.RunKeeps` | apps/sandbox-authoring/src/main.ts:74-138 | over every interleaving: the counter is the requests waiting or running and at most eight, and at most one runs |
| `CompileAdmission.RefusedExactlyWhenFull` | apps/sandbox-authoring/src/main.ts:91-94 | a request is refused exactly when eight are pending, and the counter is nought exactly when none is |
| `CompileAdmission.OneAtATimeIff` | apps/sandbox-authoring/src/main.ts:97-101 | over every history: at most one compilation is under way throughout exactly when the permit is never given while one goes on alone |
| `CompileAdmission.UninterruptedOneAtATime` | apps/sandbox-authoring/src/main.ts:97-101 | without interruptions one compilation is under way at the most |
| `CompileAdmission.InterruptedWithoutBound` | apps/sandbox-authoring/src/main.ts:97-138 | with them, for every number there is a history after which that many are under way and none pending |
| `Ordering.SortingAListing` | tools/release/recovery-drill.ts:116 | a listing without repeats sorts to the one ascending list of its names, whatever order it came in |
| `Text.SplitOfJoin` | tools/release/context.ts:47-48 | parts without the separator come back as they were |

## Left out

- Git's own working: the diff's lines are a parameter about which only what git promises of a diff is assumed; file modes, copies and the choice of renames are git's.
- Reading the rollout override file (`tools/quality/check-migrations-immutable.ts:51-67`): what it says is a parameter of the gate.
- `MigrationGate.MergeIs`: merges whole files, where git would merge lines and follow a rename on one side. An accepted change edits no file its merge base has, so only a trunk that edited or renamed a committed migration would tell the difference.
- How a migration's SQL declares its rollout: an abstract test of the blob.
- JavaScript compares UTF-16 units when it sorts; strings here are compared character by character, which differs for names with characters beyond the basic plane.
- PostgreSQL: a table's column is a sequence of optional whole numbers, an update is a loop over the rows that reads the clock for each, and a null put in a required column fails the statement. Missing tables, locks and other writers are not part of the model.
- `TimelineRun.StrayValueIsCaught`: leaves the trailing, leading and companion columns, and the readings of the process's clock outside the run, to `StrayValueIsCaughtIff`.
- `TimelineRun.StrayValueIsCaughtIff`: leaves open a value written to a column with a second look while that look goes on: an update reads the clock for each row, so it may take the value or not.
- A manifest whose first reading throws: the command fails with nothing written yet.
- The directories a write creates and the temporary file it goes through; programs that write the same files at the same time.
- `editManifest`, `resolvePackageDir`, `readLock` and `resolveAssembly`: abstract functions of what they read.
- Messages, colours and log lines, save where which file or task is named is the point.
- Drains that throw or register further drains, and the runtime's own handling of signals; `shutdownTimeoutMs` (`packages/core/assembly/src/host.ts:114`) gives the deadline, a parameter here.
- `Shutdown.ExitInTime`: assumes of the surroundings that the due timer fires no later than a bound, and nothing later is heard of before; how late an event loop that is blocked may be is that bound.
- `Shutdown.Process.OnUnwound`: takes the runtime's end for the process's; with code 0 and no signal the platform may first let the event loop run dry.
- `Sbom.Client.FetchSbom`: termination needs that a fetch, or a sleep, never comes back within the same millisecond; with neither, a server that says `retry-after: 0` can keep the loop going.
- Redirects the platform's own `fetch` follows while generating the report, and `readSpdx`, an abstract reading of the body.
- `AggregateError.errors` that is not a list, and getters with effects.
- SHA-256: an abstract function to 32 bytes. Two different files with one digest are one file to the tree hash.
- Symbolic links: special to the tree hash, which asks the entry itself; what they point to for the walk, which follows them, and no entry when they point nowhere. A tree here is finite.
- Glob matching: an abstract test of a path against a pattern; reading the rules' lines from the file is left out.
- The stream `checkoutOf` digests, which cannot be read back uniquely and of which nothing is claimed.
- Rounding of floating-point numbers in the quantiles, NaN and infinities: exact arithmetic.
- The text hashed for a random stream: any bytes; how the parts become JSON and UTF-8 is the platform's.
- `documentCount` and the lockfile's other sections.
- The bytes a child process prints, and how its end is noticed: a task ends well or not.
- A yield of the runtime between the counter's increment and the finalizer's registration, and the order in which waiting requests are given the permit: any order.
- The user interface, brand drawings, smoke and end-to-end scripts, and the deployment protocol described in `deploy/README.md`.
