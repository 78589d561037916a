# Migration history and release merges

A model of the parts of the Papital Workshop ERP that keep its histories straight, with proofs of what they promise:

- **Merge-time renumbering** (`scripts/renumber/plan.ts`, `scripts/renumber/conflicts.ts`). Two branches release in
  parallel; the merge unites their changelogs, migration journals and debt registries, and the branch's versions, migrations
  and audit sections move behind the base's.
- **Migration planning and running** (`src/db/migrationPlan.ts`, `src/db/migrator.ts`). The planner predicts what the Drizzle
  migrator will do ("run every entry whose `when` is greater than the last `created_at`") and refuses every history in which
  that rule would silently skip a migration; the runner does so under an advisory lock while several processes of different
  builds may start together.
- **Release bookkeeping** (`scripts/release.ts`, `scripts/governance/releaseGuards.ts`). A change adds its line, a cut
  releases the waiting lines; debt rows are opened and closed; a separate gate checks the result.
- **The browser's requests** (`fetchJson`, `src/api.ts`). Retries, waits and one idempotency key.

## How it is built

A text file is the sequence of its lines. Each source file has modules of its own: the definitions and methods first, the
theorems about them after them, where there are many in a module named `...Theorems`. Where the source computes with expressions the model is functions; where
it loops, fills an array or updates fields, the model is a method or a class proved equal to a function, and the theorems are
about that function. The shared modules are `Seqs`, `Sorting`, `Merging`, `Texts`, `Decimals` and `Versions`. Every lemma
switches automatic induction off, so each proof is the one that is written.

| module | of |
|---|---|
| `MigrationPlan`, `MigrationPlanTheorems`, `MigrationReports` | the journal check, the fold of the squashed history, the plan |
| `Migrator`, `MigratorOutcomes` | `runMigrations` as a step system of any number of processes |
| `JournalMerge`, `JournalMergeTheorems`, `MigrationNames` | `unionJournal` and the renumbering of migrations |
| `LineDiff` | `addedLineIndexes` |
| `Hunks`, `DebtRows` | `resolveHunks`, `unionRows` |
| `Changelog`, `ChangelogPlan`, `ChangelogTheorems`, `ChangelogReads` | `splitChangelog`, `unionChangelog`, `planVersions`, the active file |
| `ChangelogMd`, `Unreleased`, `UnreleasedReads` | `sortChangelogMd`, `unionUnreleased` |
| `MdMerge`, `MdLayout`, `MdReading`, `MdMergeTheorems`, `MdFailures`, `VersionSections` | `unionChangelogMd`: the version sections of CHANGELOG.md in a merge |
| `Rewriting`, `RewritingTheorems`, `RewritingPasses`, `SectionPlan`, `SectionNumbers`, `SecondPass` | `rewriteLine`, `rewriteAddedLines`, `planSections`, and both run again |
| `TagNumbers` | the number map of `planRenumber` |
| `DebtRegistry`, `DebtTheorems`, `DebtAccepts`, `DebtPlaces`, `DebtFailures` | `updateTechDebt`, the debt gate, the recount after a merge |
| `Release`, `ReleaseTheorems`, `ReleaseAccepts` | `applyRelease` and the layout gate |
| `Gates` | what the layout gate and the debt gate find in any file |
| `FetchJson`, `FetchTheorems`, `FetchOutcomes` | `fetchJson` with `fetchThroughStartup` |

The network, the database, git, sha256 and the clock are inputs: replies are a function of the request's number, hashes are
opaque, the Drizzle migrator and the advisory lock are atomic steps, and the texts of the ancestor, the base and the branch are
parameters. Processes of the migrator have builds whose journals are prefixes of one newest journal.

## Where the code differs from what it is meant to do

Each of these is proved: the exact condition under which the code does what it is meant to, mostly with an input for which it
does not.

- The merged journal passes the planner's check exactly while it has at most 10,000 entries: a fifth digit breaks the tag rule
  (`JournalMergeTheorems.MergedJournalValidIff`, `JournalMergeTheorems.TooManyMigrations`).
- Below its limit the line diff is exact (`LineDiff.AddedLinesAreExact`). Beyond it the fallback counts lines and forgets their
  order: two blocks of 2,739 lines that change places are not marked at all (`LineDiff.PoolForgetsOrder`). It never marks more
  lines than the exact diff, and is as good exactly when the base has the unmarked lines in their order
  (`LineDiff.AddedLinesAreLongestIff`).
- A changelog without entries is joined to text that cannot be split again (`Changelog.SplitUndoesJoinIff`).
- `unionChangelog` is the three-way merge of every key exactly when the branch deleted no entry that the base left alone: such
  an entry comes back (`ChangelogPlan.UnionIsThreeWayIff`, `ChangelogPlan.DeletionIsUndone`).
- The renumbered active file descends strictly, and can be planned and renumbered again without a change, exactly when no
  branch edit of a base entry carries the old version of an own entry (`ChangelogTheorems.ActiveFileDescendsIff`,
  `ChangelogTheorems.SecondPlanIsIdentityIff`, `ChangelogTheorems.SecondPassChangesNothingIff`). Otherwise the planner finds a
  base entry missing from the file it renumbered itself (`ChangelogTheorems.ClashStopsSecondRun`).
- `unionChangelogMd` finds a section by searching for its text from the sections on. An edit lands on its own section exactly
  when the first place of the base's text is the section itself (`MdLayout.EditIsHomeIff`, `MdLayout.EditsLandIff`,
  `MdMergeTheorems.EditsLandInFileIff`). Otherwise, as when the heading starts a longer heading above it, the edit overwrites
  another section that no side touched (`MdFailures.EditHitsAnotherSection`).
- A section the branch deleted is found exactly when an empty line and another line follow it (`MdLayout.DropFoundIff`).
  Without a conflict the merge is refused exactly when some deleted section has none when its turn comes
  (`MdLayout.DropsLaidIff`); if the ancestor lists the deleted sections in the base's order, exactly when some deleted
  section has none in the base's file (`MdLayout.GapsIff`, `MdFailures.DeletionNeedsEmptyLine`).
- Into a base whose active series has no section yet, `unionChangelogMd` writes the branch's first ones directly under the
  header. They read back as the branch has them exactly when only empty lines stand between the header and the rule
  (`MdMergeTheorems.SectionsAreMergedIff`). Unreleased lines there become part of the new section, and the release gate
  refuses the file (`MdFailures.FirstSectionTakesUnreleased`).
- `unionRows` picks the rows of each hunk by itself. When neither side lists an id twice, the merged file does exactly when
  one side has its row in one hunk and the other side in another hunk (`DebtRows.MergedListsOnceIff`,
  `DebtRows.CrossedRowIsDoubled`).
- `unionUnreleased` is not the three-way merge when the branch has no section, and a section it must create is readable only
  above the first version and under an empty line (`Unreleased.UnionIsThreeWayIff`, `Unreleased.ReleasedLineStays`,
  `Unreleased.LinesAreLost`).
- Section headings are read in Latin and Persian digits but rewritten in Persian digits only
  (`SectionPlan.WrittenSectionsApartIff`, `SectionPlan.LatinHeadingCollides`).
- The number map of `planRenumber` is made of the first four characters of each tag. While the merged journal has at most
  10,000 entries, it gives every moved migration its new number exactly when no two moved tags of the branch start alike
  (`TagNumbers.NumbersNameEachIff`).
- A RESET that fails after the lock was granted leaves the lock with a pooled session (`Migrator.FailedResetKeepsLock`). A run
  that is over holds the lock exactly when that RESET or the unlock failed and its session has not ended since
  (`Migrator.FinishedHoldsLockIff`).
- A closed debt row goes under the first table from its section on, also that of a later section. When there is none it goes to
  a fixed offset of the file, and the first row stands in the file exactly when that offset is the start of a line. Otherwise
  it is glued to other text and its id, open before, is unused again (`DebtFailures.ClosedRowStandsIff`,
  `DebtFailures.RowWithoutTableIsLost`). The recount after a merge drops rows by the closed file only, not by the frozen list,
  and does not put the placeholder back (`DebtTheorems.RecountRepairs`).
- The gate accepts a CHANGELOG.md that ends with the Unreleased heading itself, but the next release does not see that heading
  and writes a second one: an accepted file is a good start exactly when a line follows the heading
  (`ReleaseTheorems.AcceptedStartIff`, `ReleaseTheorems.HeadingAtEndIsDoubled`).
- A 403 answer whose body is the JSON value `null` ends in a type error before the key is settled
  (`FetchTheorems.NullForbiddenKeepsKey`).

## Model

| member | source | states |
|---|---|---|
| MigrationPlan.ValidateMigrationJournal | src/db/migrationPlan.ts:85-96 | the errors of the journal in the order of its entries; they are empty exactly for a valid journal |
| MigrationPlan.IndexByWhen | src/db/migrationPlan.ts:118-119 | the map of the applied rows: its keys are their times, the last row of a time wins |
| MigrationPlan.ScanJournal | src/db/migrationPlan.ts:123-131 | the loop finds exactly the entries not later than the newest row that have no row, and those whose text changed |
| MigrationPlan.PlanMigrations | src/db/migrationPlan.ts:103-141 | the method computes the plan the theorems are about, branch by branch |
| MigrationPlanTheorems.PlanAcceptsIff | src/db/migrationPlan.ts:109-135 | no error exactly when journal and fold are in order, the table is not newer, and every entry the migrator would skip has a row |
| MigrationPlanTheorems.PlanIsExact | src/db/migrationPlan.ts:140 | without errors, pending is a suffix of the journal and exactly the entries without a row |
| MigrationPlanTheorems.PrefixNeverRefused | src/db/migrationPlan.ts:103-141 | a database holding any prefix of a valid journal is accepted and the rest is pending |
| MigrationPlanTheorems.FoldKeepsMaximum | src/db/migrationPlan.ts:33-36 | folding without error keeps the greatest time when the baseline stands at the newest folded time |
| MigrationPlanTheorems.DrizzleRunsThePlan | src/db/migrationPlan.ts:140 | the migrator on the raw table runs exactly the pending list of the folded one |
| MigrationPlanTheorems.FoldIsIdempotent | src/db/migrationPlan.ts:55-82 | folding a folded table changes nothing and reports nothing |
| MigrationPlanTheorems.FoldKeepsUnrelatedRows | src/db/migrationPlan.ts:80-81 | every row that is not at a folded time stays, in order |
| MigrationPlanTheorems.PartialHistoryRefusedIff | src/db/migrationPlan.ts:66-75 | with released hashes, a table is refused with nothing pending exactly when it ran some but not all folded migrations |
| MigrationPlanTheorems.RunThenReplan | src/db/migrationPlan.ts:103-141 | running the migrator on an accepted table appends exactly the pending rows, and the next plan is empty and without errors |
| MigrationReports.PlanReportsIff | src/db/migrationPlan.ts:109-140 | pending are the entries later than every row; each error and each warning is reported exactly when an entry or a row calls for it |
| MigrationReports.JournalErrorsAre | src/db/migrationPlan.ts:85-96 | each error of the journal stands for an entry with a wrong index, a tag without it, or a time that does not follow |
| MigrationReports.FoldReports | src/db/migrationPlan.ts:55-82 | which rows are of the folded history, what replaces them, which of them are warned of, and the refusal with its numbers |
| Migrator.BuildRefusedIff | src/db/migrator.ts:193-199 | a build is refused exactly when the table holds more entries than the build knows |
| Migrator.BuildRuns | src/db/migrator.ts:201-202 | a build that is not refused runs exactly the entries between the table's and its own last |
| Migrator.RunInv | src/db/migrator.ts:166-231 | in every interleaving of any number of processes the invariant of table, lock and plans holds |
| Migrator.TableIsNewestJournalRun | src/db/migrator.ts:184-231 | the table is always the initial one plus one unbroken stretch of the newest journal, ending where the newest journal run ends |
| Migrator.TableOnlyGrows | src/db/migrator.ts:201-202 | rows are only appended, so nothing is applied twice or out of order |
| Migrator.MigratorRunsThePlan | src/db/migrator.ts:191-202 | the migrator applies exactly the entries the process planned and logged |
| Migrator.RefusedIffOlder | src/db/migrator.ts:195-199 | a process that plans is refused exactly when the table is ahead of its build |
| Migrator.RefusedNeverWrote | src/db/migrator.ts:196-199 | a refused process never ran the migrator |
| MigratorOutcomes.OutcomeIs | src/db/migrator.ts:184-231 | a finished run failed exactly after a failed step, succeeded exactly when it planned, ran the migrator and counted, with the rows read and counted and as many more as were pending; otherwise it was refused with the errors of its plan |
| Migrator.PlanIsNeverStale | src/db/migrator.ts:142-155 | while a process is between the grant and the release no other process writes the table |
| Migrator.FinishedHoldsLockIff | src/db/migrator.ts:221-230 | a finished run holds the lock exactly when the RESET after the grant or the unlock failed and the session has not ended since |
| Migrator.NoDeadlock | src/db/migrator.ts:142-155 | while no session leaked the lock, a waiting process can be granted it or the holder can go on |
| Migrator.FailedResetKeepsLock | src/db/migrator.ts:153-155 | when the RESET after the grant fails the run ends as failed and its session keeps the lock |
| Migrator.EmptyTableIsGood | src/db/migrationPlan.ts:114-116 | a fresh database is a table a run can start from |
| Migrator.LegacyTableIsGood | src/db/migrationPlan.ts:46-53 | a database that ran the whole folded history counts as one that ran the baseline |
| JournalMerge.MoveAll | scripts/renumber/plan.ts:178-187 | the loop's numbers follow the base without a gap, its times increase, and every moved tag is mapped |
| JournalMerge.PlanMigrations | scripts/renumber/plan.ts:167-190 | the base's entries as the tree has them and the branch's entries behind them, or the base tag that is missing |
| MigrationNames.NewTagIs | scripts/renumber/plan.ts:182 | the new tag is the index in at least four digits, an underscore, and what followed the old number, or the whole old tag when it had none |
| MigrationNames.OwnAreNamedAnew | scripts/renumber/plan.ts:174-189 | every own entry under the next index with its name and settings and its time or a later one, behind the tree's copies of the base's; the map has exactly the tags that changed |
| JournalMergeTheorems.UnionKeepsBase | scripts/renumber/conflicts.ts:187-197 | the union of both sides holds the base's entries as the base has them, and the branch's own |
| JournalMergeTheorems.MergedJournalValidIff | scripts/renumber/plan.ts:174-189 | the journal the pipeline writes passes the planner's check exactly when it has at most 10,000 entries |
| JournalMergeTheorems.MergedDatabase | scripts/renumber/plan.ts:174-189 | a database that ran the base is not refused and has exactly the branch's own migrations pending, in order |
| JournalMergeTheorems.RenumberIsIdempotent | scripts/renumber/plan.ts:167-190 | renumbering the renumbered tree changes no tag and no entry |
| JournalMergeTheorems.OwnKeepsBranchOrder | scripts/renumber/plan.ts:175 | the branch's migrations keep the order they have in the branch |
| JournalMergeTheorems.TooManyMigrations | scripts/renumber/plan.ts:182 | one entry past the last four-digit number and the pipeline's own output is refused |
| JournalMergeTheorems.NewTagNumber | scripts/renumber/plan.ts:182 | a new tag carries its number exactly while the number has four digits |
| LineDiff.FillRow | scripts/renumber/plan.ts:74-76 | one row of the flat table holds the longest common lengths of all its suffixes |
| LineDiff.FillTable | scripts/renumber/plan.ts:71-77 | the table holds the longest common length of every pair of suffixes, in 32-bit cells |
| LineDiff.WalkTable | scripts/renumber/plan.ts:78-83 | the walk marks the same lines as the recursive definition |
| LineDiff.CountLines | scripts/renumber/plan.ts:61-70 | the fallback marks what the counting of lines leaves over |
| LineDiff.TrimEnds | scripts/renumber/plan.ts:53-57 | the trimming loops cut the longest common first lines and then the longest common last lines |
| LineDiff.AddedLineIndexes | scripts/renumber/plan.ts:52-85 | the method marks exactly the lines the theorems are about |
| LineDiff.LcsIsUpperBound | scripts/renumber/plan.ts:51 | no common subsequence is longer than the length the table computes |
| LineDiff.AddedLinesAreExact | scripts/renumber/plan.ts:51-85 | the unmarked lines are a longest common subsequence of both files |
| LineDiff.AddedLinesUpToTheLimit | scripts/renumber/plan.ts:51-85 | between common ends with at most 30,000,000 pairs of lines the unmarked lines are a longest common subsequence |
| LineDiff.AddedLinesAreFew | scripts/renumber/plan.ts:61-70 | in every case at most as many lines are marked as a longest common subsequence leaves out |
| LineDiff.AddedLinesAreLongestIff | scripts/renumber/plan.ts:51-85 | for files of any size the unmarked lines are a longest common subsequence exactly when the base has them in their order |
| LineDiff.PoolMarksNoMore | scripts/renumber/plan.ts:61-70 | the fallback never marks more lines than the exact path would |
| LineDiff.PoolForgetsOrder | scripts/renumber/plan.ts:61-70 | over the limit, two swapped blocks of any two lines are not marked although the file is no subsequence of the base |
| Hunks.ResolveHunks | scripts/renumber/conflicts.ts:47-64 | the clean lines in place with each hunk replaced by its pick; null exactly when a pick refuses or the last hunk is open |
| Hunks.ParsePrinted | scripts/renumber/conflicts.ts:46-62 | parsing undoes printing, for merge style and diff3 style hunks |
| Hunks.ResolvePrinted | scripts/renumber/conflicts.ts:46-64 | a printed file resolves to its clean lines with each block's pick, and is refused exactly when some pick refuses |
| Hunks.CutOffIsRefused | scripts/renumber/conflicts.ts:63 | a file that ends inside a hunk is refused |
| DebtRows.RowOfId | scripts/renumber/conflicts.ts:199-201 | a line starting with an id's cell is the row of that id and of no other |
| DebtRows.PickRowsKeepsBoth | scripts/renumber/conflicts.ts:209-214 | a merged hunk loses no line of either side and lists no id twice |
| DebtRows.PickRowsIff | scripts/renumber/conflicts.ts:209-214 | a hunk is refused exactly when it must hold rows alone and does not, or the sides hold different rows of one id; otherwise our lines and behind them those of theirs that are not rows we hold |
| DebtRows.KeepFirstSingles | scripts/renumber/conflicts.ts:216-223 | the loop keeps exactly the lines that are of no counter kind or have no earlier line of their kind |
| DebtRows.KindIs | scripts/renumber/conflicts.ts:42 | the three kinds of lines kept once, each by how its lines start |
| DebtRows.SinglesAreFirst | scripts/renumber/conflicts.ts:216-223 | of each counter kind the first line is left and no other, all other lines stay in order |
| DebtRows.FirstSinglesIsStable | scripts/renumber/conflicts.ts:216-223 | keeping the first of each kind again changes nothing, and the debt ids of the file are the same |
| DebtRows.UnionRows | scripts/renumber/conflicts.ts:206-224 | null exactly when a hunk is open or left to the operator, otherwise the resolved lines with each counter line once and the same ids, none twice exactly when no row crosses hunks |
| DebtRows.MergedListsOnceIff | scripts/renumber/conflicts.ts:206-215 | from sides that list no id twice, the merged file lists one twice exactly when the sides have its row in different hunks |
| DebtRows.CrossedRowIsDoubled | scripts/renumber/conflicts.ts:209-214 | a row both sides added in different hunks is in the merged file twice |
| Changelog.SplitEntries | scripts/renumber/plan.ts:108-123 | the loop with the open block finds the same entries, or the same error, as the definition by blocks |
| Changelog.SplitChangelog | scripts/renumber/plan.ts:102-125 | head, entries and tail of the file, or why it cannot be read |
| Changelog.SplitUndoesJoinIff | scripts/renumber/plan.ts:102-127 | splitting undoes joining for every well-formed file exactly when it has an entry |
| Changelog.SplitIsStable | scripts/renumber/plan.ts:102-127 | whatever was read, joining and splitting it again gives the same parts |
| ChangelogReads.FileReadsIff | scripts/renumber/plan.ts:102-125 | a file is read, as its head, entries and tail, exactly when it has both brackets and nothing but whole entries without conflict markers between them |
| ChangelogReads.VersionLineIff | scripts/renumber/plan.ts:129-133 | a version line is the field, three numerals and the end of the text, and nothing more |
| ChangelogReads.TitleLineIff | scripts/renumber/plan.ts:142 | a title line is the field and the text up to the next quote, which may be empty |
| ChangelogReads.FirstLineShows | scripts/renumber/plan.ts:129-142 | an entry has the version of its first version line and the title of its first title line |
| ChangelogPlan.UnionIsThreeWayIff | scripts/renumber/conflicts.ts:75-95 | refused exactly when an entry was edited on both sides; otherwise the three-way merge of every key exactly when the branch deleted nothing |
| ChangelogReads.UnionListsNewFirst | scripts/renumber/conflicts.ts:90-94 | the merged entries are the branch's new ones in its order, then one for each of the base's in the base's order |
| ChangelogPlan.DeletionIsUndone | scripts/renumber/conflicts.ts:78-95 | a branch that deleted every entry gets the base's file back, though the merge of each key is empty |
| ChangelogPlan.NumberVersions | scripts/renumber/plan.ts:155-160 | the loop's map takes the k-th own version to the k-th successor of the base's top |
| ChangelogPlan.PlanVersions | scripts/renumber/plan.ts:136-161 | the version map, or the missing base entries, the doubled version or the missing version line |
| ChangelogReads.PlansIff | scripts/renumber/plan.ts:143-151 | a branch gets a plan exactly when every entry has a version, no base entry is lost or changed over the base's own change, and no two own entries share a version |
| ChangelogTheorems.PlanContinuesTheBase | scripts/renumber/plan.ts:151-160 | the branch's distinct versions map one to one and in order to consecutive releases above the base's top |
| ChangelogTheorems.SuccessorsFollow | scripts/renumber/plan.ts:155-160 | each new version is the next one after the one before it, and stays a patch or a minor cut |
| ChangelogTheorems.UnionFeedsThePlanner | scripts/renumber/conflicts.ts:78-95 | whenever the union succeeds the planner misses no base entry, and no new entry of the branch is lost |
| ChangelogTheorems.ActiveFileDescendsIff | scripts/renumber/plan.ts:341-345 | the written file descends strictly exactly when no edit of a base entry carries an own entry's old version |
| ChangelogTheorems.SecondPlanIsIdentityIff | scripts/renumber/plan.ts:136-161 | a second plan succeeds exactly when nothing clashed, and is then the identity on exactly the new versions |
| ChangelogTheorems.SecondPassChangesNothingIff | scripts/renumber/plan.ts:341-347 | running the whole pass again leaves the active file as it is exactly when nothing clashed |
| ChangelogTheorems.ClashLosesBase | scripts/renumber/plan.ts:145-150 | after a clash a base entry is missing from the renumbered file, under its key too |
| ChangelogTheorems.ClashStopsSecondRun | scripts/renumber/plan.ts:136-161 | a tree of three entries whose renumbered file neither descends nor can be planned again |
| ChangelogMd.SortedSection | scripts/renumber/plan.ts:256-272 | lines outside the section stay, the blocks are a stable descending permutation, each slot keeps its blank lines |
| VersionSections.SortsWhere | scripts/renumber/plan.ts:257-272 | sorted is what stands from the first version below the first line under the header to the next rule, and nothing else; without a version the file stays |
| VersionSections.HeadingShows | scripts/renumber/plan.ts:269 | a section sorts by the version its heading shows |
| ChangelogMd.SortedFileIsKeptIff | scripts/renumber/plan.ts:265-271 | the file is returned as it is exactly when its version headings already descend |
| ChangelogMd.SortIsIdempotent | scripts/renumber/plan.ts:257-272 | sorting twice is sorting once, also when the header is the file's last line and moves |
| ChangelogMd.ReadAssembled | scripts/renumber/plan.ts:266-271 | assembled blocks are read back with their blank lines |
| Unreleased.ReplacedIsRead | scripts/renumber/conflicts.ts:181-182 | lines written over a section are read back, in order |
| Unreleased.CreatedIsRead | scripts/renumber/conflicts.ts:176-180 | a created section is read back only above the first version, with the stray lines below the blank line |
| Unreleased.MergedLines | scripts/renumber/conflicts.ts:172-182 | with a section on both sides: the branch's new lines on top of the base's kept ones |
| UnreleasedReads.LinesAreListed | scripts/renumber/conflicts.ts:151-162 | the Unreleased lines are those with text from their heading, above the first version, to the next heading or rule, in order |
| UnreleasedReads.SectionIsWritten | scripts/renumber/conflicts.ts:165-183 | only the section is written: new lines, kept lines and an empty line; the lines above and below stay |
| UnreleasedReads.SectionIsCreated | scripts/renumber/conflicts.ts:176-180 | a missing section is written behind the first empty line under the header, and nothing else changes |
| Unreleased.UnionIsThreeWayIff | scripts/renumber/conflicts.ts:164-183 | the merged set is the exact three-way merge exactly under a condition on where the sections are |
| Unreleased.LinesAreLost | scripts/renumber/conflicts.ts:176-180 | without an empty line under the header the branch's lines are written above it and not read back |
| Unreleased.UnionIsSymmetric | scripts/renumber/conflicts.ts:164-183 | with a section on both sides the set does not depend on which side is the branch |
| Unreleased.ReleasedLineStays | scripts/renumber/conflicts.ts:166-167 | a line released by the branch stays unreleased when the branch has no section left |
| MdMerge.CollectEdits | scripts/renumber/conflicts.ts:121-128 | the loop gives the branch's edits by heading in the order they were set, or null at the first section both sides edited |
| MdMerge.ReplaceEdited | scripts/renumber/conflicts.ts:129-135 | the loop puts each edit where the base's text of that section is found from the sections on, or gives null |
| MdMerge.DropDeleted | scripts/renumber/conflicts.ts:136-143 | the loop cuts out each section the branch deleted with the empty line after it, or gives null |
| MdMerge.UnionChangelogMd | scripts/renumber/conflicts.ts:97-147 | the whole function: sections read, edits, deletions, new sections on top, then the Unreleased lines |
| VersionSections.SectionsAreRead | scripts/renumber/conflicts.ts:97-107 | the sections read are all of the body from its first version to the rule, cut at the headings, without the empty lines at their ends |
| MdLayout.FoundAt | scripts/renumber/conflicts.ts:133-134 | with a plain heading the first place of a section's text is the section itself |
| MdLayout.EditInPlace | scripts/renumber/conflicts.ts:131-135 | with a plain heading the edit takes the place of its section and every other line stays |
| MdLayout.EditIsHomeIff | scripts/renumber/conflicts.ts:129-135 | one edit takes the place of its section exactly when the first place of the base's text is the section itself |
| MdLayout.EditsLandIff | scripts/renumber/conflicts.ts:129-135 | every edit lands on its section, one after the other, exactly when every search finds the section itself |
| MdLayout.DropInPlace | scripts/renumber/conflicts.ts:140-142 | a deleted section with an empty line after it goes with that line and every other section stays |
| MdLayout.DropFoundIff | scripts/renumber/conflicts.ts:139-141 | a deleted section is found exactly when an empty line and another line follow it |
| MdLayout.DropsLaidIff | scripts/renumber/conflicts.ts:136-143 | the deletions cut out the sections they name, and are refused exactly when one of them has no empty line when its turn comes |
| MdLayout.GapsSuffice | scripts/renumber/conflicts.ts:136-143 | in whatever order, the deletions go through when every deleted section has an empty line in the base's file |
| MdLayout.GapsIff | scripts/renumber/conflicts.ts:136-143 | in the order of the base's file, they go through exactly then |
| MdReading.FirstIsRead | scripts/renumber/conflicts.ts:97-107 | first sections written under the header read back with what stands there, down to the rule, under the last one |
| MdReading.LaidIsRead | scripts/renumber/conflicts.ts:97-107 | sections written over any empty lines between header and rule read back as they were |
| MdReading.UnreleasedKeepsSections | scripts/renumber/conflicts.ts:164-183 | uniting the Unreleased lines leaves every version section as it is |
| MdMergeTheorems.MergedIs | scripts/renumber/conflicts.ts:117-145 | a section is in the merged list exactly when it is the three-way merge of its heading |
| MdMergeTheorems.SectionsAreMergedIff | scripts/renumber/conflicts.ts:109-145 | refused exactly when both sides edited a section or a deleted one has no empty line; otherwise the rest of the file is the base's, and every heading reads back as its three-way merge exactly when the base has a section, or the branch no new one, or only empty lines stand under the header |
| MdMergeTheorems.EditsLandInFileIff | scripts/renumber/conflicts.ts:128-135 | in the base's file every edit lands on its own section exactly when every search finds the section itself |
| MdMergeTheorems.FileIsMergedIff | scripts/renumber/conflicts.ts:109-147 | the same for the file with its Unreleased lines united, where the branch must bring none into a base without sections |
| MdMergeTheorems.SidesAreEqual | scripts/renumber/conflicts.ts:109-145 | merged from either side the file is refused or has the same sections, when the deleted sections can be dropped and the new ones have room |
| MdFailures.EditHitsAnotherSection | scripts/renumber/conflicts.ts:129-135 | a heading that starts another one: the edit overwrites a section no side touched |
| MdFailures.DeletionNeedsEmptyLine | scripts/renumber/conflicts.ts:136-143 | a deleted section without an empty line after it: refused although nothing conflicts |
| MdFailures.FirstSectionTakesUnreleased | scripts/renumber/conflicts.ts:144-145 | the branch's first version of a series takes the base's Unreleased lines into its section, and the gate refuses the file |
| Rewriting.SharedLinesStay | scripts/renumber/plan.ts:240-254 | the unmarked lines stay in order; with the exact diff they are a longest common subsequence with the base |
| Rewriting.SameFileStays | scripts/renumber/plan.ts:240-254 | a file the branch did not change stays whole whatever the maps |
| RewritingPasses.AddedLinesMove | scripts/renumber/plan.ts:215-254 | in every line of a new file and every marked line of a changed one, versions, numbers and sections take their new numbers where they stand, if the file is Markdown or the line a comment; in other code only versions do |
| RewritingPasses.LineMoves | scripts/renumber/plan.ts:226-236 | the passes of one line: versions in both digits, four-digit numbers, in the audit report its own heading, and the references to its sections |
| RewritingPasses.CommentIff | scripts/renumber/plan.ts:238 | a comment line starts, after white space, with one of the five marks |
| RewritingPasses.ReplaceScans | scripts/renumber/plan.ts:216-234 | a global replacement, read from left to right: each token the pattern finds gives way to its new text and all else stays |
| RewritingTheorems.NumbersMoveAtOnce | scripts/renumber/plan.ts:228-229 | numbers keep their places, each takes its new value once even if that is a key too, all else stays |
| RewritingTheorems.NumbersAreUndoneIff | scripts/renumber/plan.ts:228-229 | the inverse map undoes the pass exactly when no number is a new name without being an old one |
| RewritingTheorems.VersionsMoveAtOnce | scripts/renumber/plan.ts:217-219 | the versions read from the result are the line's versions renamed once, with the same text in between |
| RewritingTheorems.VersionsAreUndoneIff | scripts/renumber/plan.ts:217-219 | the inverse map undoes the pass exactly when no version is a new one without being an old one |
| RewritingTheorems.PersianVersionsMoveAtOnce | scripts/renumber/plan.ts:220-223 | the versions in Persian digits read from the result are the line's, renamed once, with the same text in between |
| RewritingTheorems.PersianVersionsAreUndoneIff | scripts/renumber/plan.ts:220-223 | the inverse map undoes the Persian pass exactly when no version is a new one without being an old one |
| SectionPlan.PlanSections | scripts/renumber/plan.ts:193-211 | the loop over the added lines computes the plan of the added headings against the numbers in use |
| SectionPlan.PlanApart | scripts/renumber/plan.ts:201-209 | different numbers come out different and none of them was in use |
| SectionPlan.PlanMovesIff | scripts/renumber/plan.ts:204-209 | a heading moves exactly when its number is the base's or was given to an earlier heading |
| SectionNumbers.PlanIsNumbering | scripts/renumber/plan.ts:198-210 | a heading keeps a number not in use and takes one more than the greatest in use otherwise; the plan holds the last new number of each |
| SectionNumbers.NumberingIsUnique | scripts/renumber/plan.ts:201-209 | there is one way to number the headings so |
| SectionPlan.SectionsApartIff | scripts/renumber/plan.ts:192-232 | shown numbers are different and off the base's exactly if every moved heading is in Persian digits |
| SectionPlan.HeadingTakes | scripts/renumber/plan.ts:230-232 | a heading takes its new number only when it is written in Persian digits alone |
| SectionPlan.LineShowsPlanned | scripts/renumber/plan.ts:226-236 | the other passes leave a Persian heading alone, so the rewritten line shows the planned number |
| SectionPlan.AddedAreRewritten | scripts/renumber/plan.ts:245-254 | the added lines of the written audit report are the added lines, rewritten one by one |
| SectionPlan.WrittenSectionsApartIff | scripts/renumber/plan.ts:193-234 | in the rewritten report the new sections' numbers differ and none is the base's, exactly if every moved heading is in Persian digits |
| SecondPass.SecondPlanIsEmptyIff | scripts/renumber/plan.ts:193-254 | a second plan over the written report moves nothing exactly when the first one moved only headings in Persian digits |
| SecondPass.SecondPassKeepsReport | scripts/renumber/plan.ts:193-254 | then the pass run again plans no section and changes no line of the report |
| SecondPass.SettledMapsKeep | scripts/renumber/plan.ts:216-254 | maps that move nothing change no line of any file |
| TagNumbers.NumbersNameEachIff | scripts/renumber/plan.ts:321 | the numbers map to different four-digit numbers, and every moved migration to its own exactly when no two moved tags start with the same four characters |
| TagNumbers.MergedNumbersIff | scripts/renumber/plan.ts:320-321 | the same for the migrations a merge moves |
| TagNumbers.NumberedTagsAreApart | scripts/renumber/plan.ts:321 | tags that carry their indexes never start alike |
| SectionPlan.LatinHeadingCollides | scripts/renumber/plan.ts:193-232 | an added heading in Latin digits is planned a new number and still reads the base's number |
| DebtRegistry.DebtFiles.UpdateTechDebt | scripts/release.ts:100-149 | the files after an update are exactly the specified ones, and the counts are reported; an error closes nothing |
| DebtRegistry.DebtFiles.constructor | scripts/release.ts:253-257 | the files in memory start as they are on disk |
| DebtRegistry.ReadCloseRows | scripts/release.ts:83-97 | the rows to close from both shapes of a spec, or the first thing wrong with them |
| DebtRegistry.RemoveClosed | scripts/release.ts:113-116 | the lines without the closed rows, refusing an id that is not active |
| DebtRegistry.CheckOpenRows | scripts/release.ts:117-122 | the first new row that is malformed or whose id is in use, counting the rows before it |
| DebtRegistry.SpliceRows | scripts/release.ts:124-131 | the new rows go behind those of the table, the placeholder stands in an empty one |
| DebtRegistry.CountIds | scripts/governance/releaseGuards.ts:18-21 | how often each id occurs, and the ids in the order of their first row |
| DebtRegistry.FindViolations | scripts/governance/releaseGuards.ts:62-71 | the gate's findings in the order it reports them |
| DebtTheorems.GateIff | scripts/governance/releaseGuards.ts:62-71 | the gate is silent exactly when no id is listed twice and none is both active and closed |
| Gates.DebtGateFinds | scripts/governance/releaseGuards.ts:62-71 | an id is reported as active and closed exactly with rows on both sides, and as repeated exactly with its number of rows |
| DebtTheorems.ReleaseKeepsRegistry | scripts/release.ts:100-149 | a release keeps counters, placeholder and gate true, and moves exactly the ids it names |
| DebtAccepts.UpdateAcceptsIff | scripts/release.ts:83-149 | a consistent registry takes exactly the updates that close different open rows and open different unused ones, in rows of the right form, where there is a table for them |
| DebtPlaces.DebtLinesAre | scripts/release.ts:113-139 | the closed rows and the placeholder go, the new rows follow the table's own, the placeholder returns to a file without a row, and every line that names no counter stays |
| DebtPlaces.ClosedLinesAre | scripts/release.ts:141-147 | the archive rows go right under the table head of the series' section, in order, and nothing else in the closed files changes |
| DebtTheorems.RunKeepsRegistry | scripts/release.ts:100-149 | after any run of releases, failed ones among them, the registry is consistent |
| DebtTheorems.IdsMoveOneWay | scripts/release.ts:111-122 | over a run an id only moves from unused to active to closed |
| DebtTheorems.IdsAreNeverReissued | scripts/release.ts:119-121 | an id that was active and no longer is, is closed for good |
| DebtTheorems.SetCounterReads | scripts/release.ts:137-138 | a counter that is set is read back, and the other counter, the rows and the placeholder stay |
| DebtTheorems.TableKeeps | scripts/release.ts:124-131 | the placeholder is present exactly when no row is active, and no row or counter is lost |
| DebtTheorems.ClosedTableStays | scripts/release.ts:141-147 | the place of closed rows is the same table after the next release |
| DebtTheorems.RecountRepairs | scripts/renumber/plan.ts:290-306 | after a merge exactly the rows the closed file holds are dropped and both counters are true; when the gate is then silent |
| DebtFailures.FirstRowStays | scripts/release.ts:144-147 | rows put at an offset: the first stands there, and keeps its id, exactly when the offset is the start of a line (or right behind the same id); the others always do |
| DebtFailures.ClosedRowStandsIff | scripts/release.ts:100-149 | in an accepted update the first closed row stands in the closed file, and its id is closed, exactly when a table follows or the fixed offset is the start of a line; otherwise the open id is unused again |
| DebtFailures.RowWithoutTableIsLost | scripts/release.ts:142-147 | an accepted update that counts a closed row and leaves its id in no file |
| Release.ReleaseFiles.ApplyRelease | scripts/release.ts:188-242 | the files and the two row counts after a release are exactly the specified ones; otherwise the error of the first check that fails |
| Release.ReleaseFiles.constructor | scripts/release.ts:253-257 | the files in memory start as they are on disk |
| Release.FindReleaseLayoutViolations | scripts/governance/releaseGuards.ts:47-60 | the gate's findings in the order it reports them |
| Gates.LayoutGateFinds | scripts/governance/releaseGuards.ts:47-60 | in any file with the section each of the four findings is reported exactly when its reason stands there |
| Gates.NoSectionIsFound | scripts/governance/releaseGuards.ts:49-54 | without the section the gate asks for it, and still looks at the versions |
| ReleaseTheorems.ReadRendered | scripts/release.ts:172-185 | what a release writes is read by the next one as the same parts |
| ReleaseTheorems.OpenedIsClean | scripts/release.ts:172-185 | a file that could be read and quotes its header once has clean parts |
| ReleaseTheorems.LinesAreConserved | scripts/release.ts:219-228 | a release changes no line: it adds its own, once each, and the section when it was missing |
| ReleaseTheorems.ReleaseIsBooked | scripts/release.ts:220-228 | an entry waits on top of the section, or is released under one version with all that waited, and nothing waits after a cut |
| ReleaseTheorems.GateAcceptsIff | scripts/governance/releaseGuards.ts:47-60 | the gate accepts a written file exactly when no second Unreleased stands below and no version is skipped |
| ReleaseTheorems.AcceptedStartIff | scripts/governance/releaseGuards.ts:49-57 | in an accepted file the writer finds the section and no second one exactly when a line follows the heading |
| ReleaseTheorems.HeadingAtEndIsDoubled | scripts/release.ts:171-185 | an accepted file that ends with the heading has two of them after one change, and the gate refuses it |
| ReleaseTheorems.CutKeepsSync | scripts/release.ts:229-240 | from locations in sync a cut must name their version, and moves all of them and nothing else |
| ReleaseAccepts.LinesAreWritten | scripts/release.ts:219-228 | the lines of CHANGELOG.md after a change and after a cut, word for word around the file's own |
| ReleaseAccepts.VersionMovesIff | scripts/release.ts:229-240 | the locations move exactly when README and package.json name the old version once, the lock file at least twice and the changelog has one array head; then at these places, in the lock file the first two, and nowhere else |
| ReleaseAccepts.ChangeGoesThroughIff | scripts/release.ts:188-224 | from files in order a change goes through exactly with a proper line, no field of a cut, and debt rows that fit |
| ReleaseAccepts.CutGoesThroughIff | scripts/release.ts:188-241 | from files in order at a version a cut goes through exactly when it names it and the release after it in the series, has changes, a title and a line to release, and its debt rows fit |
| ReleaseTheorems.RunStaysInOrder | scripts/release.ts:188-242 | over any run the file shows the ledger, the gate is silent, the versions are in sync and the registry is consistent |
| ReleaseTheorems.LedgerHoldsEveryLine | scripts/release.ts:220-228 | over any run each line is in the ledger exactly as often as it was added |
| FetchJson.ApiClient.constructor | src/api.ts:47-48 | a page starts without tokens |
| FetchJson.ApiClient.RefreshCsrf | src/api.ts:81-106 | a new token is kept, a failure leaves what there was |
| FetchJson.ApiClient.SendThroughStartup | src/lib/systemStarting.ts:59-74 | the loop resends the same request while the server starts, at most 120 times |
| FetchJson.ApiClient.FetchJson | src/api.ts:189-380 | tokens, trace of requests and effects, and outcome of a call with all its rounds |
| FetchJson.ApiClient.ReadSuccess | src/api.ts:333-379 | what a successful answer does to key, tokens and caller |
| FetchJson.ApiClient.ReadError | src/api.ts:255-331 | what an error answer does: another round, or an outcome with its effects |
| FetchTheorems.RoundsAreBounded | src/api.ts:189-380 | at most one round more than the retries and waits left, each of at most 121 transmissions |
| FetchTheorems.AllRoundsCarryOneKey | src/api.ts:210-221 | every request, transmission and key event of a call carries the key of its first request |
| FetchTheorems.NoResendAfterFailure | src/api.ts:243-250 | a write that failed on the network is never sent again and is reported as unconfirmed |
| FetchTheorems.KeyEventsAreLast | src/api.ts:219-221 | the key is settled or held at most once, after the last transmission |
| FetchTheorems.KeyIsFreedIff | src/api.ts:219-221 | the key is freed exactly by a definite last answer and held exactly by the notice of an earlier registration |
| FetchTheorems.NullForbiddenKeepsKey | src/api.ts:291-304 | a forbidden answer with the body null ends before the key is settled |
| FetchOutcomes.CallEndsBy | src/api.ts:189-380 | the deciding reply settles the outcome of a call, the tokens it leaves in memory and what the page is told |
| FetchOutcomes.SentAgainIff | src/api.ts:243-318 | another round exactly after a failed read with retries left, a keyed write still running with waits left, or a CSRF error that brought a new token; with which tokens, key, retries and waits |
| FetchOutcomes.RequestIs | src/api.ts:195-240 | the tokens and the key of a request, and when a CSRF token is asked for first |
| FetchOutcomes.TransmitIs | src/lib/systemStarting.ts:59-74 | every transmission but the last met a starting server, and when the last of them decides |
| Sorting.SortIsStable | scripts/renumber/plan.ts:270 | the sort orders by a total preorder and keeps ties in place |
| Sorting.StableSortIsUnique | scripts/renumber/plan.ts:270 | any stable sort gives the same list, so the choice of algorithm does not matter |
| Versions.MatchPrinted | scripts/renumber/plan.ts:88-92 | a printed version is read back whole wherever no digit follows it |
| Versions.VersionTextInjective | scripts/renumber/plan.ts:88-92 | different versions print differently |

## Left out

- `resolveReleaseConflict` for the k8s example and the version files: one test of a line each.
- `planRenumber` as one function: its steps are modelled one by one; `setVersionLocations`, file renames and the choice of changed files are not.
- Versions are triples: a version written with leading zeros is read as its numbers.
- Line ends inside regular expressions: `^` and `$` also match at `\r`, U+2028 and U+2029 in the source; here a line ends at `\n` only.
- `unionChangelog` splits its entries, and finds their version and title, with patterns of its own; here it works on entries already split and reads both as the planner does.
- JSON: journals and answers are values, so a file that is not JSON, and the printing of the merged journal, are not modelled.
- Release.ReleaseFiles.ApplyRelease: does not model `edits`, `lastReview` and `knownClass` of a release spec, nor the text of a changelog entry. `edits` may rewrite any file and `lastReview` rewrites one line of TECH_DEBT.md, so the run theorems are about specs without them.
- Rows, entries and titles of a release spec are one line each, as the specification of the command says; a line break in them would write several lines.
- Version locations are the versions a file names, not its text.
- ReleaseTheorems.RunStaysInOrder: asks that entries and headings do not end like the section's header, and that new debt rows do not name a counter, since the source finds both by text search.
- DebtTheorems.RunKeepsRegistry: asks that the section of the active series has a table; `DebtFailures.ClosedRowStandsIff` says what happens otherwise.
- DebtFailures.ClosedRowStandsIff: asks that the closed file does not show the first id's cell, which would make the row's own text ambiguous.
- DebtPlaces.ClosedLinesAre: asks that no line above the section's heading quotes it, since the source searches for its text.
- ChangelogReads.UnionListsNewFirst: asks that no two entries of the ancestor share version and title, since the last of them wins.
- Unreleased.UnionIsThreeWayIff: without an empty line under the header it asks that the header is quoted on no other line.
- MdMergeTheorems.SectionsAreMergedIff: asks for one section per heading on each side, a line under the base's header, and that the heading of an edited or deleted section stands in no other line of the sections or behind them. `MdMergeTheorems.EditsLandInFileIff` says without the last of these when the edits land. It says nothing of reading back when the sections start directly under the header and the merge leaves none.
- MdMergeTheorems.FileIsMergedIff: asks that the line under the base's header is empty, and says nothing of the sections when the merge leaves none.
- SecondPass.SecondPlanIsEmptyIff: asks that the first diff was right and that no line was rewritten into a line of the base, since the second diff would then mark other lines.
- RewritingPasses.AddedLinesMove: says what each pass makes of the line the pass before it left, so a version with a major number of four digits is also read by the number pass.
- SectionPlan.WrittenSectionsApartIff: asks that a heading in Latin digits has fewer than four, since the number pass rewrites four-digit numbers.
- The migrator's notices, statement timeouts, folder resolution and `validateDbSchema`.
- Cookies, the sharing of one CSRF refresh by concurrent calls, and the store of submission keys: the refresh and the store answer anything.
- The AST ratchets, npm script checks and the frozen archive's row count in the governance scripts: pointwise comparisons.
