# Verified model of the Flight Hub installer and release tooling

Flight Hub's repository holds, besides the flight-input service itself, the tools that install it,
release it and watch over its builds. This project models the four of them that carry state, and
proves what they promise:

1. **The transactional installer.** A transaction copies files, keeps backups of what it
   overwrites, and can undo all of it. `InstallTransaction` has the two classes, over a file system
   whose every primitive may fail at any moment and part of the way; `Journal` says what each call
   does as a function of the state before it. The disk of that state also remembers every tree it
   ever held, so that properties are stated about the moments between two primitives too.
   `FileTree` and `Paths` give the primitives and `Path::with_extension`. The theorems are in
   `CrashSafety`, `Recovery`, `Restoration`, `RollbackFrame`, `FailedInstall`, `Foresight`, `SharedBackups`
   and `Commitment`, and `Manifest` connects them to the files that are really installed.
   `CallEffects` says of each call, on any disk and under any faults, exactly when it succeeds and
   what the tree is then, in terms of the tree and the faults alone.
2. **The changelog.** `CommitParsing` reads commits from git's log, and `CommitLines` says which lines
   are commits. `Changelog` generates a section, and `ChangelogLayout` says what stands below which
   heading of its text. `ReleaseHistory` splices sections into a file, `FirstSection` and
   `HeaderlessRuns` do so where there is no unreleased section yet, `VersionBump` gives the version
   numbers, and `VersionStrings` says which strings can be bumped.
3. **The requirement index.** `Gherkin` scans feature files in one pass and validates tags;
   `FeatureText` and `TagOrder` say what it finds in a text and in which order it complains.
   `AcIndex` indexes scenarios by requirement and criterion.
4. **Gate metrics and performance statistics.** `GateMetrics` prints JSON by hand and reads it back
   line by line, `GateSummary` says what is printed, `GateHistory` loads and retains the saved files,
   `Percentiles` and `TrendStats` compute medians, percentiles and least-squares slopes. `Sorting` is
   the library's stable sort, and `OrderStatistics` says what an index into its result selects.

Every method is proved equal to a specification function (or, for `Manifest.Verify`,
`Percentiles` and `AcIndex`, to an outright statement), and the laws are proved about those.

## What the proofs found

Where the code does less than its comments say, the model follows the code and the exact condition
is a theorem:

- `installer/src/rollback.rs:3-4` says that a partial installation can be completely reversed. The
  files of a completed one, whatever was installed over what, are restored exactly when no original
  file shares its path with a backup and none is overwritten twice or has its backup overwritten
  later (`FilesRestoredExactlyWhen`). The initial tree and the commands decide this
  (`RestoredExactlyWhenForeseen`).
- The backup is written before the journal entry. So, after any installation whose last call failed,
  the files are restored exactly when nothing was lost before that call, and each of the two paths
  it may have written is unchanged, or known to the journal and not the place from which an original
  file is to come back (`FailedInstallUndoneExactlyWhen`). If the disk itself does not fail, this
  can be told before the call (`CallWithoutFaultUndoneExactlyWhen`). Otherwise a backup that the
  journal does not know stays, and an original file that comes back from it comes back with the
  bytes of another (`BackupLeftBehind`). A source that does not exist is enough for the first
  (`MissingSourceLeavesBackup`), and for the second after `a.txt` a failing `a.toml`: rollback
  succeeds and leaves the bytes of `a.toml` in `a.txt` (`FailedCallSwapsBytes`).
- Two files that differ only in their extension share one backup (`BackupsCollide`), and the first of
  the two is lost by a rollback (`SharedBackupLoses`). `InstallManifest::verify` does not rule this
  out; the two built manifests are free of it (`ManifestsAreSound`). Installing `a.bak` as well as
  `a.txt` is safe in this order (`BackupPathInstalledFirst`) and loses `a.txt` in the other
  (`BackupPathInstalledLater`).
- Of nested directories created in one call only the deepest is in the journal, so the others stay
  behind, and so do journalled directories above them. `RollbackIsExact` gives the set, and
  `TreeRestoredExactlyWhen` shows that the tree is whole again exactly when nothing is lost and each
  directory was made in one that existed.
- If a user replaces a backup by a directory, rollback moves that directory, contents and all, over
  the destination, under the condition of `BackupDirMovesExactlyWhen`.
- `parse_commit` panics exactly on lines in which a closing parenthesis comes before the first opening
  one ahead of the message, such as `abc )(: text` (`PanicsExactlyWhen`, `PanickingLine`).
- A file installed onto itself ends up empty, as with `fs::copy` (`PlainRunLastCopy`).
- Without an `[Unreleased]` section the first write keeps all later sections out of reach of the next
  one exactly when the first second-level heading opens with a bracket
  (`FirstWriteKeepsExactlyWhen`). Over any number of releases before it, the released sections stay
  whole exactly as long as none of them holds the text `## [Unreleased]`, in a message perhaps
  (`WholeExactlyWhen`); one that does is cut there by the next command (`MarkedReleaseIsCut`). If
  the text ahead of the sections does not end its line, later releases pile up below the first one
  (`UnendedPile`).
- The comment on retention speaks of 50 runs; the code keeps 50 gate records, of which a run has
  several (`RetentionKeepsLatest`).
- A pre-release bump of a release is a step down (`PreBumpExactlyWhen`), and `validate_version` accepts
  digits of other scripts that `bump_version` refuses (`BumpExactlyWhen`). In turn `bump_version` takes plus
  signs, a leading `v` and anything at all after a hyphen (`BumpOfAny`).
- Gate names with a quote or a line break are exactly those that do not survive being saved
  (`RoundTripExactlyWhen`).

## Model

| member | source | states |
|---|---|---|
| `InstallTransaction.FileSystem.Take` | installer/src/rollback.rs:100 | one primitive: its outcome becomes the tree, and the tree before is remembered |
| `InstallTransaction.Transaction.constructor` | installer/src/rollback.rs:82-87 | a new transaction is active with an empty journal and changes nothing |
| `InstallTransaction.Transaction.CreateDirectory` | installer/src/rollback.rs:97-106 | the whole new state, journal and result, also when the directory exists, the transaction has ended, or making it fails part of the way |
| `InstallTransaction.Transaction.InstallFile` | installer/src/rollback.rs:112-141 | the whole new state for each of its three primitives failing or not: parents first, then the backup, then the copy, journalled only at the end |
| `InstallTransaction.Transaction.RegisterService` | installer/src/rollback.rs:147-153 | adds one entry and leaves the disk alone |
| `InstallTransaction.Transaction.Commit` | installer/src/rollback.rs:158-171 | removes recorded backups in journal order, ignores failures, ends in Committed |
| `InstallTransaction.Transaction.Rollback` | installer/src/rollback.rs:178-224 | the loop undoes the journal from its end and stops at the first error with the index the code gives; the state is RolledBack either way |
| `CallEffects.CreatesExactlyWhen` | installer/src/rollback.rs:97-106 | a directory is made, with those above it, if and only if no file is in the way and nothing fails; it is recorded only then, and nothing happens if it exists |
| `CallEffects.InstallsExactlyWhen` | installer/src/rollback.rs:112-141 | on any well-formed disk and under any faults: the exact condition of success on the two paths and the tree, and then the exact tree, journal and number of primitives |
| `CallEffects.CommitDropsEach` | installer/src/rollback.rs:158-171 | each recorded backup goes if and only if it is a file and its own removal does not fail, whatever became of the others; the commit succeeds |
| `CallEffects.CopyUndoneExactly` | installer/src/rollback.rs:186-208 | undoing one copied file on any disk: an error if and only if the destination is there and a directory or meets a fault, or is then absent and the backup exists and cannot be renamed; the exact tree in each case, also when the destination is already gone and the backup must come back |
| `CallEffects.OtherUndoneExactly` | installer/src/rollback.rs:209-220 | undoing another entry is never an error; a directory goes if and only if it is empty and nothing fails |
| `CallEffects.RollbackInTwo` | installer/src/rollback.rs:182 | a rollback undoes the end of the journal and then, if that succeeded, its beginning |
| `CallEffects.RollbackReportsExactlyWhen` | installer/src/rollback.rs:178-208 | index i is reported if and only if the last i entries are undone and the next is a copy of which, on that disk, the removal or the rename cannot be done, as spelled out by tree and faults; at most its installed file is gone then, and nothing the last i+1 entries do not name has changed |
| `CallEffects.RollbackReportsAnIndex` | installer/src/rollback.rs:191-206 | the only error of an active rollback is an index into the journal |
| `CrashSafety.FinishedIsInert` | installer/src/rollback.rs:228-234 | after a commit or a rollback every call fails with the matching error and nothing changes, over all later runs |
| `FileTree.RenameKeepsTree` | installer/src/rollback.rs:201 | moving a node, with all below it if it is a directory, keeps every node's parent a directory |
| `CrashSafety.RunKeepsTree` | installer/src/rollback.rs:97-224 | the disk is a well-formed tree at every moment of every run, failures included |
| `CrashSafety.BytesAlwaysSurvive` | installer/src/rollback.rs:112-208 | before a commit, at every moment of every run whose backups are new, not shared and no destinations (`FreeBackups`) and which overwrites no original twice (`OverwritesOnce`), each original file is in its place or at its backup, byte for byte |
| `Restoration.RollbackIsExact` | installer/src/rollback.rs:178-224 | for any installation, the exact tree after a fault-free rollback: the initial one, without lost files, and with exactly the directories of which no entry tells and those above them |
| `Restoration.FilesRestoredExactlyWhen` | installer/src/rollback.rs:3-4 | for any installation, files are as before if and only if no original is a backup path and each overwritten one was overwritten once, its backup not later |
| `Foresight.RestoredExactlyWhenForeseen` | installer/src/rollback.rs:108-141 | the same on the initial tree and the commands alone |
| `Restoration.RollbackRestoresFiles` | installer/src/rollback.rs:110-111 | the same from commands a caller can check: every file is restored and no new one is left |
| `Restoration.TreeRestoredExactlyWhen` | installer/src/rollback.rs:209-215 | the tree after rollback is the initial tree if nothing is lost and each directory is made in an existing one, and if all commands succeeded, only then |
| `Restoration.RollbackRestoresTree` | installer/src/rollback.rs:99-104 | with commands a caller can check that all succeed, the initial tree is back if and only if each directory was made in an existing one |
| `RollbackFrame.UnwindSplit` | installer/src/rollback.rs:182 | undoing a journal is undoing its end and then, if that succeeded, its beginning |
| `RollbackFrame.RollbackFramed` | installer/src/rollback.rs:182-215 | from any disk, whatever users did to it, rollback changes no file outside the recorded destinations and backups, creates nothing elsewhere and removes only journalled directories |
| `RollbackFrame.RollbackSpares` | installer/src/rollback.rs:182-215 | what exists is safe also below a destination: every file that is no destination and not at or below a backup stays |
| `RollbackFrame.OccupiedDirStays` | installer/src/rollback.rs:209-215 | a directory that holds anything of the user's, a file or an empty directory, is not removed, and what it holds is unchanged |
| `RollbackFrame.BackupDirMovesExactlyWhen` | installer/src/rollback.rs:188-207 | a file in a directory standing where a backup was moves over the destination if and only if nothing but a file is there, its directory exists and is not inside the backup, and no primitive fails; otherwise it stays unless it is the destination |
| `FailedInstall.FailedInstallUndoneExactlyWhen` | installer/src/rollback.rs:112-141 | after any installation whose last call failed anywhere, under any faults: rollback restores all files if and only if nothing was lost before, and each of the two paths the call may write is unchanged, or known to the journal and needed for no original |
| `FailedInstall.CallWithoutFaultUndoneExactlyWhen` | installer/src/rollback.rs:124-132 | the same on the state before the call, if it meets no fault of the disk: nothing lost, and no file to save, or a directory at its backup path, or the same bytes there, or a path the journal knows and needs for no original |
| `FailedInstall.BackupLeftBehind` | installer/src/rollback.rs:124-132 | in the other case, after any installation: an unknown backup stays with the bytes it saved, and an original that comes from there comes back with these bytes |
| `FailedInstall.MissingSourceLeavesBackup` | installer/src/rollback.rs:132 | an instance: a fresh transaction and a source that does not exist, with the whole tree afterwards |
| `SharedBackups.SharedBackupLoses` | installer/src/rollback.rs:124-127 | of two original files with one backup path, the first installed is gone after a rollback, and the second is back unless it is itself at that path |
| `SharedBackups.FailedCallSwapsBytes` | installer/src/rollback.rs:124-132 | two originals with one backup path, the second installation failing: rollback succeeds and leaves the bytes of the second in the first |
| `SharedBackups.BackupPathInstalledFirst` | installer/src/rollback.rs:124-130 | a new file installed at a file's backup path before that file is overwritten: rollback restores everything |
| `SharedBackups.BackupPathInstalledLater` | installer/src/rollback.rs:124-130 | the same two installations in the other order lose the original |
| `Commitment.CommitIsPlainInstall` | installer/src/rollback.rs:156-171 | after a commit the tree is node for node the one that plain copying makes, with no backup left |
| `Commitment.CommitLeavesBackups` | installer/src/rollback.rs:160-169 | whatever removals fail, the commit succeeds and the tree is the plain one with some of the recorded backups on top |
| `Commitment.PlainRunLastCopy` | installer/src/rollback.rs:132 | a destination holds the bytes its last source had when it was copied |
| `Commitment.PlainRunFrame` | installer/src/rollback.rs:112-141 | a file that is no destination is as at the start |
| `Paths.BackupsCollide` | installer/src/rollback.rs:125 | two files share a backup if and only if directory and stem agree |
| `Paths.BackupOfBackup` | installer/src/rollback.rs:125 | the backup path of a backup path is itself |
| `Paths.BackupName` | installer/src/rollback.rs:125 | the backup stands beside the file: what follows the last dot gives way to bak, and a name without a dot or with only one in front is extended |
| `Manifest.Verify` | installer/src/manifest.rs:73-98 | succeeds if and only if no path is empty, no destination repeats and nothing preserved is cleaned up; an error names the first entry at fault and its first fault |
| `Manifest.SoundIsConsistent` | installer/src/manifest.rs:68-72 | entry-by-entry checking against earlier entries is the order-free statement |
| `Manifest.ManifestsAreSound` | installer/src/manifest.rs:113-203 | for every prefix both manifests verify, with backups apart from destinations and from each other |
| `Manifest.ManifestRollback` | installer/src/manifest.rs:53-64 | a rolled-back installation of any manifest that verifies and has separate, absent backups restores every file |
| `Manifest.PlatformsRollBack` | installer/src/manifest.rs:113-203 | the same for both platforms under any absolute prefix |
| `CommitParsing.ReadsBackExactlyWhen` | xtask/src/changelog.rs:60-118 | an entry written in the documented format is parsed into itself if and only if its type is valid and its fields cannot be mistaken for the format |
| `CommitParsing.ParsedIsConventional` | xtask/src/changelog.rs:63-118 | whatever is parsed from any line is such an entry |
| `CommitParsing.PanicsExactlyWhen` | xtask/src/changelog.rs:63-97 | a line panics if and only if it has a message and a prefix in which a closing parenthesis stands before the first opening one |
| `CommitParsing.PanickingLine` | xtask/src/changelog.rs:93-97 | such lines exist, for every hash and message |
| `CommitParsing.LoggedIsSound` | xtask/src/changelog.rs:189-209 | whatever git logs, entries are read from it if and only if no line panics, and they are what the theorems about the file need |
| `CommitLines.GivesExactlyWhen` | xtask/src/changelog.rs:63-118 | for any line: it gives an entry if and only if, trimmed, it is the hash, a blank, a prefix with the type of the entry, its scope and mark, the first colon and blank, and text that trims to the message, with a valid type |
| `CommitLines.SkippedExactlyWhen` | xtask/src/changelog.rs:65-109 | what is skipped: lines without a hash, a prefix and a message, and, of the others that do not panic, exactly those that never close the parenthesis they open or have no valid type |
| `CommitLines.ValidTypes` | xtask/src/changelog.rs:103-109 | the types that are accepted, by name |
| `CommitLines.ReadLineByLine` | xtask/src/changelog.rs:207-208 | the entries of a log are those of its first lines and then those of the others; one line has one entry, or none, or panics |
| `Changelog.GroupByType` | xtask/src/changelog.rs:121-133 | the loop over a map yields, for each section, its entries in input order, breaking ones twice |
| `Changelog.GroupsGrow` | xtask/src/changelog.rs:124-130 | one more entry is one or two pushes |
| `Changelog.SectionsOnce` | xtask/src/changelog.rs:156-158 | sorting the groups keeps each section once |
| `Changelog.GenerateChangelog` | xtask/src/changelog.rs:149-171 | the text built in nested loops is the list of lines: title, then per section a heading and its bullets; a fixed sentence if there is no entry |
| `ChangelogLaws.SectionsInOrder` | xtask/src/changelog.rs:45-58 | sections come in strictly increasing display order, exactly those that have an entry |
| `ChangelogLaws.SectionKeepsOrder` | xtask/src/changelog.rs:121-133 | a section's entries stand at increasing input positions, and at every position that belongs in it |
| `ChangelogLaws.SumOfAll` | xtask/src/changelog.rs:125-130 | over all sections the entries add up to all entries plus the breaking ones |
| `ChangelogLaws.LinesOfChangelog` | xtask/src/changelog.rs:149-171 | the printed text splits into exactly the intended lines |
| `ChangelogLaws.BulletsConserved` | xtask/src/changelog.rs:136-171 | the text has one bullet line for each entry and one more for each breaking one |
| `ChangelogLayout.GeneratedLayout` | xtask/src/changelog.rs:149-171 | the lines are the title and then, in the documented order of the printed headings, each heading that has entries with their bullets as written; a sentence if there is no entry |
| `ChangelogLayout.SameBullet` | xtask/src/changelog.rs:136-146 | a bullet has the mark, the scope, the message and the hash in their places |
| `ChangelogLayout.ChangelogIsFiled` | xtask/src/changelog.rs:149-171 | splitting the printed text and reading it by its headings gives below each heading the bullets of its entries, in input order, and no other |
| `ChangelogLayout.StandsBelowExactlyWhen` | xtask/src/changelog.rs:30-58 | a bullet stands below a heading and above the next if and only if it is that of an entry of the heading's type, of a breaking one, or, below Other, of a type without heading |
| `ReleaseHistory.GeneratedText` | xtask/src/changelog.rs:149-171 | no generated line after the title starts a section, and the text ends in one line end |
| `ReleaseHistory.HistoryIsReleased` | xtask/src/changelog.rs:264-267 | what follows the unreleased section is empty or starts a section |
| `ReleaseHistory.WriteRewrites` | xtask/src/changelog.rs:258-274 | a write replaces the unreleased section; text before and released sections stay byte for byte |
| `ReleaseHistory.ReleaseRewrites` | xtask/src/release.rs:191-207 | a release empties the unreleased section and pushes its own on the released ones |
| `ReleaseHistory.HistoryIsStack` | xtask/src/changelog.rs:256-274 | over every run of the two commands in any order, the released sections are a stack and the text before is kept; the whole file is given |
| `ReleaseHistory.StepRewrites` | xtask/src/release.rs:153-155 | the same for one step with generated text |
| `ReleaseHistory.StepShows` | xtask/src/release.rs:153-155 | a step prints below its own title its own entries, each below its heading |
| `ReleaseHistory.WriteAbsorbs` | xtask/src/changelog.rs:258-274 | writing A and then B is writing B |
| `FirstSection.FirstWrite` | xtask/src/changelog.rs:275-284 | without an unreleased section nothing is removed and one is made before the first heading; what follows counts as released if and only if it starts with a bracketed heading |
| `FirstSection.FirstWriteKeepsExactlyWhen` | xtask/src/changelog.rs:275-284 | the same over all later runs: history keeps the rest of the file under the stack if and only if that condition held |
| `FirstSection.ReleaseWithoutHeader` | xtask/src/release.rs:208-216 | a release keeps the whole text; the file gets a marker if and only if the released text holds it, and the next one goes to the same place if and only if it does not and the text before ends its line |
| `HeaderlessRuns.WholeExactlyWhen` | xtask/src/release.rs:194-216 | over every run of releases on a file without an unreleased section the file is the text before, the sections with the latest on top, and the rest, and stays open to the next one, if and only if no released text holds the marker |
| `HeaderlessRuns.FirstWriteJoins` | xtask/src/changelog.rs:275-284 | from the first write after them, over all later runs, history is the stack on top of these sections |
| `HeaderlessRuns.MarkedReleaseIsCut` | xtask/src/release.rs:195-199 | if the released text holds the marker, the next command, whichever it is, replaces it from there on |
| `HeaderlessRuns.FirstReleaseEndsLine` | xtask/src/release.rs:208-214 | if the text before does not end its line, a release goes to the end and ends it |
| `HeaderlessRuns.UnendedPile` | xtask/src/release.rs:208-214 | such a file keeps its sections whole over every run of releases, the first above all later ones |
| `VersionBump.BumpTypeExactlyWhen` | xtask/src/release.rs:87-103 | each bump has exactly one name, and a label may not be empty |
| `VersionBump.BumpExactlyWhen` | xtask/src/release.rs:35-63 | on versions that validate, a bump succeeds if and only if they are in ASCII digits and nothing overflows, and then denotes the successor |
| `VersionBump.BumpNormalises` | xtask/src/release.rs:36-54 | whatever else a bump accepts, signs and a leading v included, it treats like a version in plain digits that validates |
| `VersionBump.BumpIgnoresV` | xtask/src/release.rs:36 | a leading v makes no difference |
| `VersionStrings.BumpOfAny` | xtask/src/release.rs:35-63 | any string is accepted if and only if it is at most one v, three numbers that fit a u64, with or without plus signs, between dots, and nothing or anything after a hyphen; the result is then printed from these numbers |
| `VersionStrings.ValidExactlyWhen` | xtask/src/release.rs:299-309 | a string validates if and only if it is three numbers between dots and nothing or a hyphen with a label |
| `VersionBump.BumpIsHigher` | xtask/src/release.rs:35-63 | major, minor and patch bumps validate and are strictly higher by section 11 of Semantic Versioning 2.0.0, also over a pre-release |
| `VersionBump.PreBumpExactlyWhen` | xtask/src/release.rs:59 | a pre-release bump is higher if and only if it replaces a lower label; on a release it is lower |
| `VersionBump.BumpsIncrease` | xtask/src/release.rs:35-63 | any number of bumps ends above the start, without a label |
| `Text.ParseOfPrint` | xtask/src/release.rs:45-60 | parsing a printed u64 gives it back |
| `Text.LinesOfUnlines` | scripts/ci_supply_chain_gate.rs:1835 | splitting joined lines gives them back |
| `Text.LinesOfCrLf` | xtask/src/gherkin.rs:95 | a carriage return before the line end is not part of the line |
| `Text.TrimExactly` | xtask/src/gherkin.rs:96 | trimming takes away exactly the blanks at both ends |
| `Gherkin.ParseFeatureFile` | xtask/src/gherkin.rs:86-154 | the loop over three variables is the fold of one line's transition |
| `Gherkin.VariablesAreScope` | xtask/src/gherkin.rs:91-93 | after any line the three variables hold the declared feature tags, pending tags and whether a scenario began since the feature |
| `Gherkin.ScanIsScope` | xtask/src/gherkin.rs:95-151 | the scenarios found are the declared ones, with feature tags and then all tags since the last boundary |
| `Gherkin.TagsOfMembers` | xtask/src/gherkin.rs:122-124 | a scenario carries a tag if and only if a tag line with it reaches the scenario, or its feature line, with no boundary between |
| `Gherkin.ScenarioPerLine` | xtask/src/gherkin.rs:112-131 | one scenario for each scenario line, and no other, in order, with its line number |
| `FeatureText.WordsOfSpaced` | xtask/src/gherkin.rs:164 | a line splits into exactly its words, whatever blanks are around them |
| `FeatureText.TagsOfLine` | xtask/src/gherkin.rs:163-169 | the tags of a line are the names of its words that begin with at signs, in order, without the signs; other words add nothing |
| `FeatureText.EveryLine` | xtask/src/gherkin.rs:163-169 | every line is of that form, so the statement covers all text |
| `FeatureText.ClassifiedExactly` | xtask/src/gherkin.rs:98-150 | a trimmed line is a tag line, a feature, a scenario with its trimmed name, or clears tags, if and only if it begins as told; comments, blanks and steps do nothing |
| `FeatureText.FileIsScanned` | xtask/src/gherkin.rs:86-154 | for any text: the scenarios found are those of its scenario lines, in order, with line number, name, and the tags that reach the feature line and then those that reach the scenario line |
| `FeatureText.ParseFile` | xtask/src/gherkin.rs:86-154 | the same of the method |
| `Gherkin.FilterCounts` | xtask/src/gherkin.rs:180-201 | the tag extractors keep each matching tag as often as it occurs |
| `TagOrder.TagPrefixes` | xtask/src/gherkin.rs:180-201 | requirement tags begin with REQ- or INF-REQ-, criterion tags with AC- |
| `TagOrder.FilterPicks` | xtask/src/gherkin.rs:180-201 | they keep the order of the tags |
| `Gherkin.ValidateTags` | xtask/src/gherkin.rs:217-250 | the nested loops list each scenario's unknown requirement tags and then its unknown criterion tags |
| `Gherkin.ErrorsExactly` | xtask/src/gherkin.rs:213-216 | an error is reported as often as its unknown tag occurs at its place, and no other error is |
| `TagOrder.ErrorsOfOne` | xtask/src/gherkin.rs:217-250 | the errors of one scenario are those of its unknown requirement tags in order and then of its unknown criterion tags in order |
| `TagOrder.ErrorsConcat` | xtask/src/gherkin.rs:221 | scenarios are validated one after the other |
| `AcIndex.BuildIndex` | xtask/src/ac_status.rs:178-200 | the hash index holds, for every key, the locations that scanning all scenarios would find |
| `AcIndex.ReqWeightIsProduct` | xtask/src/ac_status.rs:191-198 | a scenario is listed (occurrences of the requirement) x (occurrences of the criterion) times |
| `AcIndex.WeightOfTags` | xtask/src/ac_status.rs:180-198 | the same in terms of the merged tags |
| `AcIndex.CoveredExactlyWhen` | xtask/src/ac_status.rs:232 | a key has a location if and only if some one scenario carries both tags |
| `AcIndex.LocationsOfOne` | xtask/src/ac_status.rs:186-198 | a scenario is listed as its path with slashes for backslashes, a colon and its line, as often as the product says |
| `AcIndex.LocationsConcat` | xtask/src/ac_status.rs:180-200 | the locations of scenarios come one after the other |
| `AcIndex.JoinedWithBreaks` | xtask/src/ac_status.rs:224 | a cell has a break between any two locations and none elsewhere |
| `AcIndex.Lookup` | xtask/src/ac_status.rs:216-232 | the table cell joins those locations or is a dash, and the row counts as covered exactly then |
| `GateMetrics.MetricsCollector.RecordGate` | scripts/ci_supply_chain_gate.rs:57-69 | appends one gate with the given time |
| `GateMetrics.MetricsCollector.SaveMetrics` | scripts/ci_supply_chain_gate.rs:71-120 | the text built by appending, separators before all but the first gate, is the file's list of lines |
| `GateSummary.FileSays` | scripts/ci_supply_chain_gate.rs:71-120 | the whole text, line by line: the head, six lines for each gate in its place, the duration of the first licence gate and whether it is under 45 seconds, the thresholds and bits |
| `GateSummary.PassedExactly` | scripts/ci_supply_chain_gate.rs:181-201 | a bit is 1 if and only if the first gate whose name contains the words exists and passed |
| `GateSummary.LicenseExactly` | scripts/ci_supply_chain_gate.rs:97-102 | the duration compared is that of the first gate named so, or zero if there is none |
| `GateMetrics.ParseMetrics` | scripts/ci_supply_chain_gate.rs:1833-1913 | the line loop with its flags and current fields is the fold of one line's transition |
| `GateRoundTrip.PlainNamesReadBack` | scripts/ci_supply_chain_gate.rs:78-121 | reading a whole saved file returns the recorded gates in order, with every u64 and flag |
| `GateRoundTrip.RoundTripExactlyWhen` | scripts/ci_supply_chain_gate.rs:1833-1913 | it does so if and only if no name has a quote or a line break |
| `GateHistory.LoadHistoricalMetrics` | scripts/ci_supply_chain_gate.rs:139-163 | all gates of all files, sorted by time, the last 50 |
| `GateHistory.RunsReadBack` | scripts/ci_supply_chain_gate.rs:139-154 | the files of any saved runs with plain names load as exactly the gates those runs recorded |
| `GateHistory.RetentionKeepsLatest` | scripts/ci_supply_chain_gate.rs:156-160 | retention keeps min(50, n) gate records, nothing is lost or added, nothing dropped is later than anything kept, ties stay in order |
| `GateHistory.DirectoryOrder` | scripts/ci_supply_chain_gate.rs:142-157 | for any permutation of the files the same gates are found and the same times retained, in the same order |
| `GateHistory.CalculateP95Duration` | scripts/ci_supply_chain_gate.rs:165-179 | none if and only if no retained gate has that name; otherwise the duration of one that has, with at most 95 percent of the gates of that name below it and more than that at or below it |
| `GateHistory.NamedDurations` | scripts/ci_supply_chain_gate.rs:167-170 | the durations considered are those of the gates of that name and no other |
| `Sorting.SortExactly` | scripts/ci_supply_chain_gate.rs:157 | a sequence is the sorted one if and only if it ascends and has the same elements for each key in the same order |
| `OrderStatistics.OrderStatistic` | scripts/ci_perf_dashboard.rs:409-410 | the element at an index of the sorted sequence, by counting in the unsorted one |
| `Percentiles.CalculatePercentiles` | scripts/ci_perf_dashboard.rs:398-413 | zeros for no sample; otherwise the values with at most 50 (99) percent of samples below and more than that at or below, each the only such value |
| `Percentiles.CalculateP99` | scripts/ci_perf_dashboard.rs:416-426 | the same for the 99th percentile alone |
| `Percentiles.CalculateBaselineFromHistory` | scripts/ci_perf_dashboard.rs:594-624 | an error if and only if there is no history; otherwise the medians of the last ten runs |
| `Percentiles.RecentAreLast` | scripts/ci_perf_dashboard.rs:599-601 | the runs considered are the last ten, or all if there are fewer |
| `Percentiles.PercentileIsSample` | scripts/ci_perf_dashboard.rs:406-410 | for any percentage below 100 exactly one value is the percentile, and it is a sample |
| `Percentiles.PercentilesOrdered` | scripts/ci_perf_dashboard.rs:406-412 | percentiles grow with the percentage, so p50 is at most p99 |
| `Percentiles.PercentileOfPermuted` | scripts/ci_perf_dashboard.rs:403-404 | percentiles do not depend on the order of the samples |
| `TrendStats.CalculateTrendStats` | scripts/ci_perf_dashboard.rs:627-702 | the loops compute the slopes and the comparison of both ends, zeros below two samples |
| `TrendStats.Accumulate` | scripts/ci_perf_dashboard.rs:648-653 | one loop for both sums of products of deviations |
| `TrendStats.DenominatorPositive` | scripts/ci_perf_dashboard.rs:655-659 | for two or more samples the denominator is positive, so the guard never fails |
| `TrendStats.ErrorsDecompose` | scripts/ci_perf_dashboard.rs:637-659 | the squared error of any line is that of the best line plus the squared distance between the two |
| `TrendStats.SlopeIsLeastSquares` | scripts/ci_perf_dashboard.rs:637-659 | no line has a smaller squared error than the one of this slope through the means, and no other line has the same |
| `TrendStats.SlopeOfLine` | scripts/ci_perf_dashboard.rs:655-659 | samples on a line have the slope of the line |
| `TrendStats.RelativeChange` | scripts/ci_perf_dashboard.rs:679-692 | below ten samples the comparison is zero; otherwise it is the relative change of the last five against the first five, with its sign and exactly when it is zero |
| `TrendStats.NondecreasingTrend` | scripts/ci_perf_dashboard.rs:655-659 | samples that never decrease have a trend that is not negative |

## Left out

- Service registration and deregistration: the code makes both a no-op beyond the journal entry.
- Paths: relative ones, `..` inside them, symbolic links and permissions; paths are absolute sequences of components, so `Manifest.PlatformsRollBack` asks for an absolute prefix.
- I/O errors of `exists()`, which the code reads as absence: a path is in the tree or it is not.
- Faults of a primitive: copying may leave any prefix of the bytes, making directories may stop after any proper ancestor, removing and renaming are all or nothing.
- `Manifest`: the service record of a manifest, its JSON form and the staging of sources.
- `InstallTransaction`: other processes that change the disk between two primitives of one call; `RollbackFrame` covers changes between calls.
- `FailedInstall.FailedInstallUndoneExactlyWhen`: under a fault of the disk its condition compares the disk before and after the failed call, as what a fault leaves cannot be told before.
- Running git: its output is given, as a string of characters.
- `update_changelog` (xtask/src/release.rs:403-447): another splice, with its own search, that the two commands do not use.
- `ReleaseHistory.HistoryIsStack`: for files with an `[Unreleased]` header; `FirstSection` and `HeaderlessRuns` say when a file without one joins it.
- The versions in Cargo.toml, and the regular expression engine: `validate_version` is a predicate, with the digits of other scripts as a parameter.
- The BTreeMap of changelog groups is a map whose keys are listed in the order of their names; sorting is insertion into a sorted list, here and in `Sorting`, as the library's algorithm is not part of the repository.
- `Gherkin.ParseFeatureFile`: lines are classified before the loop instead of inside it; walking the directory is left out.
- `Changelog` and `AcIndex`: references to entries are values, and paths are strings.
- `AcStatus::compute`, the rest of the status table and the coverage metrics: they come from crates outside the modelled files.
- `GateMetrics.ParseMetrics`: its seven variables are one record; the error type is left out as it never fails.
- The second half of scripts/ci_supply_chain_gate.rs, which repeats the first with a different reader, and scripts/supply_chain_dashboard.rs.
- Clocks, file names and the results of `cargo` that end in a saved file are parameters.
- Floating point: samples are real numbers without NaN, and the index of `GateHistory.CalculateP95Duration` is 95/100 of the length rounded down.
