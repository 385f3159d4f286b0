# Release, CI and maintenance scripts: a verified model

This project models the logic of the repository's release, CI and maintenance scripts in Dafny and
proves what they promise. It covers:

- **Package archives.** The tar reader and the canonical tar writer of the release evidence, byte by
  byte: octal fields, checksums, PAX and GNU path headers, limits, the path split, the sort by path.
- **The immutable evidence writer**, as a state machine over its file-system steps with any number of
  writers and crashes at any point.
- **Publication.** The dependency-first plan, and the runs that publish it against a registry whose
  answers are arbitrary.
- **Affected-path planning.** The closures over dependents, the targeted planner of pull requests, the
  broader planner of pushes, and the build pass both go through.
- **Changelogs.** Reading fragments, merging and printing the unreleased section, folding, cutting a
  release, and the history guard.
- **Deletion safety, chunked file search, sharded test runs, broker restart, UTF-8 windows and version
  order.**

Strings that the source handles as bytes (archive paths, file contents) are byte sequences here, and
strings it handles as text are sequences of characters. Clocks, registries, file systems and processes
appear only through the answers they give; every theorem quantifies over all of those answers.
JavaScript exceptions are `Result` values.

Where the source mutates, the model does too: loops are methods with loops, the tar header and the
search buffer are arrays, changelog sections are objects updated through a map, the publishing session,
the granted deletion roots and the broker's dependencies are classes. Each such method is proved equal
to a function, and the theorems are about that function.

| files | subject |
|---|---|
| `Lists`, `Bytes`, `Text`, `PosixPath` | sequences, byte strings, white space, absolute paths |
| `Utf8`, `TarFormat`, `TarParser`, `TarWriter`, `TarEntries`, `TarCanonical`, `TarTheorems` | archives |
| `ImmutableWriter` | evidence files |
| `Versions`, `NightlyVersions` | version order and nightly versions |
| `PublicationOrder`, `PublishPlan`, `PublishKahn`, `PublishRun`, `PublishHistory` | publication |
| `Dependents`, `AffectedPaths`, `AffectedPlan`, `AffectedTheorems`, `BuildPass`, `PushPlan`, `PushTheorems` | CI planning |
| `ChangelogText`, `ChangelogSections`, `ChangelogPrint`, `ChangelogMerge`, `ChangelogNotes`, `ChangelogFold`, `ChangelogRegion`, `ReleaseHistory`, `ReleaseCut` | changelogs |
| `DeletionVerdict`, `ChunkedSearch`, `TestPool`, `BrokerRestart` | maintenance scripts |

## Properties that need a condition

Some things the scripts are meant to do hold only under a condition. The model keeps the code as it is
and proves the condition exact.

- An archive does not survive writing and reading when a path is split so that its file-name half begins
  with a byte-order mark, because decoding the name field drops that mark. `TarTheorems.RoundTrip` and
  `TarTheorems.CanonicalizeIdempotent` are if-and-only-if statements over that condition, and
  `TarTheorems.MarkBreaksRoundTrip` gives a concrete path.
- Printing an unreleased body and splitting it again is not stable when a section heading is blank: the
  blank heading is printed as `### ` and read back as a note. `ChangelogPrint.PrintIsStable` and
  `ChangelogRegion.FoldKeepsNotes` are if-and-only-if statements over blank headings;
  `ChangelogPrint.BlankHeadingIsUnstable` and `ChangelogRegion.BlankHeadingGainsNote` give a body and a
  changelog that fail.
- The release cut looks for the exact text `## [Unreleased]`, and adds its version exactly when that text
  is there and, where notes are pending, begins a line (`ReleaseCut.CutAddsExactly`). A heading with two
  spaces is found by the fold and missed by the cut (`ReleaseCut.WideMarkIsMissed`).
- A comment promises that every plan which loads the native addon also builds it. Targeted plans do
  (`BuildPass.PlanIsSupplied`). A push plan does exactly when the build pass follows or one of the listed
  guards holds (`PushTheorems.ResolvedPushSupply`): documentation alone skips the build pass, and
  `scripts/gjc-session/README.md` counts as a tooling script, so pushing it plans the root check and
  nothing that builds the addon (`PushTheorems.ToolingDocIsNotSupplied`).
- A changed test file is run by name exactly when it is a harness test or gets past the workflow, Rust and
  install branches (`AffectedTheorems.ChangedTestIsRun`). The installer's own
  `scripts/install-dev.test.ts` does not (`AffectedTheorems.InstallTestIsNotRun`).
- A derived nightly version has the nightly form exactly when its year has four digits or is before
  -99999 (`NightlyVersions.NightlyForm`); in the year 10000 it has not
  (`NightlyVersions.YearTenThousandIsNoNightly`).
- The ancestor and containment tests on path strings agree with the tests on path segments except for
  one written form, a trailing separator (`PosixPath.AncestorTest`, `PosixPath.InsideTest`,
  `PosixPath.SeparatorFoolsTheTests`); without one they always agree (`PosixPath.UntrailedTests`). A real-path
  answer with a trailing separator therefore gets past the home check exactly when it is a home
  (`DeletionVerdict.ApprovedIsSafe`), and `DeletionVerdict.SeparatorReachesHome` is such a case.

## Model

| member | source | states |
|---|---|---|
| `Utf8.TrimSplitUtf8Sequence` | scripts/rebrand-inventory.ts:243-252 | the backwards walk over the last three bytes computes the trimmed window |
| `Utf8.CutInside` | scripts/rebrand-inventory.ts:243-252 | when a cut falls inside a character, nothing between its first byte and the cut ends a well-formed text |
| `Utf8.TrimmedIsLongestValidPrefix` | scripts/rebrand-inventory.ts:243-252 | for every well-formed text and every cut, the trimmed window is its longest prefix that is well-formed UTF-8 (section 3 of RFC 3629), at most three bytes shorter |
| `Utf8.DecodeValid` | scripts/release-evidence.ts:325-333 | decoding gives well-formed text, and gives back the bytes themselves exactly when they are well-formed and no byte-order mark leads |
| `TarFormat.OctalFieldRoundTrip` | scripts/release-evidence.ts:316-323 | a zero-padded octal field followed by NULs or blanks reads back as its number |
| `TarFormat.SafePathBytes` | scripts/release-evidence.ts:342-355 | a safe path holds no NUL and starts inside `package/`, so a header field can hold it |
| `TarParser.AssertTarChecksum` | scripts/release-evidence.ts:335-340 | the checksum loop accepts exactly the headers whose stored sum is their byte sum with the checksum field blank |
| `TarParser.ParsePaxAttributes` | scripts/release-evidence.ts:364-389 | the record loop returns exactly the attributes of the record-by-record reading, or its error |
| `TarParser.ReadExtension` | scripts/release-evidence.ts:402-475 | a PAX or GNU block changes the pending path and no entry |
| `TarParser.ReadMember` | scripts/release-evidence.ts:402-475 | a member block is accepted or refused as specified, and the set of seen paths stays the set of entry paths |
| `TarParser.ParseTarEntries` | scripts/release-evidence.ts:402-475 | the whole loop over offset, counters, pending path and seen paths computes the block-by-block reading with all its errors |
| `TarTheorems.AcceptedArchive` | scripts/release-evidence.ts:402-475 | every entry of an accepted archive is safe, paths are pairwise distinct, every limit holds, and the archive is long enough for its headers, padded payloads and terminator |
| `TarTheorems.PaxRecordReads` | scripts/release-evidence.ts:364-389 | a well-formed PAX record is read as its key and value and takes exactly its own bytes |
| `TarTheorems.PaxPathRead` | scripts/release-evidence.ts:364-389 | the last path record wins, whatever records stand before it |
| `TarTheorems.GnuLongPathReads` | scripts/release-evidence.ts:391-400 | a GNU long path is its bytes up to a NUL, less one final newline |
| `TarTheorems.PathBlockActsAsHeader` | scripts/release-evidence.ts:402-475 | a member behind a PAX or GNU path block parses exactly like the member whose own header holds that path, with the same entries or the same error, whatever stands before and after |
| `TarWriter.SplitJoins` | scripts/release-evidence.ts:491-500 | the two halves of a split path fit their fields and give the path back |
| `TarWriter.SplitUstarPath` | scripts/release-evidence.ts:491-500 | the backwards search finds the specified split, or fails when there is none |
| `TarWriter.WriteTarString` | scripts/release-evidence.ts:477-481 | writes a text field in place and nothing else, or refuses a value that does not fit |
| `TarWriter.WriteTarOctal` | scripts/release-evidence.ts:483-489 | writes an octal field in place and nothing else, or refuses a number that does not fit |
| `TarWriter.WriteChecksum` | scripts/release-evidence.ts:502-523 | replaces the eight blanks the sum was taken over by six digits, a NUL and a blank |
| `TarWriter.CanonicalTarHeader` | scripts/release-evidence.ts:502-523 | the in-place header writer produces the specified 512 bytes, or the specified error |
| `TarWriter.CreateCanonicalTarball` | scripts/release-evidence.ts:525-541 | the writer produces the specified archive of the entries sorted by path |
| `TarEntries.SortContents` | scripts/release-evidence.ts:525-541 | sorting by path keeps the entries and every total |
| `TarEntries.SortSorts` | scripts/release-evidence.ts:525-541 | entries with distinct paths come out in strictly ascending byte order |
| `TarEntries.SortIgnoresOrder` | scripts/release-evidence.ts:525-541 | the sorted list depends only on which entries there are |
| `TarCanonical.ChecksumReads` | scripts/release-evidence.ts:335-340 | the checksum the writer stores is the one the parser computes |
| `TarCanonical.HeaderReads` | scripts/release-evidence.ts:402-475 | every field of a written header is read back, up to a byte-order mark in front of the name |
| `TarCanonical.BlockReads` | scripts/release-evidence.ts:402-475 | a written member is read as one block of its own length, and accepted exactly when limits and earlier paths allow it |
| `TarCanonical.ParsedIsReadBack` | scripts/release-evidence.ts:402-475 | whatever a written archive parses to is its entries as their headers read back |
| `TarTheorems.RoundTrip` | scripts/release-evidence.ts:402-541 | parsing the archive written for distinct well-formed entries within the limits returns exactly those entries in byte order of path, if and only if no path loses a byte-order mark at its split |
| `TarTheorems.MembersInjective` | scripts/release-evidence.ts:502-541 | different entry lists are written to different bytes |
| `TarTheorems.SameBytesIffSameEntries` | scripts/release-evidence.ts:525-541 | two lists of distinct entries are written to the same bytes exactly when they hold the same entries |
| `TarTheorems.CanonicalizeNeverGrows` | scripts/release-evidence.ts:543-545 | the canonical form is never longer than the archive it came from |
| `TarTheorems.CanonicalizeIdempotent` | scripts/release-evidence.ts:543-545 | canonicalizing again changes nothing and trips no limit, if and only if no path loses a byte-order mark at its split |
| `TarTheorems.CanonicalizeIsNormalForm` | scripts/release-evidence.ts:543-545 | two accepted archives have the same canonical bytes exactly when they hold the same entries, whatever their member order and path headers |
| `TarTheorems.MarkBreaksRoundTrip` | scripts/release-evidence.ts:325-333 | a concrete one-file archive that is written without complaint and does not come back |
| `ImmutableWriter.StepKeepsInvariant` | scripts/release-evidence.ts:877-902 | every step of every writer, crashes included, keeps the file-system invariant and leaves a filled destination as it is |
| `ImmutableWriter.DestinationIsImmutable` | scripts/release-evidence.ts:877-902 | in every interleaving the destination is absent, keeps its initial contents, or holds one writer's complete bytes, and never changes afterwards |
| `ImmutableWriter.ReturnMeansExactBytes` | scripts/release-evidence.ts:877-902 | a writer that returned finds exactly its bytes there, then and ever after; one refused for a conflict finds different bytes |
| `ImmutableWriter.ReturnsAgree` | scripts/release-evidence.ts:877-902 | writers that both returned wrote the same bytes |
| `ImmutableWriter.UndisturbedReachesLink` | scripts/release-evidence.ts:877-902 | an undisturbed writer claims a free destination with its bytes, or meets the existing file |
| `ImmutableWriter.UndisturbedCompares` | scripts/release-evidence.ts:877-902 | an undisturbed writer at a taken destination returns exactly when the bytes are its own, and removes its temporary file |
| `Versions.CompareIsNumeric` | scripts/release-evidence.ts:165-169 | without leading zeros, comparing digit strings by length and then as text compares their values, at any size |
| `Versions.CompareStableVersions` | scripts/release-evidence.ts:171-183 | the component loop computes the specified comparison, or refuses a version that is not stable |
| `Versions.CompareStableIsPrecedence` | scripts/release-evidence.ts:171-183 | the comparison is numeric precedence (item 11 of Semantic Versioning 2.0.0) and only equal versions compare equal |
| `NightlyVersions.HighestPatchIsHighest` | scripts/nightly-release.ts:60-80 | the reduced patch is the numerically highest patch of the inputs and is one of them |
| `NightlyVersions.NightlyIsAboveEveryInput` | scripts/nightly-release.ts:60-80 | the X.Y.Z core of a derived nightly is a stable version strictly above every input version |
| `NightlyVersions.UtcIsIdentifier` | scripts/nightly-release.ts:55-58 | the timestamp field holds no dot, and is a number without leading zero exactly for years 1000 to 9999 and before -99999 |
| `NightlyVersions.NightlyForm` | scripts/nightly-release.ts:55-80 | a derived nightly has the nightly form exactly for those years |
| `NightlyVersions.YearTenThousandIsNoNightly` | scripts/nightly-release.ts:55-80 | on the first day of the year 10000 a version is derived and does not have the nightly form |
| `PublicationOrder.PlanFailsExactlyOnCycles` | scripts/ci-release-publish.ts:1072-1146 | taking the first declared ready package stops short exactly when the dependency graph has a cycle |
| `PublicationOrder.PlanIsLeast` | scripts/ci-release-publish.ts:1072-1146 | no dependency-first order comes before the plan when compared by declaration index |
| `PublishPlan.ValidatedRecords` | scripts/ci-release-publish.ts:1072-1125 | validated records are the given ones in declaration order and form a dependency graph over the declared packages |
| `PublishPlan.PlanIsLeastPublicationOrder` | scripts/ci-release-publish.ts:1072-1146 | planning fails with a cycle error exactly on cycles; otherwise the plan is a rearrangement of the records, every dependency before its dependents, and the least such order |
| `PublishPlan.PlanIgnoresRecordOrder` | scripts/ci-release-publish.ts:1072-1146 | the plan or its error depends only on which records there are |
| `PublishKahn.CountDependencies` | scripts/ci-release-publish.ts:1112-1125 | the first loop counts each package's dependencies and lists every package's dependents |
| `PublishKahn.ReleaseDependents` | scripts/ci-release-publish.ts:1129-1138 | placing a package lowers the count of each dependent once and leaves ready exactly the packages whose dependencies are all placed |
| `PublishKahn.KahnOrder` | scripts/ci-release-publish.ts:1112-1145 | the counting worklist with its sorted ready list computes the least dependency-first order, and leaves a positive count exactly on unplaced packages |
| `PublishKahn.PlanExpectedEvidencePublication` | scripts/ci-release-publish.ts:1072-1146 | validation and worklist together compute the specified plan or error |
| `PublishRun.AssertExactMeansExact` | scripts/ci-release-publish.ts:981-1006 | the observation assertion passes exactly when evidence and tag match |
| `PublishRun.WaitUntilVisible` | scripts/ci-release-publish.ts:1008-1070 | the retry loop performs exactly the specified calls and outcome |
| `PublishRun.PublishRetainedPackage` | scripts/ci-release-publish.ts:1008-1070 | publishing one package performs exactly the specified calls and outcome |
| `PublishRun.PublishOneLog` | scripts/ci-release-publish.ts:1008-1070 | one package's calls concern it alone, publish at most once and only right after it was seen absent, look at most retries + 2 times, and succeed only on an exact observation |
| `PublishRun.AwaitVisibleOutcome` | scripts/ci-release-publish.ts:1008-1070 | the wait ends at the first answer that is not transient or when retries are used up, and succeeds exactly if that answer is exact |
| `PublishRun.ExactIsSkipped` | scripts/ci-release-publish.ts:1008-1070 | a package that is already exact is not published again |
| `PublishHistory.PublishExpectedEvidencePackages` | scripts/ci-release-publish.ts:1148-1158 | a whole run performs exactly the specified calls in plan order and stops at the first failure |
| `PublishHistory.ReobserveExpectedEvidencePackages` | scripts/ci-release-publish.ts:1160-1174 | the final sweep plans the records itself and performs exactly the specified observations, or fails with the plan |
| `PublishHistory.PublishedAfterDependencies` | scripts/ci-release-publish.ts:1072-1158 | in every run a package is published only right after it was seen absent and after each internal dependency was seen exact |
| `PublishHistory.RunCounts` | scripts/ci-release-publish.ts:1008-1070 | per run each package is published at most once and looked at no more than retries + 2 times, and no other package at all |
| `PublishHistory.HistoryPublishesAfterDependencies` | scripts/ci-release-publish.ts:1148-1158 | the same over any sequence of interrupted and resumed runs |
| `PublishHistory.EachRunCounts` | scripts/ci-release-publish.ts:1148-1158 | the per-run bounds hold whatever the records and answers |
| `PublishHistory.SweepSucceedsOnlyOnExact` | scripts/ci-release-publish.ts:1160-1174 | the sweep of any records succeeds if and only if they can be planned and every answer is exact, and then returns one exact observation for every record and no other |
| `PublishHistory.SettledRunPublishesNothing` | scripts/ci-release-publish.ts:1148-1158 | a run whose every first look is exact publishes nothing, ends well and returns exactly those observations |
| `Dependents.LeastClosedIsReached` | scripts/ci-dev-affected.ts:1327-1355 | the least closed set is what chains of dependents reach from the start, no more and no less |
| `Dependents.LeastClosedMonotone` | scripts/ci-dev-affected.ts:1327-1355 | touching more never selects less |
| `Dependents.ExpandWithDependents` | scripts/ci-dev-affected.ts:1327-1355 | the worklist ends on cyclic graphs too and selects exactly the least set holding the touched packages and closed under dependents, each once |
| `Dependents.ExpandCargoDependents` | scripts/ci-dev-affected.ts:1650-1665 | the Cargo worklist meets the same specification over the reverse dependency map |
| `AffectedPaths.SelectCanaryTestsFrom` | scripts/ci-risk-canary-manifest.ts:123-135 | the nested loops select exactly the canaries of the matched risk classes, and refuse exactly when there are more than the cap |
| `AffectedPaths.CanariesMonotone` | scripts/ci-risk-canary-manifest.ts:123-135 | more changed paths never select fewer canaries |
| `AffectedPaths.CanariesWithinCap` | scripts/ci-risk-canary-manifest.ts:137-139 | the manifest as it stands can never exceed the cap |
| `AffectedPlan.AddKey` | scripts/ci-dev-affected.ts:1291-1303 | adding a key keeps all others and keeps keys unique |
| `AffectedPlan.AddPackageTests` | scripts/ci-dev-affected.ts:1156-1210 | a package's tests are one key, or all shards and the isolated host for the coding agent |
| `AffectedPlan.AddWorkspaceTests` | scripts/ci-dev-affected.ts:1147-1154 | the workspace tests are the release contract and every package with tests |
| `AffectedPlan.AddCodeTasks` | scripts/ci-dev-affected.ts:1046-1101 | the ordinary branch of the loop adds exactly the keys its path asks for |
| `AffectedPlan.AddPathTasks` | scripts/ci-dev-affected.ts:1011-1102 | the loop with its three flags adds exactly the union of what the paths ask for |
| `AffectedPlan.EnsureNativeBuild` | scripts/ci-dev-affected.ts:1254-1259 | the native build is added exactly when a planned key needs it and none is there |
| `AffectedPlan.PlanTargetedTasks` | scripts/ci-dev-affected.ts:989-1127 | the planned keys are unique and are exactly the union of gate, escalation, paths, smoke and canaries, closed under the native build |
| `AffectedTheorems.OnlyTheManifestIsForgiven` | scripts/ci-dev-affected.ts:1357-1388 | the release-harness exception forgives only the root manifest among the full-workspace paths |
| `AffectedTheorems.EscalationMonotone` | scripts/ci-dev-affected.ts:1357-1378 | a change that escalates still does when paths are added |
| `AffectedTheorems.RequestedUnreserved` | scripts/ci-dev-affected.ts:989-1127 | no changed path makes the planner use a key of the build pass or the older native-build key |
| `AffectedTheorems.PlanMonotone` | scripts/ci-dev-affected.ts:989-1127 | if one change includes another, its planned keys include the other's, through escalation, exception, canaries and native build |
| `AffectedTheorems.PlanIgnoresOrder` | scripts/ci-dev-affected.ts:989-1127 | order and repetition of changed paths do not matter |
| `AffectedTheorems.PathIsPlanned` | scripts/ci-dev-affected.ts:1021-1102 | everything one path asks for is in every plan that path takes part in |
| `AffectedTheorems.ChangedTestIsRun` | scripts/ci-dev-affected.ts:1021-1102 | a changed test file that exists is run by name if and only if it is a harness test, or takes none of the workflow, Rust and install branches, or takes the Rust branch and is named there |
| `AffectedTheorems.ChangedTestStaysPlanned` | scripts/ci-dev-affected.ts:989-1127 | a test its own path runs is run whatever else changed |
| `AffectedTheorems.HarnessTestsAreNamed` | scripts/ci-dev-affected.ts:1021-1045 | every test among the harness scripts is run by the selftest or the permission task |
| `AffectedTheorems.InstallTestIsNotRun` | scripts/ci-dev-affected.ts:1021-1102 | changing the installer's own test alone plans no task that runs it |
| `AffectedTheorems.DocsOnlyIsFree` | scripts/ci-dev-affected.ts:995-1008 | documentation alone plans nothing, except the embedded-docs gate and the addon it loads |
| `BuildPass.PlanIsSupplied` | scripts/ci-dev-affected.ts:449-469 | in every targeted plan, a task that loads the native addon comes with one that builds it |
| `BuildPass.BuildPassKeepsPlan` | scripts/ci-dev-affected.ts:1537-1549 | the build pass loses no key of any plan, except that the older native-build key becomes the dedicated producer's |
| `BuildPass.BuildPassIsSupplied` | scripts/ci-dev-affected.ts:1537-1549 | after the build pass every task that loads the addon has a producer |
| `BuildPass.OneNativeBuild` | scripts/ci-dev-affected.ts:1537-1549 | whatever plan it is given, the pass returns at most one native-build key, at one place, and that is the dedicated producer |
| `BuildPass.BuildPassKeysUnique` | scripts/ci-dev-affected.ts:1537-1549 | given unique keys outside its own prefixes, and distinct units, the pass uses every key once |
| `PushPlan.FindTouchedPackages` | scripts/ci-dev-affected.ts:1323-1325 | the filter over packages and paths finds the packages a path is or lies in, in order |
| `PushPlan.AddAffectedTasks` | scripts/ci-dev-affected.ts:921-933 | the loop over affected packages adds exactly their checks and tests, in whatever order they come |
| `PushPlan.PlanTasks` | scripts/ci-dev-affected.ts:879-975 | the push planner's keys are unique and are exactly what its guards ask for over the packages its own worklist finds affected |
| `PushTheorems.AffectedIsDetermined` | scripts/ci-dev-affected.ts:1327-1342 | with distinct package names there is one set of affected packages, so a push plan is a function of the change |
| `PushTheorems.NativeFlagIs` | scripts/ci-dev-affected.ts:419-439 | the flag that gates the native setup is set exactly when one of the listed guards of the push planner holds |
| `PushTheorems.PushSupply` | scripts/ci-dev-affected.ts:879-975 | before the build pass, a push plan builds what its tasks load if and only if such a guard holds or no guard adds a task that loads it |
| `PushTheorems.ResolvedTargetedIsSupplied` | scripts/ci-dev-affected.ts:384-395 | in pull-request mode the resolved plan always builds what its tasks load |
| `PushTheorems.ResolvedPushSupply` | scripts/ci-dev-affected.ts:384-395 | in push mode it does if and only if the change is not documentation alone, or a guard adds a native build, or none adds a task that loads it |
| `PushTheorems.ToolingDocIsNotSupplied` | scripts/ci-dev-affected.ts:384-395 | pushing a README under scripts/ plans the root check and nothing that builds the addon it loads |
| `PushTheorems.ToolingScriptIsSuppliedByBuildPass` | scripts/ci-dev-affected.ts:384-395 | pushing any other script does the same before the build pass, and the pass adds the producer |
| `PushTheorems.PushHasNoBuildKeys` | scripts/ci-dev-affected.ts:879-975 | no changed path makes the push planner use a key of the build pass |
| `PushTheorems.ResolvedKeysUnique` | scripts/ci-dev-affected.ts:384-395 | in either mode the resolved plan uses every key once |
| `ChangelogText.HeadingRoundTrip` | scripts/changelog-fragments.ts:31-31 | a printed section heading is read back exactly when it is not empty, and is never a release heading |
| `ChangelogText.StripMakesNoHeading` | scripts/changelog-fragments.ts:67-73 | dropping trailing blanks turns no line into a heading |
| `ChangelogSections.TrimBlankLinesLoop` | scripts/changelog-fragments.ts:67-73 | the two index loops find the trimmed middle |
| `ChangelogSections.TrimBlankLinesIs` | scripts/changelog-fragments.ts:67-73 | trimming finds the only middle with blank lines around it and none at its ends |
| `ChangelogSections.TrimKeepsNotes` | scripts/changelog-fragments.ts:67-73 | trimming loses no note |
| `ChangelogPrint.RenderBody` | scripts/changelog-fragments.ts:278-287 | building blocks of text, joining and splitting them gives the specified text for every body, and the specified lines when no line holds a line break |
| `ChangelogPrint.SplitKeepsEverything` | scripts/changelog-fragments.ts:260-276 | a split body holds exactly the notes and the headings of its lines, in order |
| `ChangelogPrint.PrintIsReadBack` | scripts/changelog-fragments.ts:260-287 | printing and splitting again gives the same preamble, headings and section contents, for non-blank headings |
| `ChangelogPrint.PrintIsStable` | scripts/changelog-fragments.ts:260-287 | splitting and re-printing a print gives the same lines if and only if no heading is blank |
| `ChangelogPrint.BlankHeadingIsUnstable` | scripts/changelog-fragments.ts:260-287 | the smallest body whose print changes when split and printed again |
| `ChangelogMerge.SplitIntoObjects` | scripts/changelog-fragments.ts:260-276 | the loop that pushes lines onto the current section object splits the body as specified |
| `ChangelogMerge.AddSection` | scripts/changelog-fragments.ts:297-309 | one fragment section is appended to the object its key finds, or becomes a new object; all others are untouched and the map still finds the last section of every key |
| `ChangelogMerge.MergeUnreleasedBody` | scripts/changelog-fragments.ts:289-312 | the whole merge through the map of objects computes the specified body |
| `ChangelogMerge.SortSorts` | scripts/changelog-fragments.ts:310-310 | introduced sections come out in ascending rank and none is lost |
| `ChangelogMerge.SortIsStable` | scripts/changelog-fragments.ts:310-310 | sections of equal rank keep their order |
| `ChangelogNotes.MergeKeepsNotes` | scripts/changelog-fragments.ts:289-312 | the notes of the merged body are the old body's and the fragments', as a multiset |
| `ChangelogNotes.MergeKeepsOrder` | scripts/changelog-fragments.ts:289-312 | under every key the old notes come first and the fragments' follow in order; the preamble is unchanged |
| `ChangelogNotes.MergeIntroducesOnce` | scripts/changelog-fragments.ts:289-312 | old sections keep their places, every key of a fragment is present, and each new key gets exactly one section, in rank order |
| `ChangelogFold.ParseFragment` | scripts/changelog-fragments.ts:76-114 | a fragment is accepted only if valid and then gives its sections; every error names what is wrong and where |
| `ChangelogFold.ErrorMeansInvalid` | scripts/changelog-fragments.ts:76-114 | a reported error means the lines are not a valid fragment |
| `ChangelogFold.ParsedIsGood` | scripts/changelog-fragments.ts:76-114 | no line of a parsed fragment opens a section or a release |
| `ChangelogFold.ParsedIsNamed` | scripts/changelog-fragments.ts:76-114 | every section of a parsed fragment has a non-blank heading |
| `ChangelogRegion.LocateFinds` | scripts/changelog-fragments.ts:239-253 | the unreleased region is unique and is the one found |
| `ChangelogRegion.LocateUnreleased` | scripts/changelog-fragments.ts:239-253 | the nested index loops find the region, or report that there is none |
| `ChangelogRegion.FoldFragmentsIntoChangelog` | scripts/changelog-fragments.ts:314-331 | joining, merging, printing and splicing compute the specified fold or error |
| `ChangelogRegion.FoldStaysInRegion` | scripts/changelog-fragments.ts:314-331 | every line outside the region is verbatim, and the region found afterwards is the printed merge |
| `ChangelogRegion.FoldKeepsNotes` | scripts/changelog-fragments.ts:289-331 | the notes of the region found in the folded file are the old region's and the fragments', if and only if there is nothing to fold or no old heading is blank |
| `ChangelogRegion.BlankHeadingGainsNote` | scripts/changelog-fragments.ts:289-331 | a changelog without notes and with one blank heading ends up, for any fragments, with notes that are not theirs |
| `ReleaseHistory.CollectReleaseHeadings` | scripts/changelog-history-guard.ts:58-68 | the loop collects the released versions in file order |
| `ReleaseHistory.GuardIsExact` | scripts/changelog-history-guard.ts:77-92 | the guard is silent exactly when every released version of the base is still there, and otherwise reports exactly the versions that are gone |
| `ReleaseHistory.FoldKeepsReleases` | scripts/changelog-fragments.ts:314-331 | folding leaves the list of released versions as it was |
| `ReleaseHistory.ReleasedChangelogContent` | scripts/release.ts:365-386 | the successive replacements compute the specified cut, or report a lost heading |
| `ReleaseHistory.CutAddsOneRelease` | scripts/release.ts:358-386 | on a well-formed changelog the cut succeeds, adds exactly the new version above all released ones, and leaves an unreleased heading |
| `ReleaseCut.CutAddsExactly` | scripts/release.ts:358-386 | on every changelog the cut accepts, it adds exactly the version to the releases if and only if the exact unreleased heading is there and, where notes are pending, begins a line |
| `ReleaseCut.CutRefusesExactly` | scripts/release.ts:365-386 | the cut refuses exactly when notes are pending, the header is not first and no second unreleased heading is left |
| `ReleaseCut.WideMarkIsMissed` | scripts/release.ts:365-386 | a heading with two spaces is found by the fold and left alone by the cut |
| `ReleaseHistory.FoldKeepsWellFormed` | scripts/changelog-fragments.ts:314-331 | folding a well-formed changelog gives a well-formed one |
| `ReleaseHistory.ReleaseKeepsHistory` | scripts/release.ts:365-386 | fold and cut together succeed, put the new version on top of the old ones, and the history guard is silent after each step and over both |
| `PosixPath.SegmentsOfPath` | scripts/safe-cleanup.ts:119-123 | segments are read back from the path they make |
| `PosixPath.AncestorTest` | scripts/safe-cleanup.ts:99-112 | exactly when the ancestor test on strings agrees with the segment-prefix test |
| `PosixPath.InsideTest` | scripts/safe-cleanup.ts:113-118 | exactly when the containment test on strings agrees with the proper-prefix test on segments |
| `PosixPath.UntrailedTests` | scripts/safe-cleanup.ts:98-139 | on every path without a trailing separator both string tests are the segment tests |
| `PosixPath.ResolvedTests` | scripts/safe-cleanup.ts:98-139 | so they are on resolved paths |
| `PosixPath.SeparatorFoolsTheTests` | scripts/safe-cleanup.ts:99-118 | `/a/b/` is not found at or above `/a/b`, and is found strictly inside it |
| `PosixPath.ListComponents` | scripts/safe-cleanup.ts:124-137 | the accumulating loop lists the specified components |
| `PosixPath.ComponentsCover` | scripts/safe-cleanup.ts:124-137 | every directory on the way down to the target, below the common ancestor, is listed |
| `DeletionVerdict.AssessDeletionTarget` | scripts/safe-cleanup.ts:156-323 | the decision with its home and ownership loops computes the specified verdict for all answers |
| `DeletionVerdict.RefusalsMean` | scripts/safe-cleanup.ts:174-206 | both rounds of checks pass exactly the paths that are two segments deep, neither at nor above a home (a home with a trailing separator added gets through), and no declared root written the same way |
| `DeletionVerdict.PassesIsAway` | scripts/safe-cleanup.ts:174-206 | a path that passes is away from all homes exactly unless it is a home with a trailing separator added, and is a declared root exactly when the two differ in a trailing separator |
| `DeletionVerdict.LexicalRefusalIsFinal` | scripts/safe-cleanup.ts:149-206 | a target refused for its text alone is refused with the same reason whatever the file system answers and whatever is granted |
| `DeletionVerdict.HomeReasonComesFirst` | scripts/safe-cleanup.ts:178-191 | a target at or above a home is refused for that reason, even where it is shallow or a declared root too |
| `DeletionVerdict.ApprovedIsSafe` | scripts/safe-cleanup.ts:156-323 | whatever was answered and granted, an approved target is two segments deep and away from all homes as written; so is its real path, if and only if that is no home with a trailing separator added |
| `DeletionVerdict.SeparatorReachesHome` | scripts/safe-cleanup.ts:156-323 | a real-path answer that is a home with a trailing separator is approved for deletion |
| `DeletionVerdict.ApprovalIsExact` | scripts/safe-cleanup.ts:156-323 | without grants, approval is equivalent to: absolute, passing the checks, and either gone and inside an allowed root, or present with a real path that passes them too, is inside one and owned |
| `DeletionVerdict.ApprovedIsInside` | scripts/safe-cleanup.ts:277-323 | without grants the canonical target lies in an allowed root, and strictly so if and only if it is not that root with a trailing separator added |
| `DeletionVerdict.ApprovedIsOwned` | scripts/safe-cleanup.ts:297-312 | an approved path that exists was asked about, and found owned by the process, at every level below its root |
| `DeletionVerdict.ApprovedIsPermitted` | scripts/safe-cleanup.ts:277-323 | nothing is approved that no allowed root contains and no granted root covers |
| `DeletionVerdict.GrantRegistry.Register` | scripts/safe-cleanup.ts:459-479 | a grant is made exactly for absolute, not yet existing paths that are no home and contain none; otherwise nothing changes |
| `DeletionVerdict.GrantRegistry.Forget` | scripts/safe-cleanup.ts:476-478 | the disposer removes that grant and no other |
| `DeletionVerdict.GrantReachesNoHome` | scripts/safe-cleanup.ts:481-492 | no registered grant covers a home |
| `ChunkedSearch.ReadChunk` | scripts/dev-link.ts:207-232 | after one read behind the overlap the buffer holds a contiguous piece of the file |
| `ChunkedSearch.MoveTail` | scripts/dev-link.ts:222-224 | the end of the buffer moves to its front in place |
| `ChunkedSearch.FileContainsBytes` | scripts/dev-link.ts:207-232 | for every pattern of short reads, the search is true exactly when the needle occurs in the unchanged file; for a file that changed size, a reported match is real and none within the reported size is missed |
| `ChunkedSearch.ReadBoundedFile` | scripts/dev-link.ts:184-205 | the bytes are returned exactly when the reported size is in bounds and is what the file still holds |
| `TestPool.ShardIs` | scripts/run-bun-test-files.ts:146-149 | a shard is every total-th file from its own first one, in order, and nothing else |
| `TestPool.ShardsCover` | scripts/run-bun-test-files.ts:146-149 | every file is in the shard and at the place its index names |
| `TestPool.ShardsAreDisjoint` | scripts/run-bun-test-files.ts:146-149 | a file has only one place in only one shard |
| `TestPool.ShardsAreEven` | scripts/run-bun-test-files.ts:146-149 | shard sizes differ by at most one |
| `TestPool.StepKeepsInvariant` | scripts/run-bun-test-files.ts:375-415 | every move of every worker keeps claims, runners and outcomes consistent |
| `TestPool.NoFileRunsTwice` | scripts/run-bun-test-files.ts:375-415 | at every moment of every interleaving no file was claimed twice, no two workers share one, and there are at most as many workers as allowed |
| `TestPool.FinishedRanEverything` | scripts/run-bun-test-files.ts:375-415 | when all workers returned, every file was claimed once and has its outcome |
| `TestPool.ZeroMeansAllClean` | scripts/run-bun-test-files.ts:415-431 | the harness returns 0 exactly when every file's process ended cleanly |
| `TestPool.EveryRunEnds` | scripts/run-bun-test-files.ts:375-415 | no interleaving takes more than two moves for a file and one for a worker |
| `TestPool.StuckMeansOver` | scripts/run-bun-test-files.ts:375-415 | an interleaving that cannot go on has every worker returned or rejected |
| `BrokerRestart.CloseSessionHosts` | scripts/restart-sdk-broker-core.ts:83-99 | every listed host is attempted once in order, whatever the earlier ones answered |
| `BrokerRestart.HostsAreSplit` | scripts/restart-sdk-broker-core.ts:83-99 | closed and unclosed hosts are the listed ones at two increasing sequences of places, those whose close succeeded and those whose close failed, which together are all places |
| `BrokerRestart.EachHostIsAttemptedOnce` | scripts/restart-sdk-broker-core.ts:107-154 | in every run with a valid timeout the close calls are one for every listed host, in listing order |
| `BrokerRestart.ReportFollowsCalls` | scripts/restart-sdk-broker-core.ts:107-154 | a successful restart reports its own close calls: the hosts closed and not closed are those of the calls that succeeded and failed, each in calling order |
| `BrokerRestart.HostsAreConserved` | scripts/restart-sdk-broker-core.ts:83-99 | closed and unclosed hosts together are the listed hosts |
| `BrokerRestart.StopPreviousBroker` | scripts/restart-sdk-broker-core.ts:53-71 | stopping makes exactly the specified calls and throws exactly as specified |
| `BrokerRestart.WaitForRetirement` | scripts/restart-sdk-broker-core.ts:131-136 | the polling loop makes exactly the specified calls for every clock |
| `BrokerRestart.RestartSdkBroker` | scripts/restart-sdk-broker-core.ts:107-154 | the whole restart makes exactly the specified calls and returns the specified result or failure |
| `BrokerRestart.ReplacementFollowsRetirement` | scripts/restart-sdk-broker-core.ts:107-154 | a replacement is requested last and, after a previous broker, only right after a discovery read that no longer shows its identity |
| `BrokerRestart.SuccessIsANewIdentity` | scripts/restart-sdk-broker-core.ts:143-154 | a successful return never carries the previous identity |
| `BrokerRestart.SuccessReportsHosts` | scripts/restart-sdk-broker-core.ts:117-130 | a successful restart reports every listed host, closed or unclosed, and reports none unclosed exactly when every close succeeded |
| `BrokerRestart.FailureIsForgivenOnlyIfGone` | scripts/restart-sdk-broker-core.ts:53-71 | in every run a shutdown failure other than an unknown operation is followed by a discovery read; only if that shows the identity gone does anything follow, and if it still shows it the failure is thrown |
| `BrokerRestart.PollWaitsWhileShown` | scripts/restart-sdk-broker-core.ts:131-136 | polling sleeps only after a read that still shows the previous identity |

## Left out

- Hashing, gzip and canonical JSON: foreign code; the archive theorems are about the uncompressed bytes, so the compressed-size limit is not modelled either.
- Calls to git, npm, gh and cargo, network traffic, environment variables and console output: only the answers of registry, discovery and file system are modelled, as arbitrary inputs.
- The configuration checks before publishing and the evidence field validators: each is settled by one branch.
- Two exits of resolvePlannedTasks: the full plan in force-full mode and a canonical plan read from an artifact.
- Commands, descriptions and working directories of planned tasks: the planner is modelled by its keys, and the order of tasks in a plan is not stated.
- Orders by locale (localeCompare) of build units and selected packages.
- How build units are selected and their identities encoded: `BuildPass.AppendBuildTasks` takes the selected units and the encoded pairs as inputs, and uniqueness of keys is stated for distinct pairs.
- Repository paths with empty segments: base name and directory are modelled for paths as git reports them.
- Windows paths in the deletion verdict, and case folding beyond the letters A to Z there; real-path answers, home aliases and allowed roots are taken to be absolute, as their interface says.
- `$` patterns in replacement strings: the version and date of a release heading contain none.
- Lower-casing of section headings: any function serves, so the merge theorems hold for the platform's own.
- Process groups, signals and sandbox directories of the test harness: a sandbox that cannot be set up or removed is a rejected worker.
- Sleeping and rejected sleeps in the broker restart: a sleep is one recorded call, and the polling clock is a finite list of readings.
- CLI parsing, scanners, generators, release notes and finalization tables: they would only add easy members.
