# jdeps wall of shame — a Dafny model of its core

The jdeps wall of shame is a batch tool for Java 9 readiness. It discovers
Maven projects and their versions, downloads each artifact, runs `jdeps` on
it, and looks for dependencies on JDK-internal APIs. Each finished artifact
gets a marker: its own internal dependencies combined with those of all its
dependees. The tool persists its progress as YAML, writes one line per
artifact into a result file, and renders HTML "bricks" that are committed
into a "wall of shame" Git directory.

This project models that core in Dafny, with one file per part of the
program:

- `markers.dfy`: the marker lattice (`InternalDependencies`,
  `MarkTransitiveInternalDependencies`) and how markers combine.
- `tasks.dfy`: the state machine of an analysis task (not computed, queued,
  started, failed, succeeded) and the mutable `Task`.
- `coordinates.dfy`: artifact and project coordinates, their comparators
  and `toString`, and failed artifacts and projects.
- `artifacts.dfy`: the values that carry an artifact from one analysis step
  to the next (resolved, downloaded, analyzed, deeply analyzed).
- `completed_artifact.dfy`: `CompletedArtifact` and its builder.
- `violations.dfy`: `Violation`, its builder, ordering and line format.
- `channels.dfy`: the simple, replaying and spying task channels.
- `persistence_channels.dfy`: the channels that replay persisted results and
  record new ones.
- `persistence.dfy`, `yaml_persistence.dfy`: the persistent DTOs, their
  round trips, and the sorted-set store behind `YamlAnalysisPersistence`.
- `analysis.dfy`, `task_manager.dfy`, `graph.dfy`: the analysis
  bookkeeping, the task manager that moves artifacts through resolution,
  download, analysis and completion, and the analysis graph.
- `result_lines.dfy`, `result_file.dfy`: the line format of the result file,
  reading preliminary artifacts, finalizing them recursively, and writing.
- `formats.dfy`, `brick.dfy`, `wall.dfy`, `wall_of_shame.dfy`: HTML
  rendering of bricks, the wall of four bricks, and commit messages.
- `project_list_file.dfy`: the project list file.
- `strings.dfy`, `sorted_sets.dfy`, `wrappers.dfy`: support (Java's
  `String.split`, trimming, joining; sets ordered by a comparator;
  `Option` and `Result`).

Immutable Java values become datatypes, and their methods become functions
with lemmas. Objects whose fields are updated in place become classes, such
as `Task`, the simple channel, the builders, the graph, the task manager,
the persistence store, the result file and the bricks. Collections become
`seq`, `set` and `map` fields. A file on disk is its sequence of lines.
Exceptions become the `Err` case of a `Result`.

## Model

| member | source | states |
|---|---|---|
| Markers.FromOwn | src/main/java/org/codefx/jwos/artifact/MarkTransitiveInternalDependencies.java:35-46 | `from` maps UNKNOWN, NONE and DIRECT to the transitive marker of the same name, and only that one |
| Markers.CombineDependeesIsMax | src/main/java/org/codefx/jwos/artifact/MarkTransitiveInternalDependencies.java:68-77 | combining two dependee markers keeps the higher one in the priority NONE < UNKNOWN < INDIRECT < DIRECT; the combination is commutative and associative, with NONE as its identity |
| Markers.ReduceDependeesIsMax | src/main/java/org/codefx/jwos/artifact/MarkTransitiveInternalDependencies.java:61-77 | reducing the dependee markers from a start value gives DIRECT iff one of them (or the start) is DIRECT, otherwise INDIRECT iff one is INDIRECT, otherwise UNKNOWN iff one is UNKNOWN |
| Markers.ReduceDependeesOrderIndependent | src/main/java/org/codefx/jwos/artifact/MarkTransitiveInternalDependencies.java:61-66 | the reduction from NONE depends only on the multiset of dependee markers, not on the stream order |
| Markers.FromDependeesUnresolved | src/main/java/org/codefx/jwos/artifact/MarkTransitiveInternalDependencies.java:121-132 | when dependee resolution failed, the result is DIRECT for an own DIRECT and UNKNOWN for an own UNKNOWN or NONE |
| Markers.FromDependeesNoDependees | src/main/java/org/codefx/jwos/artifact/MarkTransitiveInternalDependencies.java:53-66 | resolved but empty dependees give `from(marker)` |
| Markers.FromDependeesDirectIffOwnDirect | src/main/java/org/codefx/jwos/artifact/MarkTransitiveInternalDependencies.java:79-132 | the transitive marker is DIRECT iff the artifact's own marker is DIRECT, whatever the dependees are |
| Markers.OwnNoneResolved | src/main/java/org/codefx/jwos/artifact/MarkTransitiveInternalDependencies.java:99-112 | own NONE with resolved dependees: NONE iff every dependee is NONE, INDIRECT iff one is INDIRECT or DIRECT, UNKNOWN iff one is UNKNOWN and none is INDIRECT or DIRECT |
| Markers.OwnUnknownResolved | src/main/java/org/codefx/jwos/artifact/MarkTransitiveInternalDependencies.java:82-98 | own UNKNOWN with resolved dependees: INDIRECT iff one dependee is INDIRECT or DIRECT, UNKNOWN otherwise |
| Markers.CombineWithDependeeMonotone | src/main/java/org/codefx/jwos/analysis/InternalDependencies.java:9-22 | `combineWithDependee` never lowers the receiver in NONE < INDIRECT < DIRECT, gives DIRECT iff the receiver is DIRECT, returns an INDIRECT or DIRECT receiver unchanged, and from NONE gives NONE iff the dependee is NONE |
| Markers.FoldWithDependeesResult | src/main/java/org/codefx/jwos/artifact/InternalDependencies.java:9-22 | folding `combineWithDependee` from NONE gives NONE if all dependees are NONE and INDIRECT otherwise (never DIRECT); from DIRECT or INDIRECT the fold keeps the start value |
| Tasks.FinishedStates | src/main/java/org/codefx/jwos/analysis/task/TaskStateIdentifier.java:13-25 | `isFinished` holds exactly for the FAILED and SUCCEEDED states |
| Tasks.QueueOnlyFromNotComputedOrFinished | src/main/java/org/codefx/jwos/analysis/task/Queued.java:10-13 | `queued` succeeds, giving QUEUED, exactly from NOT_COMPUTED, FAILED and SUCCEEDED; from QUEUED and STARTED it throws IllegalStateException |
| Tasks.StartOnlyFromNotComputedOrQueued | src/main/java/org/codefx/jwos/analysis/task/Started.java:15-18 | `started` succeeds, giving STARTED, exactly from NOT_COMPUTED and QUEUED |
| Tasks.FinishOnlyFromNotComputedOrStarted | src/main/java/org/codefx/jwos/analysis/task/Started.java:20-28 | `failed(e)` and `succeeded(r)` succeed exactly from NOT_COMPUTED and STARTED, giving FAILED holding `e` and SUCCEEDED holding `r` |
| Tasks.NotComputedNeverThrows | src/main/java/org/codefx/jwos/analysis/task/NotComputed.java:10-28 | every transition out of NOT_COMPUTED succeeds |
| Tasks.RequeueOnlyAfterFinishing | src/main/java/org/codefx/jwos/analysis/task/Failed.java:22-41 | in any run of transitions that succeeds from QUEUED or STARTED and requeues, a fail or succeed event comes first |
| Tasks.Task.constructor | src/main/java/org/codefx/jwos/analysis/task/Task.java:13-15 | a new task is NOT_COMPUTED |
| Tasks.Task.MarkQueued | src/main/java/org/codefx/jwos/analysis/task/Task.java:20-22 | `queued` moves the state by the state's own transition, and leaves it unchanged when the transition throws |
| Tasks.Task.MarkStarted | src/main/java/org/codefx/jwos/analysis/task/Task.java:24-26 | `started`: the same for the start transition |
| Tasks.Task.MarkFailed | src/main/java/org/codefx/jwos/analysis/task/Task.java:28-30 | `failed`: the state becomes FAILED with the exception when allowed, and is unchanged otherwise |
| Tasks.Task.MarkSucceeded | src/main/java/org/codefx/jwos/analysis/task/Task.java:32-34 | `succeeded`: the state becomes SUCCEEDED with the result when allowed, and is unchanged otherwise |
| Tasks.Task.Error | src/main/java/org/codefx/jwos/analysis/task/Task.java:36-40 | `error` returns the failure's exception exactly when the task failed, and throws IllegalStateException otherwise |
| Tasks.Task.Value | src/main/java/org/codefx/jwos/analysis/task/Task.java:42-46 | `result` returns the value exactly when the task succeeded, and throws IllegalStateException otherwise |
| Coordinates.ArtifactStringShape | src/main/java/org/codefx/jwos/maven/ArtifactCoordinates.java:68-71 | an artifact's `toString` is its group, artifact and version joined by ':' |
| Coordinates.ArtifactOrderByFields | src/main/java/org/codefx/jwos/artifact/IdentifiesArtifact.java:9-14 | the artifact comparator answers `String.compareTo` (on UTF-16 code units) of the group ids when they differ, otherwise of the artifact ids when they differ, otherwise of the versions |
| Coordinates.ProjectOrderByFields | src/main/java/org/codefx/jwos/artifact/IdentifiesProject.java:9-13 | the project comparator answers `String.compareTo` (on UTF-16 code units) of the group ids when they differ, otherwise of the artifact ids |
| Coordinates.ArtifactOrderZeroIffEqual | src/main/java/org/codefx/jwos/maven/ArtifactCoordinates.java:51-61 | the artifact comparator answers 0 exactly for coordinates that `equals` accepts, so a sorted set keyed by it keeps one entry per coordinates |
| Coordinates.ProjectOrderZeroIffEqual | src/main/java/org/codefx/jwos/artifact/ProjectCoordinates.java:41-50 | the project comparator answers 0 exactly for equal project coordinates |
| Coordinates.ArtifactOrderTotal | src/main/java/org/codefx/jwos/artifact/IdentifiesArtifact.java:9-14 | the artifact comparator is antisymmetric and transitive |
| Coordinates.ProjectOrderTotal | src/main/java/org/codefx/jwos/artifact/IdentifiesProject.java:9-13 | the project comparator is antisymmetric and transitive |
| Coordinates.ToArtifactsWithVersions | src/main/java/org/codefx/jwos/artifact/ProjectCoordinates.java:27-31 | one artifact per given version, in the given order, each with the project's group and artifact id and that version |
| Coordinates.FailedArtifactEquality | src/main/java/org/codefx/jwos/artifact/FailedArtifact.java:34-41 | failed-artifact equality is an equivalence that holds exactly for the same coordinates and the same error message, so an exception's class does not matter |
| Coordinates.FailedProjectEquality | src/main/java/org/codefx/jwos/artifact/FailedProject.java:34-41 | the same for failed projects |
| ProjectLists.FirstBlank | src/main/java/org/codefx/jwos/discovery/ProjectListFile.java:42-46 | the index of the first line that is empty after trimming, with no such line before it; none exactly when every line is non-blank |
| ProjectLists.FastForwardPastComments | src/main/java/org/codefx/jwos/discovery/ProjectListFile.java:42-46 | the loop consumes every line up to and including the first blank one, or every line when there is none |
| ProjectLists.AfterCommentsOfLayout | src/main/java/org/codefx/jwos/discovery/ProjectListFile.java:13-24 | a file of non-blank comment lines, one blank line and project lines leaves exactly the project lines to read |
| ProjectLists.NoBlankLineNoProjects | src/main/java/org/codefx/jwos/discovery/ProjectListFile.java:42-46 | without a blank line every line is consumed and no project is ever read |
| ProjectLists.ReadLine | src/main/java/org/codefx/jwos/discovery/ProjectListFile.java:55-58 | a line parses iff its ':'-split has at least two pieces, and otherwise fails with an index error; the parsed ids contain no ':' |
| ProjectLists.ReadLineOfProjectString | src/main/java/org/codefx/jwos/discovery/ProjectListFile.java:55-58 | a project written as "groupId:artifactId" (no ':' inside, non-empty artifact id) reads back as that project |
| ProjectLists.ReadLineIgnoresExtraPieces | src/main/java/org/codefx/jwos/discovery/ProjectListFile.java:55-58 | pieces after the second are ignored |
| ProjectLists.ReadLineRejectsSinglePiece | src/main/java/org/codefx/jwos/discovery/ProjectListFile.java:55-58 | a line without ':' fails with an index error |
| ProjectLists.ProjectListFile.constructor | src/main/java/org/codefx/jwos/discovery/ProjectListFile.java:30-34 | a new list file is not opened yet |
| ProjectLists.ProjectListFile.Open | src/main/java/org/codefx/jwos/discovery/ProjectListFile.java:36-40 | `open` leaves the iterator just past the comments and the blank line |
| ProjectLists.ProjectListFile.ReadNextProject | src/main/java/org/codefx/jwos/discovery/ProjectListFile.java:48-53 | before `open` a NullPointerException; with lines left, the next line is consumed and parsed (its failure is thrown); with none left, empty, and the state stays so |
| CompletedArtifacts.DetermineMarker | src/main/java/org/codefx/jwos/artifact/CompletedArtifact.java:36-40 | the own marker is UNKNOWN iff the violation analysis failed, NONE iff it found no violation, DIRECT iff it found some |
| CompletedArtifacts.ExtractMarkers | src/main/java/org/codefx/jwos/artifact/CompletedArtifact.java:42-47 | no markers iff dependee resolution failed; otherwise the dependees' transitive markers, in order |
| CompletedArtifacts.CompleteMarker | src/main/java/org/codefx/jwos/artifact/CompletedArtifact.java:26-34 | a completed artifact is DIRECT iff it has violations itself; NONE iff it has none and every resolved dependee is NONE; UNKNOWN when resolution failed and it is not DIRECT |
| CompletedArtifacts.EqualReflexive | src/main/java/org/codefx/jwos/artifact/CompletedArtifact.java:74-83 | `equals` is reflexive, including through the nested dependees |
| CompletedArtifacts.EqualityIgnoresViolations | src/main/java/org/codefx/jwos/artifact/CompletedArtifact.java:74-83 | two completed artifacts with the same coordinates and dependees are equal, whatever their violations |
| CompletedArtifacts.EqualArtifactsMayDifferInMarker | src/main/java/org/codefx/jwos/artifact/CompletedArtifact.java:74-83 | two equal completed artifacts can have different transitive markers (NONE and DIRECT) |
| CompletedArtifacts.CompletedArtifactBuilder.constructor | src/main/java/org/codefx/jwos/artifact/CompletedArtifact.java:135-137 | a new builder has coordinates and neither violations nor dependees |
| CompletedArtifacts.CompletedArtifactBuilder.WithViolations | src/main/java/org/codefx/jwos/artifact/CompletedArtifact.java:139-144 | sets the violations when neither they nor an analysis error were set, and otherwise throws IllegalStateException and changes nothing; the dependees are untouched |
| CompletedArtifacts.CompletedArtifactBuilder.ViolationAnalysisFailedWith | src/main/java/org/codefx/jwos/artifact/CompletedArtifact.java:146-153 | the same for an analysis error |
| CompletedArtifacts.CompletedArtifactBuilder.WithDependees | src/main/java/org/codefx/jwos/artifact/CompletedArtifact.java:155-160 | sets the dependees when neither they nor a resolution error were set, and otherwise throws IllegalStateException and changes nothing; the violations are untouched |
| CompletedArtifacts.CompletedArtifactBuilder.DependeeResolutionFailedWith | src/main/java/org/codefx/jwos/artifact/CompletedArtifact.java:162-169 | the same for a resolution error |
| CompletedArtifacts.CompletedArtifactBuilder.Build | src/main/java/org/codefx/jwos/artifact/CompletedArtifact.java:171-177 | builds iff both halves were set (IllegalStateException otherwise); the artifact holds them and its marker is `fromDependees(determineMarker, extractMarkers)` |
| Violations.CompareTypesTotal | src/main/java/org/codefx/jwos/jdeps/dependency/Violation.java:42-51 | the natural order of types used for sorting is a total order: 0 exactly for equal types, antisymmetric, transitive |
| Violations.InsertSpec | src/main/java/org/codefx/jwos/jdeps/dependency/Violation.java:42-51 | inserting into an ordered list keeps it ordered and adds exactly the one element |
| Violations.SortSpec | src/main/java/org/codefx/jwos/jdeps/dependency/Violation.java:42-51 | the sorted copy is ordered and a permutation of the input |
| Violations.OrderedUnique | src/main/java/org/codefx/jwos/jdeps/dependency/Violation.java:42-51 | two ordered lists with the same elements are the same list, so an already ordered input is what sorting gives |
| Violations.BuildFor | src/main/java/org/codefx/jwos/jdeps/dependency/Violation.java:32-40 | IllegalArgumentException exactly for an empty dependency collection; otherwise a violation of that dependent whose sorted list is a permutation of the input |
| Violations.BuildForOrderIrrelevant | src/main/java/org/codefx/jwos/jdeps/dependency/Violation.java:42-68 | building from any permutation of the same dependencies gives the same violation, and an ordered input is kept as given |
| Violations.CompareTypeListsZero | src/main/java/org/codefx/jwos/jdeps/dependency/Violation.java:107-116 | the element-wise comparison of dependency lists is 0 exactly for equal lists and antisymmetric |
| Violations.CompareTypeListsPrefix | src/main/java/org/codefx/jwos/jdeps/dependency/Violation.java:115-116 | a proper prefix compares smaller |
| Violations.CompareViolationsConsistent | src/main/java/org/codefx/jwos/jdeps/dependency/Violation.java:98-131 | `compareTo` answers 0 exactly for violations that `equals` accepts, is antisymmetric, and decides by the dependent when the dependents differ |
| Violations.ViolationString | src/main/java/org/codefx/jwos/jdeps/dependency/Violation.java:138-145 | `toString` starts with the dependent's name and " -> {" and ends with '}' |
| Violations.ToLines | src/main/java/org/codefx/jwos/jdeps/dependency/Violation.java:162-169 | one line for the dependent with the prefix, then one line per internal dependency in sorted order with both prefixes |
| Violations.DefaultLines | src/main/java/org/codefx/jwos/jdeps/dependency/Violation.java:150-152 | `toLines()` uses four spaces and "     -> " as the prefixes |
| Violations.ViolationBuilder.constructor | src/main/java/org/codefx/jwos/jdeps/dependency/Violation.java:184-187 | a new builder holds the dependent and no dependency |
| Violations.ViolationBuilder.AddDependency | src/main/java/org/codefx/jwos/jdeps/dependency/Violation.java:197-202 | appends the dependency |
| Violations.ViolationBuilder.AddDependencies | src/main/java/org/codefx/jwos/jdeps/dependency/Violation.java:212-232 | appends the dependencies in the given order |
| Violations.ViolationBuilder.Build | src/main/java/org/codefx/jwos/jdeps/dependency/Violation.java:240-248 | IllegalStateException exactly when no dependency was added; otherwise a violation of the dependent holding a sorted permutation of the added dependencies |
| Strings.Utf16Injective | src/main/java/org/codefx/jwos/artifact/IdentifiesArtifact.java:9-14 | the UTF-16 code units that `String.compareTo` compares determine the string: two strings with the same units are equal |
| Strings.CompareStringsZero | src/main/java/org/codefx/jwos/artifact/IdentifiesArtifact.java:9-14 | `String.compareTo`, on UTF-16 code units, is 0 exactly for equal strings |
| Strings.CompareStringsAntisymmetric | src/main/java/org/codefx/jwos/artifact/IdentifiesArtifact.java:9-14 | `String.compareTo` is antisymmetric |
| Strings.CompareStringsTransitive | src/main/java/org/codefx/jwos/artifact/IdentifiesArtifact.java:9-14 | `String.compareTo` is transitive |
| Strings.SupplementaryBeforeHighBmp | src/main/java/org/codefx/jwos/artifact/IdentifiesArtifact.java:9-14 | the order is that of the UTF-16 code units: U+10000, a surrogate pair, sorts before U+FFFF although its scalar value is larger |
| Strings.CompareFieldsZero | src/main/java/org/codefx/jwos/artifact/IdentifiesArtifact.java:9-14 | a `comparing(...).thenComparing(...)` chain of `String.compareTo` over key fields is 0 exactly for equal key lists |
| Strings.CompareFieldsAntisymmetric | src/main/java/org/codefx/jwos/artifact/IdentifiesArtifact.java:9-14 | the chained comparator is antisymmetric |
| Strings.CompareFieldsTransitive | src/main/java/org/codefx/jwos/artifact/IdentifiesArtifact.java:9-14 | the chained comparator is transitive |
| Strings.JavaSplitJoin | src/main/java/org/codefx/jwos/file/persistence/PersistentArtifactCoordinates.java:17-22 | `split` on a character undoes joining pieces that do not contain it, unless the last piece is empty |
| Strings.JavaSplitJoinDropsEmptyLast | src/main/java/org/codefx/jwos/file/persistence/PersistentArtifactCoordinates.java:17-22 | `split` drops a trailing empty piece, so fewer pieces come back |
| SortedSets.AddSpec | src/main/java/org/codefx/jwos/file/YamlAnalysisPersistence.java:186-234 | `add` on a sorted set keeps it strictly sorted and adds the element's key; an element whose key is present leaves the set as it was, another is added exactly once |
| SortedSets.AddAllSpec | src/main/java/org/codefx/jwos/file/YamlAnalysisPersistence.java:113-117 | adding many elements keeps the set sorted and its keys are the old keys and the added ones |
| SortedSets.AddAllAscending | src/main/java/org/codefx/jwos/file/YamlAnalysisPersistence.java:113-117 | adding elements that are already in ascending order after the set's own appends them as they are |
| SortedSets.SortedSameElements | src/main/java/org/codefx/jwos/file/YamlAnalysisPersistence.java:46-66 | two sorted sets with the same elements are the same sequence, so a sorted set's iteration order is determined by its contents |
| Persistence.ArtifactFrom | src/main/java/org/codefx/jwos/file/persistence/PersistentArtifactCoordinates.java:11-15 | the stored text is the artifact's `toString`, "group:artifact:version" |
| Persistence.ToArtifact | src/main/java/org/codefx/jwos/file/persistence/PersistentArtifactCoordinates.java:17-22 | the text is accepted iff its ':'-split has exactly three pieces (IllegalArgumentException otherwise); accepted coordinates contain no ':' and have a non-empty version |
| Persistence.ProjectFrom | src/main/java/org/codefx/jwos/file/persistence/PersistentProjectCoordinates.java:11-15 | the stored text is "group:artifact" |
| Persistence.ToProject | src/main/java/org/codefx/jwos/file/persistence/PersistentProjectCoordinates.java:17-22 | the text is accepted iff its ':'-split has exactly two pieces (IllegalArgumentException otherwise) |
| Persistence.ArtifactRoundTrip | src/main/java/org/codefx/jwos/file/persistence/PersistentArtifactCoordinates.java:11-22 | writing then reading gives the coordinates back when no field contains ':' and the version is not empty |
| Persistence.ArtifactEmptyVersionRejected | src/main/java/org/codefx/jwos/file/persistence/PersistentArtifactCoordinates.java:17-22 | an artifact with an empty version is written but cannot be read back (IllegalArgumentException) |
| Persistence.ProjectRoundTrip | src/main/java/org/codefx/jwos/file/persistence/PersistentProjectCoordinates.java:11-22 | writing then reading gives the project back when no field contains ':' and the artifact id is not empty |
| Persistence.CodecsRejectEachOther | src/main/java/org/codefx/jwos/file/persistence/PersistentProjectCoordinates.java:19-20 | a written artifact is rejected as a project and a written project is rejected as an artifact |
| Persistence.FailedArtifactRoundTrip | src/main/java/org/codefx/jwos/file/persistence/PersistentFailedArtifact.java:10-22 | a failed artifact reloads equal to the saved one under `FailedArtifact.equals`, with a new plain `Exception` |
| Persistence.FailedProjectRoundTrip | src/main/java/org/codefx/jwos/file/persistence/PersistentFailedProject.java:10-22 | the same for failed projects |
| Persistence.ToFailedRejectsMalformed | src/main/java/org/codefx/jwos/file/persistence/PersistentFailedArtifact.java:17-22 | malformed coordinates fail the whole failed-artifact or failed-project record |
| Persistence.ResolvedArtifactRoundTrip | src/main/java/org/codefx/jwos/file/persistence/PersistentResolvedArtifact.java:15-27 | a resolved artifact reloads with its coordinates and every dependee, in order |
| Persistence.ResolvedArtifactRejectsMalformed | src/main/java/org/codefx/jwos/file/persistence/PersistentResolvedArtifact.java:22-27 | one malformed dependee text fails the whole record |
| Persistence.MessageCorrected | src/main/java/org/codefx/jwos/file/persistence/PersistentCompletedArtifact.java:30-35 | the message the corrected `from` stores is always present and is the exception's message when it has one |
| Persistence.Encode | src/main/java/org/codefx/jwos/file/persistence/PersistentCompletedArtifact.java:26-39 | a violation list is stored iff the analysis succeeded, a dependee list iff resolution succeeded, a message only where no list is stored, and the marker is recorded |
| Persistence.FromCompleted | src/main/java/org/codefx/jwos/file/persistence/PersistentCompletedArtifact.java:26-39 | corrected `from`: each half stores exactly one of its message and its list |
| Persistence.ToCompleted | src/main/java/org/codefx/jwos/file/persistence/PersistentCompletedArtifact.java:41-52 | a half is loaded as failed iff its message is present; malformed coordinates fail the load |
| Persistence.ToDependees | src/main/java/org/codefx/jwos/file/persistence/PersistentCompletedArtifact.java:47-50 | the dependees are loaded as a resolution failure iff the resolution message is present |
| Persistence.StoredMarkerIgnored | src/main/java/org/codefx/jwos/file/persistence/PersistentCompletedArtifact.java:41-52 | the stored marker plays no part in loading: the builder recomputes it |
| Persistence.RestoredKeeps | src/main/java/org/codefx/jwos/file/persistence/PersistentCompletedArtifact.java:26-52 | what a reload gives keeps the coordinates, the marker, whether each half succeeded, the violations, every message that was present, and the dependees one by one |
| Persistence.CompletedRoundTrip | src/main/java/org/codefx/jwos/file/persistence/PersistentCompletedArtifact.java:26-52 | saving with the corrected `from` and loading gives that restored artifact back for every well-formed, codec-safe completed artifact |
| Persistence.DependeesRoundTrip | src/main/java/org/codefx/jwos/file/persistence/PersistentCompletedArtifact.java:37-48 | the dependee half of the round trip, recursively |
| Persistence.AsWrittenAgreesWithMessages | src/main/java/org/codefx/jwos/file/persistence/PersistentCompletedArtifact.java:30-35 | where every failure has a message, `from` as written stores exactly what the corrected one stores |
| Persistence.AsWrittenLosesMessagelessFailure | src/main/java/org/codefx/jwos/file/persistence/PersistentCompletedArtifact.java:30-46 | as written, an analysis failure without a message is saved with neither message nor list and reloads as an analysis without violations: UNKNOWN becomes NONE |
| Persistence.CorrectedKeepsMessagelessFailure | src/main/java/org/codefx/jwos/file/persistence/PersistentCompletedArtifact.java:30-46 | the corrected `from` keeps that failure and its UNKNOWN marker |
| YamlPersistence.Persist | src/main/java/org/codefx/jwos/file/YamlAnalysisPersistence.java:124-137 | `toPersistentAnalysis` gives one list per set, each as long as its set; that each list keeps its set's order and contents is the round trip `YamlPersistence.PersistRoundTrip` |
| YamlPersistence.AddTo | src/main/java/org/codefx/jwos/file/YamlAnalysisPersistence.java:113-117 | `addTo` converts the source entries in turn and adds each to the target set; the first conversion that throws ends it with that exception |
| YamlPersistence.LoadIntoEmpty | src/main/java/org/codefx/jwos/file/YamlAnalysisPersistence.java:113-117 | loading into an empty set gives an ordered set whose coordinates are exactly those of the converted entries |
| YamlPersistence.LoadStoreOrdered | src/main/java/org/codefx/jwos/file/YamlAnalysisPersistence.java:95-111 | every set that `from` fills is ordered by its comparator |
| YamlPersistence.LoadSortedList | src/main/java/org/codefx/jwos/file/YamlAnalysisPersistence.java:113-117 | a sorted list written entry by entry, whose entries read back as the restored entries with the same coordinates, loads back as the restored list in the same order |
| YamlPersistence.LoadSortedUnconverted | src/main/java/org/codefx/jwos/file/YamlAnalysisPersistence.java:113-117 | a sorted list that needs no conversion loads back as itself |
| YamlPersistence.PersistRoundTrip | src/main/java/org/codefx/jwos/file/YamlAnalysisPersistence.java:95-137 | writing an ordered, codec-safe store and loading it back gives every set back in the same order, failures re-created from their messages |
| YamlPersistence.ProjectSetsRoundTrip | src/main/java/org/codefx/jwos/file/YamlAnalysisPersistence.java:97-99 | the round trip of the three project sets |
| YamlPersistence.DownloadAndAnalysisSetsRoundTrip | src/main/java/org/codefx/jwos/file/YamlAnalysisPersistence.java:100-103 | the round trip of the download and analysis sets |
| YamlPersistence.ResolutionAndResultSetsRoundTrip | src/main/java/org/codefx/jwos/file/YamlAnalysisPersistence.java:104-108 | the round trip of the artifact resolution sets and the completed artifacts |
| YamlPersistence.FailedArtifactsRoundTrip | src/main/java/org/codefx/jwos/file/YamlAnalysisPersistence.java:101-105 | a sorted set of failed artifacts loads back as the same failures with plain exceptions carrying the messages |
| YamlPersistence.MergeKeepsOrder | src/main/java/org/codefx/jwos/file/YamlAnalysisPersistence.java:186-234 | adding items through the `add` methods keeps every set ordered, and each set then holds its old coordinates and those of the items added, no others |
| YamlPersistence.YamlAnalysisPersistence.Empty | src/main/java/org/codefx/jwos/file/YamlAnalysisPersistence.java:74-76 | `empty()` holds ten empty sets |
| YamlPersistence.YamlAnalysisPersistence.Holding | src/main/java/org/codefx/jwos/file/YamlAnalysisPersistence.java:70-72 | the store holding given ordered sets |
| YamlPersistence.YamlAnalysisPersistence.From | src/main/java/org/codefx/jwos/file/YamlAnalysisPersistence.java:95-111 | `from` succeeds iff every entry converts, throws the first conversion's exception otherwise, and holds the loaded ordered sets |
| YamlPersistence.YamlAnalysisPersistence.AddAllSteps | src/main/java/org/codefx/jwos/file/YamlAnalysisPersistence.java:96-110 | the ten `addTo` calls in step order load the whole record |
| YamlPersistence.YamlAnalysisPersistence.AddProjectSteps | src/main/java/org/codefx/jwos/file/YamlAnalysisPersistence.java:97-99 | steps 1 and 2 |
| YamlPersistence.YamlAnalysisPersistence.AddDownloadAndAnalysisSteps | src/main/java/org/codefx/jwos/file/YamlAnalysisPersistence.java:100-103 | steps 3 and 4 |
| YamlPersistence.YamlAnalysisPersistence.AddResolutionAndResultSteps | src/main/java/org/codefx/jwos/file/YamlAnalysisPersistence.java:104-108 | steps 5 and 6 |
| YamlPersistence.YamlAnalysisPersistence.FromString | src/main/java/org/codefx/jwos/file/YamlAnalysisPersistence.java:78-84 | the empty string gives an empty store; a document without content makes `from` throw NullPointerException; otherwise the parsed record is loaded |
| YamlPersistence.YamlAnalysisPersistence.FromStream | src/main/java/org/codefx/jwos/file/YamlAnalysisPersistence.java:86-93 | nothing read gives an empty store; otherwise the parsed record is loaded |
| YamlPersistence.YamlAnalysisPersistence.AddProject | src/main/java/org/codefx/jwos/file/YamlAnalysisPersistence.java:186-189 | `add` to the project set: ordered afterwards, the project's coordinates added, the set unchanged when they were present, the other nine sets unchanged |
| YamlPersistence.YamlAnalysisPersistence.AddResolvedProject | src/main/java/org/codefx/jwos/file/YamlAnalysisPersistence.java:191-194 | the same for resolved projects |
| YamlPersistence.YamlAnalysisPersistence.AddProjectResolutionError | src/main/java/org/codefx/jwos/file/YamlAnalysisPersistence.java:196-199 | the same for failed project resolutions |
| YamlPersistence.YamlAnalysisPersistence.AddDownloadedArtifact | src/main/java/org/codefx/jwos/file/YamlAnalysisPersistence.java:201-204 | the same for downloaded artifacts |
| YamlPersistence.YamlAnalysisPersistence.AddDownloadError | src/main/java/org/codefx/jwos/file/YamlAnalysisPersistence.java:206-209 | the same for failed downloads |
| YamlPersistence.YamlAnalysisPersistence.AddAnalyzedArtifact | src/main/java/org/codefx/jwos/file/YamlAnalysisPersistence.java:211-214 | the same for analysed artifacts |
| YamlPersistence.YamlAnalysisPersistence.AddAnalysisError | src/main/java/org/codefx/jwos/file/YamlAnalysisPersistence.java:216-219 | the same for failed analyses |
| YamlPersistence.YamlAnalysisPersistence.AddResolvedArtifact | src/main/java/org/codefx/jwos/file/YamlAnalysisPersistence.java:221-224 | the same for resolved artifacts |
| YamlPersistence.YamlAnalysisPersistence.AddArtifactResolutionError | src/main/java/org/codefx/jwos/file/YamlAnalysisPersistence.java:226-229 | the same for failed artifact resolutions |
| YamlPersistence.YamlAnalysisPersistence.AddResult | src/main/java/org/codefx/jwos/file/YamlAnalysisPersistence.java:231-234 | the same for completed artifacts |
| Channels.SimpleTaskChannel.constructor | src/main/java/org/codefx/jwos/analysis/channel/SimpleTaskChannel.java:21-30 | a new simple channel has its name and capacities (0 meaning unbounded) and three empty queues |
| Channels.ReplayQueues.constructor | src/main/java/org/codefx/jwos/analysis/channel/ReplayingTaskChannelDecorator.java:26-38 | the replay queues start as copies of the given collections |
| Channels.QueriedLeaf | src/main/java/org/codefx/jwos/analysis/channel/AbstractTaskChannelDecorator.java:31-34 | queries reach one simple channel of the stack: the innermost decorated one |
| Channels.QueriedReplays | src/main/java/org/codefx/jwos/analysis/channel/ReplayingTaskChannelDecorator.java:50-56 | the replay queues that queries consume are replay queues of the stack |
| Channels.TaskName | src/main/java/org/codefx/jwos/analysis/channel/AbstractTaskChannelDecorator.java:21-24 | a decorated channel reports the name of the simple channel its queries reach |
| Channels.NrOfWaitingTasks | src/main/java/org/codefx/jwos/analysis/channel/ReplayingTaskChannelDecorator.java:40-43 | the count of waiting tasks is the number of tasks a query will see: remaining replayed tasks plus the decorated channel's |
| Channels.NoWaitingTasks | src/main/java/org/codefx/jwos/analysis/channel/ReplayingTaskChannelDecorator.java:45-48 | no waiting tasks exactly when the count is 0 |
| Channels.SendTask | src/main/java/org/codefx/jwos/analysis/channel/SpyingTaskChannelDecorator.java:24-28 | every simple channel of the stack gets the task at its end (a spy forwards to both channels), the replay queues and the other queues are untouched, and the task becomes the last one a query sees |
| Channels.SendResult | src/main/java/org/codefx/jwos/analysis/channel/SimpleTaskChannel.java:63-66 | the send succeeds iff every result queue it reaches has room (IllegalStateException otherwise); on success each of them has the result at its end and queries see it last; on failure the queues before the full one have it and the rest are untouched |
| Channels.SendResultToBoth | src/main/java/org/codefx/jwos/analysis/channel/SpyingTaskChannelDecorator.java:30-34 | a spy sends the result to its decorated channel and, only when that succeeded, to its listening one, with the same outcome as above |
| Channels.SendError | src/main/java/org/codefx/jwos/analysis/channel/SimpleTaskChannel.java:74-77 | the same as `sendResult` on the error queues |
| Channels.SendErrorToBoth | src/main/java/org/codefx/jwos/analysis/channel/SpyingTaskChannelDecorator.java:36-40 | the same as the spy's result send, on the error queues |
| Channels.AppendedAfterComplete | src/main/java/org/codefx/jwos/analysis/channel/SpyingTaskChannelDecorator.java:30-34 | when every queue of the decorated channel got the item and a prefix of the listening channel's did, a prefix of the whole stack did |
| Channels.AppendedBeforeUntouched | src/main/java/org/codefx/jwos/analysis/channel/SpyingTaskChannelDecorator.java:30-34 | when the decorated channel failed part-way, the listening channel is untouched, so a prefix of the whole stack got the item |
| Channels.GetTask | src/main/java/org/codefx/jwos/analysis/channel/ReplayingTaskChannelDecorator.java:50-56 | `getTask` returns the first task a query sees (replayed ones first) and removes it; results, errors and a spy's listening channel are untouched |
| Channels.DrainTasks | src/main/java/org/codefx/jwos/analysis/channel/ReplayingTaskChannelDecorator.java:58-62 | draining returns every task a query sees, replayed ones first, in order, and leaves none |
| Channels.DrainResults | src/main/java/org/codefx/jwos/analysis/channel/ReplayingTaskChannelDecorator.java:64-68 | draining returns the remaining replayed results then the decorated channel's, and leaves none, so the replay is emitted once |
| Channels.DrainErrors | src/main/java/org/codefx/jwos/analysis/channel/ReplayingTaskChannelDecorator.java:70-74 | the same for errors |
| Channels.NamedAndUnbounded | src/main/java/org/codefx/jwos/analysis/channel/TaskChannel.java:24-26 | a fresh simple channel with the name, both capacities 0 (unbounded) and empty queues |
| Channels.NamedAndBounded | src/main/java/org/codefx/jwos/analysis/channel/TaskChannel.java:31-33 | a fresh simple channel with the same capacity for results and errors |
| Channels.NamedAndBoundedSeparately | src/main/java/org/codefx/jwos/analysis/channel/TaskChannel.java:38-40 | a fresh simple channel with separate capacities |
| Channels.Unnamed | src/main/java/org/codefx/jwos/analysis/Channel.java:21-43 | the oldest channel: no name, the given capacities, empty queues |
| Channels.Spy | src/main/java/org/codefx/jwos/analysis/channel/TaskChannel.java:60-62 | `spy` shows the decorated channel's queues to queries and sends to the decorated channel's simple channels, then the listening channel's |
| Channels.SendTaskThenGetTask | src/main/java/org/codefx/jwos/analysis/channel/SimpleTaskChannel.java:47-55 | a task sent is taken after every task already waiting (FIFO); with none waiting it is the one taken |
| Channels.SendResultThenDrain | src/main/java/org/codefx/jwos/analysis/channel/SimpleTaskChannel.java:63-72 | a result that fits is drained after every result already waiting, and the drain leaves the results empty |
| Channels.SendErrorThenDrain | src/main/java/org/codefx/jwos/analysis/channel/SimpleTaskChannel.java:74-83 | the same for errors; tasks and results are not touched |
| Channels.Replay | src/main/java/org/codefx/jwos/analysis/channel/TaskChannel.java:45-47 | `replaying(tasks, results, errors)` puts the given items in front of what the channel holds, queue by queue |
| Channels.ReplayResultsAndErrors | src/main/java/org/codefx/jwos/analysis/channel/TaskChannel.java:52-54 | `replaying(results, errors)` replays no task |
| Channels.EmptyReplayIsTransparent | src/main/java/org/codefx/jwos/analysis/channel/ReplayingTaskChannelDecorator.java:40-74 | a replaying channel with nothing left to replay shows exactly what the decorated channel shows, under the same name |
| PersistenceChannels.ShownByReplayedAndSpied | src/main/java/org/codefx/jwos/analysis/PersistenceAnalysisTaskChannels.java:43-47 | a replayed and spied channel shows the replay queues followed by its simple channel's queues, and the simple channel's name; the spy is never queried |
| PersistenceChannels.BuiltReplaysOnly | src/main/java/org/codefx/jwos/analysis/PersistenceAnalysisTaskChannels.java:43-80 | a channel built as the constructor builds it is named as given, has no tasks, shows exactly the given results and errors, and its spy is empty |
| PersistenceChannels.ReplayedSpiedChannel | src/main/java/org/codefx/jwos/analysis/PersistenceAnalysisTaskChannels.java:44-47 | `namedAndUnbounded(name).spy(spy).replaying(results, errors)` yields a replaying decorator over a spying decorator over a fresh empty simple channel named `name`, with replay queues holding exactly `results` and `errors` and a fresh empty spy |
| PersistenceChannels.SpiedShowsNothing | src/main/java/org/codefx/jwos/analysis/PersistenceAnalysisTaskChannels.java:84-87 | the output channel, spied on but not replayed, is named "output" and shows nothing |
| PersistenceChannels.SpiedChannel | src/main/java/org/codefx/jwos/analysis/PersistenceAnalysisTaskChannels.java:84-87 | `namedAndUnbounded(name).spy(spy)` yields a spying decorator over a fresh empty simple channel and a fresh empty spy |
| PersistenceChannels.PersistenceAnalysisTaskChannels.constructor | src/main/java/org/codefx/jwos/analysis/PersistenceAnalysisTaskChannels.java:40-88 | each of the five replayed channels replays the matching sets of the store (downloads and download errors as the two flags allow, no errors for added projects), under its own name, and the output channel is only spied on |
| PersistenceChannels.PersistenceAnalysisTaskChannels.InitialReplaysStore | src/main/java/org/codefx/jwos/analysis/PersistenceAnalysisTaskChannels.java:40-88 | right after construction every replayed channel offers exactly the stored sets and no tasks, the output channel shows nothing, and nothing is pending for the store |
| PersistenceChannels.PersistenceAnalysisTaskChannels.UpdatePersistence | src/main/java/org/codefx/jwos/analysis/PersistenceAnalysisTaskChannels.java:94-107 | the store afterwards is the old store with everything sent since the last call added, set by set and in sending order, and every spy is drained |
| PersistenceChannels.PersistenceAnalysisTaskChannels.UpdateProjectSets | src/main/java/org/codefx/jwos/analysis/PersistenceAnalysisTaskChannels.java:95-97 | added projects, resolved projects and project resolution errors are moved from the spies into the store; the other sets are unchanged |
| PersistenceChannels.PersistenceAnalysisTaskChannels.UpdateProjects | src/main/java/org/codefx/jwos/analysis/PersistenceAnalysisTaskChannels.java:95-95 | the added projects are moved from the spy into the store's project set |
| PersistenceChannels.PersistenceAnalysisTaskChannels.UpdateResolvedVersions | src/main/java/org/codefx/jwos/analysis/PersistenceAnalysisTaskChannels.java:96-97 | resolved projects and resolution errors are moved from the spy into the store |
| PersistenceChannels.PersistenceAnalysisTaskChannels.UpdateDownloadAndAnalysisSets | src/main/java/org/codefx/jwos/analysis/PersistenceAnalysisTaskChannels.java:99-102 | downloads, download errors, analyses and analysis errors are moved from the spies into the store |
| PersistenceChannels.PersistenceAnalysisTaskChannels.UpdateDownloads | src/main/java/org/codefx/jwos/analysis/PersistenceAnalysisTaskChannels.java:99-100 | downloaded artifacts and download errors are moved from the spy into the store |
| PersistenceChannels.PersistenceAnalysisTaskChannels.UpdateAnalyses | src/main/java/org/codefx/jwos/analysis/PersistenceAnalysisTaskChannels.java:101-102 | analysed artifacts and analysis errors are moved from the spy into the store |
| PersistenceChannels.PersistenceAnalysisTaskChannels.UpdateResolutionAndResultSets | src/main/java/org/codefx/jwos/analysis/PersistenceAnalysisTaskChannels.java:103-106 | resolved artifacts, resolution errors and the output tasks are moved from the spies into the store |
| PersistenceChannels.PersistenceAnalysisTaskChannels.UpdateResolvedDependencies | src/main/java/org/codefx/jwos/analysis/PersistenceAnalysisTaskChannels.java:103-104 | resolved artifacts and resolution errors are moved from the spy into the store |
| PersistenceChannels.PersistenceAnalysisTaskChannels.UpdateResults | src/main/java/org/codefx/jwos/analysis/PersistenceAnalysisTaskChannels.java:106-106 | the artifacts sent for output are moved from the spy into the store's results |
| PersistenceChannels.AddEachProject | src/main/java/org/codefx/jwos/analysis/PersistenceAnalysisTaskChannels.java:95-95 | adding each project in turn leaves the store's projects as `AddAll` of them and every other set unchanged |
| PersistenceChannels.AddEachResolvedProject | src/main/java/org/codefx/jwos/analysis/PersistenceAnalysisTaskChannels.java:96-96 | the same for resolved projects |
| PersistenceChannels.AddEachProjectResolutionError | src/main/java/org/codefx/jwos/analysis/PersistenceAnalysisTaskChannels.java:97-97 | the same for project resolution errors |
| PersistenceChannels.AddEachDownloadedArtifact | src/main/java/org/codefx/jwos/analysis/PersistenceAnalysisTaskChannels.java:99-99 | the same for downloaded artifacts |
| PersistenceChannels.AddEachDownloadError | src/main/java/org/codefx/jwos/analysis/PersistenceAnalysisTaskChannels.java:100-100 | the same for download errors |
| PersistenceChannels.AddEachAnalyzedArtifact | src/main/java/org/codefx/jwos/analysis/PersistenceAnalysisTaskChannels.java:101-101 | the same for analysed artifacts |
| PersistenceChannels.AddEachAnalysisError | src/main/java/org/codefx/jwos/analysis/PersistenceAnalysisTaskChannels.java:102-102 | the same for analysis errors |
| PersistenceChannels.AddEachResolvedArtifact | src/main/java/org/codefx/jwos/analysis/PersistenceAnalysisTaskChannels.java:103-103 | the same for resolved artifacts |
| PersistenceChannels.AddEachArtifactResolutionError | src/main/java/org/codefx/jwos/analysis/PersistenceAnalysisTaskChannels.java:104-104 | the same for artifact resolution errors |
| PersistenceChannels.AddEachResult | src/main/java/org/codefx/jwos/analysis/PersistenceAnalysisTaskChannels.java:106-106 | the same for the completed artifacts sent for output |
| Analyses.ResolveState | src/main/java/org/codefx/jwos/analysis/Analysis.java:248-255 | `resolved` succeeds exactly once; afterwards the dependees were resolved and every dependee is pending; a second call fails with IllegalState |
| Analyses.AnalyzeState | src/main/java/org/codefx/jwos/analysis/Analysis.java:257-264 | `analyzed` succeeds exactly once and records the violations; a second call fails with IllegalState |
| Analyses.DependeeAnalyzedState | src/main/java/org/codefx/jwos/analysis/Analysis.java:266-272 | `dependeeAnalyzed` succeeds exactly for a pending dependee, which leaves the pending set and joins the analyzed ones; otherwise IllegalState |
| Analyses.AnalyzedDependeesOf | src/main/java/org/codefx/jwos/analysis/Analysis.java:286-290 | `analyzedDependees` fails with IllegalState exactly while the dependees are unresolved or one is pending, and otherwise returns the analyzed dependees |
| Analyses.ViolationsOf | src/main/java/org/codefx/jwos/analysis/Analysis.java:292-296 | `violations` fails with IllegalState exactly until the violations were analyzed, and otherwise returns them |
| Analyses.DependeesAnalyzedRemovesThem | src/main/java/org/codefx/jwos/analysis/Analysis.java:266-272 | reporting distinct pending dependees in turn succeeds, removes exactly them from the pending set and appends them to the analyzed ones |
| Analyses.DeeplyAnalyzedIffAllDependeesReported | src/main/java/org/codefx/jwos/analysis/Analysis.java:274-284 | after `resolved` and `analyzed`, an artifact is deeply analyzed exactly when every dependee has been reported analyzed, in whatever order |
| Analyses.CreatedMarker | src/main/java/org/codefx/jwos/analysis/Analysis.java:111-128 | the created artifact carries the violations and the stored result of each analyzed dependee; its marker is DIRECT exactly with own violations, NONE exactly without them and with every dependee NONE, INDIRECT otherwise |
| Analyses.FormerlyAnalyzedConsistent | src/main/java/org/codefx/jwos/analysis/Analysis.java:175-180 | a store built from formerly analyzed artifacts satisfies the store invariant |
| Analyses.StartKeepsConsistent | src/main/java/org/codefx/jwos/analysis/Analysis.java:186-188 | adding an artifact known nowhere with a new state keeps the store invariant |
| Analyses.ResolveOpens | src/main/java/org/codefx/jwos/analysis/Analysis.java:248-255 | after `resolved` every dependee is pending and the invariant holds with that artifact open |
| Analyses.AnalyzedDependeeKeepsConsistent | src/main/java/org/codefx/jwos/analysis/Analysis.java:76-77 | reporting a dependee that is deeply analyzed already keeps the invariant |
| Analyses.WaitedForDependeeKeepsConsistent | src/main/java/org/codefx/jwos/analysis/Analysis.java:78-79 | recording that the artifact waits for a dependee not deeply analyzed yet keeps the invariant |
| Analyses.AnalyzeOpens | src/main/java/org/codefx/jwos/analysis/Analysis.java:257-264 | after `analyzed` the invariant holds with that artifact open |
| Analyses.IncompleteCloses | src/main/java/org/codefx/jwos/analysis/Analysis.java:101-108 | an open artifact that is not deeply analyzed can be closed: nothing is to be done for it |
| Analyses.MarkKeepsConsistent | src/main/java/org/codefx/jwos/analysis/Analysis.java:130-133 | moving a deeply analyzed artifact from the analysis to the results keeps the invariant, with its waiting dependents still to be told |
| Analyses.StopWaitingKeepsConsistent | src/main/java/org/codefx/jwos/analysis/Analysis.java:226-228 | taking the dependents of a finished artifact out of the waiting map keeps the invariant, with those dependents open until told |
| Analyses.NoteKeepsConsistent | src/main/java/org/codefx/jwos/analysis/Analysis.java:152-152 | telling a dependent that waited for a finished artifact succeeds and keeps the invariant |
| Analyses.AllToldCloses | src/main/java/org/codefx/jwos/analysis/Analysis.java:150-158 | once every dependent of a finished artifact was told, nothing is open for it |
| Analyses.ToMapSpec | src/main/java/org/codefx/jwos/analysis/Analysis.java:177-178 | collecting the formerly analyzed artifacts into a map succeeds exactly when their coordinates are distinct (IllegalState otherwise) and maps each artifact's coordinates to it |
| Analyses.MarkEach | src/main/java/org/codefx/jwos/analysis/Analysis.java:72-81 | walking the dependees of a freshly resolved artifact in order leaves its state as `Marked` and the waiting map as `WithWaiter` describe; no other artifact's state changes |
| Analyses.MarkedFields | src/main/java/org/codefx/jwos/analysis/Analysis.java:72-81 | after the walk, the pending dependees are the earlier ones minus the deeply analyzed dependees, the analyzed ones are the deeply analyzed dependees in their order, and resolution and violations are unchanged |
| Analyses.MarkedReport | src/main/java/org/codefx/jwos/analysis/Analysis.java:76-77 | reporting the next dependee that is deeply analyzed succeeds and gives the state one step further along the walk |
| Analyses.DeepOnesMembers | src/main/java/org/codefx/jwos/analysis/Analysis.java:74-77 | the analyzed dependees recorded by the walk are exactly the dependees that were deeply analyzed already |
| Analyses.WithWaiterMeaning | src/main/java/org/codefx/jwos/analysis/Analysis.java:78-79 | after the walk, a dependent waits for a dependee exactly when it did before, or it is the resolved artifact and the dependee is one of its dependees not deeply analyzed |
| Analyses.MarkedResolvedState | src/main/java/org/codefx/jwos/analysis/Analysis.java:65-81 | after `resolved`, exactly the dependees not deeply analyzed are pending, the others are analyzed in their order, and the artifact is deeply analyzed exactly when its violations are known and every dependee was deeply analyzed already |
| Analyses.ResolvedFinishes | src/main/java/org/codefx/jwos/analysis/Analysis.java:65-69 | an artifact that `resolved` finishes at once had every dependee deeply analyzed; its analyzed dependees are all of them in order, and its violations are kept |
| Analyses.MarkedConsistent | src/main/java/org/codefx/jwos/analysis/Analysis.java:72-81 | the walk keeps the store invariant and leaves only the resolved artifact open |
| Analyses.Analysis.Holding | src/main/java/org/codefx/jwos/analysis/Analysis.java:175-180 | the store starts with nothing in analysis, nothing waited for and the given results |
| Analyses.Analysis.From | src/main/java/org/codefx/jwos/analysis/Analysis.java:37-39 | the analysis starts from the formerly analyzed artifacts, indexed by coordinates, and fails with IllegalState exactly when two share coordinates |
| Analyses.Analysis.StartAnalysis | src/main/java/org/codefx/jwos/analysis/Analysis.java:50-57 | true exactly for an artifact neither in analysis nor deeply analyzed, which is then in analysis with a new state; nothing else changes |
| Analyses.Analysis.Resolved | src/main/java/org/codefx/jwos/analysis/Analysis.java:65-70 | fails with IllegalState and changes nothing for an artifact not in analysis or resolved before; otherwise keeps the invariant and returns exactly the artifacts that became deeply analyzed, moved to the results, this artifact first when it is among them; when nothing finishes, the artifact's new state and the waiting map are exactly those of the walk over its dependees (`Marked`, `WithWaiter`); when it finishes, every dependee was deeply analyzed and the first result carries its violations and the stored results of its dependees in order; measured against the state with the resolution recorded, every artifact still in analysis was in analysis before and only advanced (same flags and violations, its analysed dependees extended at the end, the same dependees accounted for between analysed and pending), and every found artifact, the cascaded dependents included, derives from the state it had before: its violations, and as dependees the stored results of exactly the dependees that state had analysed or pending, the ones analysed then first and in their order |
| Analyses.Analysis.MarkAndFinish | src/main/java/org/codefx/jwos/analysis/Analysis.java:67-69 | after the walk over the dependees, either nothing finishes and the state is that of the walk, or the walked state is deeply analyzed and the first result is created from it; measured against the walked state, every artifact still in analysis was in analysis before and only advanced (same flags and violations, its analysed dependees extended at the end, the same dependees accounted for between analysed and pending), and every found artifact, the cascaded dependents included, derives from the state it had before: its violations, and as dependees the stored results of exactly the dependees that state had analysed or pending, the ones analysed then first and in their order |
| Analyses.Analysis.MarkDependeesAsAnalyzedOrWaitedFor | src/main/java/org/codefx/jwos/analysis/Analysis.java:72-81 | each dependee is reported analyzed when it is deeply analyzed already and waited for otherwise: the artifact's state becomes `Marked`, the waiting map `WithWaiter`, nothing else changes, and the invariant holds with only this artifact open |
| Analyses.Analysis.Analyzed | src/main/java/org/codefx/jwos/analysis/Analysis.java:89-93 | fails with IllegalState and changes nothing for an artifact not in analysis or analyzed before; otherwise records the violations, keeps the invariant and returns exactly the artifacts that became deeply analyzed, this artifact first when it is among them; when nothing finishes, only this artifact's state changes, to the one with the violations recorded; when it finishes, the first result carries the reported violations and the stored results of the analyzed dependees in order; measured against the state with the violations recorded, every artifact still in analysis was in analysis before and only advanced (same flags and violations, its analysed dependees extended at the end, the same dependees accounted for between analysed and pending), and every found artifact, the cascaded dependents included, derives from the state it had before: its violations, and as dependees the stored results of exactly the dependees that state had analysed or pending, the ones analysed then first and in their order |
| Analyses.Analysis.FinishIfDeeplyAnalyzed | src/main/java/org/codefx/jwos/analysis/Analysis.java:95-109 | nothing is found, and nothing changes, unless the artifact is deeply analyzed; otherwise it is found first, carrying its violations and the stored results of its analysed dependees in order, and every found artifact has moved from the analysis to the results; every artifact still in analysis was in analysis before and only advanced (same flags and violations, its analysed dependees extended at the end, the same dependees accounted for between analysed and pending), and every found artifact, the cascaded dependents included, derives from the state it had before: its violations, and as dependees the stored results of exactly the dependees that state had analysed or pending, the ones analysed then first and in their order |
| Analyses.Analysis.FinishDeeplyAnalyzed | src/main/java/org/codefx/jwos/analysis/Analysis.java:101-106 | a deeply analyzed artifact is created from its state, moved to the results and reported first, followed by the dependents it finished; every artifact still in analysis was in analysis before and only advanced (same flags and violations, its analysed dependees extended at the end, the same dependees accounted for between analysed and pending), and every found artifact, the cascaded dependents included, derives from the state it had before: its violations, and as dependees the stored results of exactly the dependees that state had analysed or pending, the ones analysed then first and in their order |
| Analyses.Analysis.MarkAsDeeplyAnalyzed | src/main/java/org/codefx/jwos/analysis/Analysis.java:130-133 | the artifact created from its state leaves the analysis and is stored as a result; the waiting map is unchanged; it derives from the state it left, and the others are untouched |
| Analyses.Analysis.FindFinishedDependentsRecursively | src/main/java/org/codefx/jwos/analysis/Analysis.java:142-159 | nobody waits for the finished artifact any more, every dependent that waited for it was told, and each dependent that became deeply analyzed is moved to the results and reported; every artifact still in analysis was in analysis before and only advanced (same flags and violations, its analysed dependees extended at the end, the same dependees accounted for between analysed and pending), and every found artifact, the cascaded dependents included, derives from the state it had before: its violations, and as dependees the stored results of exactly the dependees that state had analysed or pending, the ones analysed then first and in their order |
| Analyses.Analysis.StopWaitingFor | src/main/java/org/codefx/jwos/analysis/Analysis.java:226-228 | returns exactly the dependents that waited for the artifact and removes its entry; nothing else changes |
| Analyses.Analysis.TellWaitingDependents | src/main/java/org/codefx/jwos/analysis/Analysis.java:150-158 | each dependent in the set is told, in an order the store does not fix; the ones that became deeply analyzed are moved to the results and reported; every artifact still in analysis was in analysis before and only advanced (same flags and violations, its analysed dependees extended at the end, the same dependees accounted for between analysed and pending), and every found artifact, the cascaded dependents included, derives from the state it had before: its violations, and as dependees the stored results of exactly the dependees that state had analysed or pending, the ones analysed then first and in their order |
| Analyses.Analysis.TellSomeWaitingDependent | src/main/java/org/codefx/jwos/analysis/Analysis.java:152-157 | telling one dependent of a nonempty set and then the rest keeps the store consistent and returns exactly the artifacts that became deeply analysed; every artifact still in analysis was in analysis before and only advanced (same flags and violations, its analysed dependees extended at the end, the same dependees accounted for between analysed and pending), and every found artifact, the cascaded dependents included, derives from the state it had before: its violations, and as dependees the stored results of exactly the dependees that state had analysed or pending, the ones analysed then first and in their order |
| Analyses.ResolvedAccounted | src/main/java/org/codefx/jwos/analysis/Analysis.java:248-255 | resolving an artifact whose dependees were not resolved yet makes exactly the resolved dependees accounted for |
| Analyses.DependeeAnalyzedAdvances | src/main/java/org/codefx/jwos/analysis/Analysis.java:266-272 | reporting a pending dependee analysed only advances the state: it joins the analysed dependees at the end and the accounted dependees stay the same |
| Analyses.MarkedAdvances | src/main/java/org/codefx/jwos/analysis/Analysis.java:72-81 | marking the deeply analysed ones among pending dependees only advances the state |
| Analyses.AdvancedInTurn | src/main/java/org/codefx/jwos/analysis/Analysis.java:142-159 | two advances in turn are one advance |
| Analyses.ProgressedInTurn | src/main/java/org/codefx/jwos/analysis/Analysis.java:142-159 | two stretches of progress in turn are one |
| Analyses.NoteProgresses | src/main/java/org/codefx/jwos/analysis/Analysis.java:152-152 | reporting one dependee of an artifact analysed advances its state and leaves the others, so the analysis progressed |
| Analyses.FinishedDerived | src/main/java/org/codefx/jwos/analysis/Analysis.java:130-133 | finishing a deeply analysed artifact stores an artifact derived from its state, and removing it from the analysis is progress |
| Analyses.CreatedDerived | src/main/java/org/codefx/jwos/analysis/Analysis.java:111-128 | the artifact created from a deeply analysed state derives from every earlier state of the same analysis |
| Analyses.DerivedEarlier | src/main/java/org/codefx/jwos/analysis/Analysis.java:142-159 | a derivation from a later, advanced state is one from the earlier state too, with more results stored |
| Analyses.AllDerivedInTurn | src/main/java/org/codefx/jwos/analysis/Analysis.java:150-158 | derivations of two successive stretches of finishing combine |
| Analyses.Analysis.NoteDependeeAnalyzed | src/main/java/org/codefx/jwos/analysis/Analysis.java:152-152 | the told dependent was awaiting the dependee, and its new state is exactly the one `dependeeAnalyzed` computes, with the dependee moved from pending to the end of the analysed ones; every other artifact's state, the results and the waiting map are unchanged, and the store stays consistent |
| Analyses.Analysis.DependeeAnalyzed | src/main/java/org/codefx/jwos/analysis/Analysis.java:152-157 | telling one waiting dependent, and finishing it if that completes it, keeps the store consistent and returns exactly the artifacts that became deeply analysed; every artifact still in analysis was in analysis before and only advanced (same flags and violations, its analysed dependees extended at the end, the same dependees accounted for between analysed and pending), and every found artifact, the cascaded dependents included, derives from the state it had before: its violations, and as dependees the stored results of exactly the dependees that state had analysed or pending, the ones analysed then first and in their order |
| TaskManagers.MarkerForInternalDependenciesMeaning | src/main/java/org/codefx/jwos/analysis/AnalysisTaskManager.java:194-202 | the marker is DIRECT exactly with own violations, NONE exactly without them and with every dependee NONE, INDIRECT otherwise; it is the marker the `Analysis` store derives for the same artifact |
| TaskManagers.FinishableForward | src/main/java/org/codefx/jwos/analysis/AnalysisTaskManager.java:175-192 | finishing more nodes keeps a node finishable from any path |
| TaskManagers.FinishableBack | src/main/java/org/codefx/jwos/analysis/AnalysisTaskManager.java:175-192 | a node finishable after other nodes were finished was finishable before, from any path whose nodes finishing left alone |
| TaskManagers.FinishDependees | src/main/java/org/codefx/jwos/analysis/AnalysisTaskManager.java:180-184 | each dependee of the node is finished in turn, in resolution order, with the node on the path; the result lists their deep analyses exactly when all are finishable, otherwise it is StackOverflow only when some dependee leads back into the path and IllegalState only when some dependee leads to a missing analysis or resolution; the path is left alone; on success every deep analysis computed lies in the dependee tree of one of the returned dependees, and a node whose dependees had all been finished changes nothing |
| TaskManagers.FinishRecursively | src/main/java/org/codefx/jwos/analysis/AnalysisTaskManager.java:175-192 | a deep analysis that succeeded already is returned unchanged; otherwise the call succeeds exactly when the node is finishable from the path (readable, off the path, and so is every dependee recursively), and the node then records the new deep analysis; a failure is StackOverflow only when a walk over unfinished nodes leads back into the path (the recursion has no end) and IllegalState only when such a walk reaches a node whose analysis or resolution has not succeeded; nodes on the path are left alone; on success every deep analysis computed lies in the returned artifact's dependee tree, and a node whose dependees had all been finished changes no other node |
| TaskManagers.LoopsBackBack | src/main/java/org/codefx/jwos/analysis/AnalysisTaskManager.java:175-192 | a walk back into the path after some nodes were finished was there before |
| TaskManagers.ReachesUnreadableBack | src/main/java/org/codefx/jwos/analysis/AnalysisTaskManager.java:175-192 | a walk to a node with a missing result after some nodes were finished was there before |
| TaskManagers.RankedNeverLoopsBack | src/main/java/org/codefx/jwos/analysis/AnalysisTaskManager.java:175-192 | in a graph without cycles, a node that every node on the path outranks never leads back into the path |
| TaskManagers.GrownTrans | src/main/java/org/codefx/jwos/analysis/AnalysisTaskManager.java:175-192 | finishing some nodes and then some more is finishing some nodes |
| TaskManagers.GrownFinishOne | src/main/java/org/codefx/jwos/analysis/AnalysisTaskManager.java:189-190 | recording the deep analysis of a readable node whose dependees are all deeply analysed is a finishing step |
| TaskManagers.CycleOverflows | src/main/java/org/codefx/jwos/analysis/AnalysisTaskManager.java:175-192 | a concrete graph of two artifacts that depend on each other, both ready: it has no ranking, finishing either reaches no missing result and instead leads back into its own path, so it overflows the stack |
| TaskManagers.AcyclicNeverLoopsBack | src/main/java/org/codefx/jwos/analysis/AnalysisTaskManager.java:168-173 | from the top of the recursion, a graph without cycles never leads back into the path |
| TaskManagers.QueuedNodeMeaning | src/main/java/org/codefx/jwos/analysis/AnalysisTaskManager.java:104-131 | a download or resolution is queued exactly when not computed, an analysis exactly when not computed and the download succeeded; each queued task becomes QUEUED and exactly then its coordinates (for an analysis, the downloaded jar) are sent; the deep analysis is never queued |
| TaskManagers.QueueArtifactTasks | src/main/java/org/codefx/jwos/analysis/AnalysisTaskManager.java:85-85 | every artifact node is queued as `QueuedNode` says, and each due download, analysis and resolution is sent exactly once |
| TaskManagers.QueueProjectTasks | src/main/java/org/codefx/jwos/analysis/AnalysisTaskManager.java:88-102 | a version resolution that is not computed is queued and its project sent exactly once; any other project node is left alone |
| TaskManagers.StartMeaning | src/main/java/org/codefx/jwos/analysis/AnalysisTaskManager.java:212-221 | starting a task succeeds exactly for an existing node whose task is not computed or queued, which becomes STARTED with nothing else changed; otherwise IllegalState and nothing changes (for a missing node through the corrected lookup `Graphs.Existing`; as written that lookup throws IllegalArgument) |
| TaskManagers.DrainInto | src/main/java/org/codefx/jwos/analysis/AnalysisTaskManager.java:148-149 | feeding the drained items in turn yields what the specification function `Drain` describes |
| TaskManagers.ProcessAnswersFromChannel | src/main/java/org/codefx/jwos/analysis/AnalysisTaskManager.java:145-150 | a channel's results and then its errors are fed into the graph, as `ProcessChannel` describes |
| TaskManagers.AddProjects | src/main/java/org/codefx/jwos/analysis/AnalysisTaskManager.java:140-142 | every drained project is added to the graph in turn |
| TaskManagers.DrainSettles | src/main/java/org/codefx/jwos/analysis/AnalysisTaskManager.java:145-150 | when every step keeps the invariants and leaves its answer in place, a drain that throws nothing leaves every answer it fed in in place |
| TaskManagers.WithProjectsMeaning | src/main/java/org/codefx/jwos/analysis/AnalysisTaskManager.java:141-141 | known projects keep their nodes and each new project gets a node whose version resolution is not computed |
| TaskManagers.AnswersKeep | src/main/java/org/codefx/jwos/analysis/AnalysisTaskManager.java:133-138 | processing answers keeps the graph's invariants and never changes a finished task or a deep analysis |
| TaskManagers.AnswersSettle | src/main/java/org/codefx/jwos/analysis/AnalysisTaskManager.java:133-138 | when nothing throws, every drained result is recorded as the success of its task and every drained error as its failure |
| TaskManagers.AnswersDrainChannels | src/main/java/org/codefx/jwos/analysis/AnalysisTaskManager.java:133-138 | the new projects and the answers of every channel reached are drained, all of them when nothing throws; tasks, version resolutions and output are untouched |
| TaskManagers.ReadyAfterDependeesFinishable | src/main/java/org/codefx/jwos/analysis/AnalysisTaskManager.java:175-192 | a node that is ready and whose dependees are all finished can be finished from the top of the recursion |
| TaskManagers.ReadyButNotFinishable | src/main/java/org/codefx/jwos/analysis/AnalysisTaskManager.java:204-208 | a concrete graph where `readyToFinish` accepts a node whose dependee was never analysed, so finishing it reaches a missing result and throws IllegalState |
| TaskManagers.FinishReady | src/main/java/org/codefx/jwos/analysis/AnalysisTaskManager.java:168-173 | `queueFinishedArtifacts` as written, on any graph: succeeds exactly when every ready node can be finished, then every ready node is deeply analysed; a failure is IllegalState only for a ready node that leads to a missing result and StackOverflow only for a ready node that leads around a cycle, never in a graph without cycles; only deep analyses are added and each one sent to output is the one recorded; on success no node is left ready, every ready node's deep analysis lies in the dependee tree of an artifact sent to output, and so does every other deep analysis computed |
| TaskManagers.FinishReadyAfterDependees | src/main/java/org/codefx/jwos/analysis/AnalysisTaskManager.java:168-173 | the corrected walk never throws; every node ready once its dependees are finished is deeply analysed afterwards and is itself sent; only nodes that are sent change, and each one sent is the one recorded |
| TaskManagers.CoveredInTurn | src/main/java/org/codefx/jwos/analysis/AnalysisTaskManager.java:175-192 | coverage of two successive stretches of finishing combines: what either computed lies in a tree of the joined roots |
| TaskManagers.CoveredByParent | src/main/java/org/codefx/jwos/analysis/AnalysisTaskManager.java:186-191 | what finishing the dependees computed, covered by the dependees, is covered by the parent built from them, and so is the parent |
| TaskManagers.CoveredReady | src/main/java/org/codefx/jwos/analysis/AnalysisTaskManager.java:168-173 | once every ready node is deeply analysed and every change is covered by the sent artifacts, every ready node's result lies in a sent artifact's tree |
| TaskManagers.NoneReadyAfter | src/main/java/org/codefx/jwos/analysis/AnalysisTaskManager.java:168-173 | once every node that was ready is deeply analysed and only deep analyses were added, no node is ready |
| TaskManagers.SentOneMore | src/main/java/org/codefx/jwos/analysis/AnalysisTaskManager.java:168-173 | finishing one more node and sending it keeps every changed node among the sent ones |
| TaskManagers.SentAllReady | src/main/java/org/codefx/jwos/analysis/AnalysisTaskManager.java:168-173 | a node ready after its dependees that was finished has changed, so it is among the sent ones |
| TaskManagers.AfterDependeesSkipped | src/main/java/org/codefx/jwos/analysis/AnalysisTaskManager.java:168-173 | a node that was ready in the corrected sense and no longer is has been finished meanwhile |
| TaskManagers.Bookkeeping.constructor | src/main/java/org/codefx/jwos/analysis/AnalysisTaskManager.java:300-303 | the bookkeeping starts neither running nor aborted |
| TaskManagers.Bookkeeping.StartRunning | src/main/java/org/codefx/jwos/analysis/AnalysisTaskManager.java:319-323 | a second start fails with IllegalState; a first start sets the running flag |
| TaskManagers.Bookkeeping.StopRunning | src/main/java/org/codefx/jwos/analysis/AnalysisTaskManager.java:350-353 | both flags are reset |
| TaskManagers.Bookkeeping.Abort | src/main/java/org/codefx/jwos/analysis/AnalysisTaskManager.java:355-358 | the aborted flag is set and the running flag unchanged |
| TaskManagers.TaskManager.constructor | src/main/java/org/codefx/jwos/analysis/AnalysisTaskManager.java:62-64 | the manager starts over an empty graph with six empty channels and idle bookkeeping |
| TaskManagers.TaskManager.StopManagingQueue | src/main/java/org/codefx/jwos/analysis/AnalysisTaskManager.java:73-75 | the run is aborted |
| TaskManagers.TaskManager.QueueTasks | src/main/java/org/codefx/jwos/analysis/AnalysisTaskManager.java:83-86 | every task that is not computed is queued and its coordinates sent once to its channel, behind the tasks already waiting there; nothing else changes |
| TaskManagers.TaskManager.ProcessAnswers | src/main/java/org/codefx/jwos/analysis/AnalysisTaskManager.java:133-138 | the graph and channels become what `AnswersProcessed` describes, and the call throws exactly when a drained answer was refused by its task |
| TaskManagers.TaskManager.QueueFinishedArtifacts | src/main/java/org/codefx/jwos/analysis/AnalysisTaskManager.java:168-173 | as written: throws IllegalState or StackOverflow when a ready node cannot be finished, StackOverflow only for a graph with a cycle; otherwise no node is left ready; only deep analyses are added, each one sent to output is the one recorded; when it does not throw, every ready node's deep analysis, and every other one computed, lies in the dependee tree of an artifact sent to output |
| TaskManagers.TaskManager.QueueFinishedArtifactsAfterDependees | src/main/java/org/codefx/jwos/analysis/AnalysisTaskManager.java:168-173 | corrected: never throws; every node ready once its dependees are finished is deeply analysed and is itself among the artifacts sent to output; only deep analyses are added and each one sent is the one recorded |
| TaskManagers.TaskManager.GetNextToResolveVersions | src/main/java/org/codefx/jwos/analysis/AnalysisTaskManager.java:238-240 | the next project is taken from its channel and its version resolution started, or IllegalState with the graph unchanged |
| TaskManagers.TaskManager.GetNextToDownload | src/main/java/org/codefx/jwos/analysis/AnalysisTaskManager.java:253-255 | the next artifact is taken from its channel and its download started as `Apply` says |
| TaskManagers.TaskManager.GetNextToAnalyze | src/main/java/org/codefx/jwos/analysis/AnalysisTaskManager.java:267-269 | the next downloaded jar is taken from its channel and its analysis started as `Apply` says |
| TaskManagers.TaskManager.GetNextToResolveDependencies | src/main/java/org/codefx/jwos/analysis/AnalysisTaskManager.java:281-283 | the next artifact is taken from its channel and its dependency resolution started as `Apply` says |
| TaskManagers.TaskManager.GetNextToOutput | src/main/java/org/codefx/jwos/analysis/AnalysisTaskManager.java:296-298 | the next deeply analysed artifact is taken from the output channel and returned; the graph and the projects are unchanged |
| TaskManagers.TaskManager.StartTask | src/main/java/org/codefx/jwos/analysis/AnalysisTaskManager.java:212-221 | the task is started, or the call throws and nothing changes |
| TaskManagers.TaskManager.AddProject | src/main/java/org/codefx/jwos/analysis/AnalysisTaskManager.java:230-232 | the project is appended to the results of the add-project channel; the graph is unchanged |
| TaskManagers.TaskManager.FindingProjectFailed | src/main/java/org/codefx/jwos/analysis/AnalysisTaskManager.java:234-236 | the error is appended to the errors of the add-project channel |
| TaskManagers.TaskManager.ResolvedVersions | src/main/java/org/codefx/jwos/analysis/AnalysisTaskManager.java:242-246 | the resolved project is appended to the version-resolution results |
| TaskManagers.TaskManager.VersionResolutionFailed | src/main/java/org/codefx/jwos/analysis/AnalysisTaskManager.java:248-251 | the failed project is appended to the version-resolution errors |
| TaskManagers.TaskManager.Downloaded | src/main/java/org/codefx/jwos/analysis/AnalysisTaskManager.java:257-260 | the downloaded artifact is appended to the download results |
| TaskManagers.TaskManager.DownloadFailedAnswer | src/main/java/org/codefx/jwos/analysis/AnalysisTaskManager.java:262-265 | the failure is appended to the download errors |
| TaskManagers.TaskManager.Analyzed | src/main/java/org/codefx/jwos/analysis/AnalysisTaskManager.java:271-274 | the analysed artifact is appended to the analysis results |
| TaskManagers.TaskManager.AnalysisFailedAnswer | src/main/java/org/codefx/jwos/analysis/AnalysisTaskManager.java:276-279 | the failure is appended to the analysis errors |
| TaskManagers.TaskManager.ResolvedDependencies | src/main/java/org/codefx/jwos/analysis/AnalysisTaskManager.java:285-289 | the resolved artifact is appended to the resolution results |
| TaskManagers.TaskManager.DependencyResolutionFailed | src/main/java/org/codefx/jwos/analysis/AnalysisTaskManager.java:291-294 | the failure is appended to the resolution errors |
| TaskManagers.QueuedKeepsValid | src/main/java/org/codefx/jwos/analysis/AnalysisTaskManager.java:83-86 | queuing keeps every succeeded resolution and deep analysis, hence the graph's invariants |
| Graphs.ProjectOf | src/main/java/org/codefx/jwos/analysis/AnalysisGraph.java:92-94 | an artifact is filed under the project with its groupId and artifactId |
| Graphs.ExistingAsWritten | src/main/java/org/codefx/jwos/analysis/AnalysisGraph.java:76-82 | as written: the node for present coordinates; for missing ones the message format "% b" itself throws, an IllegalArgumentException |
| Graphs.Existing | src/main/java/org/codefx/jwos/analysis/AnalysisGraph.java:76-82 | as intended: the node for present coordinates, IllegalState for missing ones |
| Graphs.MissingNodeThrowsWrongException | src/main/java/org/codefx/jwos/analysis/AnalysisGraph.java:76-82 | both lookups agree on present nodes; on every missing node the one as written throws IllegalArgument where IllegalState was meant |
| Graphs.AnalysisGraph.constructor | src/main/java/org/codefx/jwos/analysis/AnalysisGraph.java:36-39 | the new graph has no projects and no nodes |
| Graphs.AnalysisGraph.FromAnalyzed | src/main/java/org/codefx/jwos/analysis/AnalysisGraph.java:41-44 | the seeded graph is valid; every formerly analysed artifact has a node; an artifact whose coordinates no earlier artifact's tree holds gets the node `addAnalyzedArtifact` builds from it (analysis and resolution succeeded); and every node is for coordinates in one of the artifacts' trees |
| Graphs.AnalysisGraph.AddAllAnalyzed | src/main/java/org/codefx/jwos/analysis/AnalysisGraph.java:43-43 | `addAnalyzedArtifact` on each artifact in turn keeps the graph valid and seeds one more artifact per step |
| Graphs.SeededStep | src/main/java/org/codefx/jwos/analysis/AnalysisGraph.java:43-43 | one more `addAnalyzedArtifact` extends what the seeding has achieved to one more artifact and its tree |
| Graphs.AnalysisGraph.AddAnalyzedArtifact | src/main/java/org/codefx/jwos/analysis/AnalysisGraph.java:46-62 | nothing changes when a node exists for the coordinates; otherwise the dependees are added first and the artifact gets a node whose analysis and resolution succeeded, registered under its project; existing nodes stay as they were and only coordinates of the artifact's tree are added |
| Graphs.AnalysisGraph.RegisterArtifact | src/main/java/org/codefx/jwos/analysis/AnalysisGraph.java:92-97 | the existing node is reused or a fresh one created, and it is registered under its project |
| Graphs.AnalysisGraph.ResolvedVersions | src/main/java/org/codefx/jwos/analysis/AnalysisGraph.java:101-107 | every version gets a node, the existing one or a fresh one, registered under the resolved project; the old nodes are unchanged |
| Graphs.AnalysisGraph.RegisterVersion | src/main/java/org/codefx/jwos/analysis/AnalysisGraph.java:104-106 | one version gets its node, reused when it exists, and is registered under the project |
| Graphs.AnalysisGraph.UpdateDownload | src/main/java/org/codefx/jwos/analysis/AnalysisGraph.java:119-121 | the download task of an existing node takes the transition; a refused transition is IllegalState with nothing changed, and so is a missing node through the corrected lookup `Graphs.Existing` (as written IllegalArgument) |
| Graphs.AnalysisGraph.UpdateAnalysis | src/main/java/org/codefx/jwos/analysis/AnalysisGraph.java:123-125 | the analysis task of an existing node takes the transition; a refused transition is IllegalState with nothing changed, and so is a missing node through the corrected lookup `Graphs.Existing` (as written IllegalArgument) |
| Graphs.AnalysisGraph.UpdateResolution | src/main/java/org/codefx/jwos/analysis/AnalysisGraph.java:147-160 | queuing, starting and failing reach the node's dependee task unchanged; a refused transition is IllegalState with nothing changed, and so is a missing node through the corrected lookup `Graphs.Existing` (as written IllegalArgument) |
| Graphs.AnalysisGraph.ResolutionSucceeded | src/main/java/org/codefx/jwos/analysis/AnalysisGraph.java:162-170 | for an existing node every dependee is registered and records it as a dependent before the dependee task is succeeded, so the registrations stay even when the task refuses; a missing node is IllegalState through the corrected lookup `Graphs.Existing` (as written IllegalArgument) |
| Graphs.AnalysisGraph.RegisterDependees | src/main/java/org/codefx/jwos/analysis/AnalysisGraph.java:164-168 | every dependee is registered and gets the artifact as a dependent; the artifact's own tasks are unchanged |
| Graphs.AnalysisGraph.ResolutionResult | src/main/java/org/codefx/jwos/analysis/AnalysisGraph.java:177-183 | the result is the coordinates of the dependee nodes exactly when the node exists and its resolution succeeded, IllegalState otherwise (for a missing node through the corrected lookup `Graphs.Existing`; as written IllegalArgument) |
| Graphs.RegisterDependeesIn | src/main/java/org/codefx/jwos/analysis/AnalysisGraph.java:165-168 | the loop over the dependees registers each of them and records the artifact as its dependent, keeping the graph valid |
| Graphs.SubtreeCoordinates | src/main/java/org/codefx/jwos/analysis/AnalysisGraph.java:53-57 | a dependee's tree lies inside its dependent's tree, which bounds the recursion of `addAnalyzedArtifact` |
| Graphs.JarFileAsWritten | src/main/java/org/codefx/jwos/analysis/AnalysisGraphNode.java:60-63 | as written the getter never returns: IllegalState when a JAR is recorded, NoSuchElement when none is |
| Graphs.JarFile | src/main/java/org/codefx/jwos/analysis/AnalysisGraphNode.java:60-63 | as intended: the recorded JAR, or IllegalState before the download |
| Graphs.ViolationsOf | src/main/java/org/codefx/jwos/analysis/AnalysisGraphNode.java:75-78 | the recorded violations, or IllegalState before the analysis |
| Graphs.DependeesAsWritten | src/main/java/org/codefx/jwos/analysis/AnalysisGraphNode.java:92-95 | as written the guard checks the violations: it answers only when both violations and dependees are recorded, IllegalState without violations, NoSuchElement without dependees |
| Graphs.DependeesOf | src/main/java/org/codefx/jwos/analysis/AnalysisGraphNode.java:92-95 | as intended: the recorded dependees, or IllegalState before the resolution |
| Graphs.JarFileNeverReturned | src/main/java/org/codefx/jwos/analysis/AnalysisGraphNode.java:60-63 | a downloaded JAR is refused by the getter as written and returned by the intended one |
| Graphs.DependeesGuardedByViolations | src/main/java/org/codefx/jwos/analysis/AnalysisGraphNode.java:92-95 | a resolved node without violations is refused by the getter as written, and an analysed but unresolved node gets NoSuchElement in place of IllegalState |
| Graphs.DependeesAgreeWhenAnalysed | src/main/java/org/codefx/jwos/analysis/AnalysisGraphNode.java:92-95 | for an analysed node the two getters agree whenever either answers |
| Graphs.GraphNode.constructor | src/main/java/org/codefx/jwos/analysis/AnalysisGraphNode.java:31-39 | a fresh node has its coordinates, nothing recorded and no dependents |
| Graphs.GraphNode.Downloaded | src/main/java/org/codefx/jwos/analysis/AnalysisGraphNode.java:54-58 | the JAR is recorded once; a second call is IllegalState and changes nothing; nothing else changes |
| Graphs.GraphNode.Analyzed | src/main/java/org/codefx/jwos/analysis/AnalysisGraphNode.java:69-73 | the violations are recorded once; a second call is IllegalState and changes nothing |
| Graphs.GraphNode.Resolved | src/main/java/org/codefx/jwos/analysis/AnalysisGraphNode.java:84-90 | the dependees are recorded once and this node is added to the dependents of each of them; a second call is IllegalState and changes no node |
| ResultLines.MarkerOf | src/main/java/org/codefx/jwos/analysis/InternalDependencies.java:3-7 | `valueOf` returns the constant whose name is the text, and IllegalArgument exactly when no constant has that name |
| ResultLines.LastIndexOf | src/main/java/org/codefx/jwos/file/persistence/PersistentType.java:15-17 | the position of the last occurrence of the character, or none when it does not occur |
| ResultLines.TypeOf | src/main/java/org/codefx/jwos/file/persistence/PersistentType.java:15-17 | a fully qualified name is cut at its last '.', so the simple name holds no '.' |
| ResultLines.TypeOfRoundTrip | src/main/java/org/codefx/jwos/file/persistence/PersistentType.java:9-17 | a written type name reads back as the same type when its simple name has no '.' |
| ResultLines.ParseArtifactString | src/main/java/org/codefx/jwos/file/ResultFile.java:160-164 | the trimmed line's first " <> " piece split on ':' must have three pieces; fewer is IndexOutOfBounds |
| ResultLines.ParseMarkerString | src/main/java/org/codefx/jwos/file/ResultFile.java:166-169 | the second " <> " piece of the trimmed line, by name; a missing piece is IndexOutOfBounds and an unknown name IllegalArgument |
| ResultLines.ParseViolationLine | src/main/java/org/codefx/jwos/file/ResultFile.java:135-148 | IllegalArgument without the "\tv: " prefix; the dependent runs from the prefix to the first " -> " and the internal type from after it to the end; a missing separator is an out-of-bounds substring |
| ResultLines.ParseDependencyLine | src/main/java/org/codefx/jwos/file/ResultFile.java:150-158 | IllegalArgument without the "\td: " prefix; otherwise the coordinates and marker after the prefix, with no violations and no dependees |
| ResultLines.SplitOnce | src/main/java/org/codefx/jwos/file/ResultFile.java:161-161 | splitting a text on a separator that occurs once, and nowhere earlier, gives the two sides |
| ResultLines.SplitHeader | src/main/java/org/codefx/jwos/file/ResultFile.java:161-168 | a header text splits into its coordinates and its marker name |
| ResultLines.TrimDependencyLine | src/main/java/org/codefx/jwos/file/ResultFile.java:161-161 | trimming a dependee line drops only its tab |
| ResultLines.HeaderPieces | src/main/java/org/codefx/jwos/file/ResultFile.java:160-169 | a trimmed header line splits into its coordinates and its marker name, and it does not start with whitespace |
| ResultLines.HeaderRoundTrip | src/main/java/org/codefx/jwos/file/ResultFile.java:266-274 | a written header line reads back as the artifact's coordinates and marker and carries neither line prefix |
| ResultLines.DependencyLinePieces | src/main/java/org/codefx/jwos/file/ResultFile.java:160-169 | a trimmed dependee line splits into "d: " followed by the coordinates, and the marker name |
| ResultLines.DependencyLineRoundTrip | src/main/java/org/codefx/jwos/file/ResultFile.java:150-158 | a written dependee line reads back as the dependee's coordinates and marker with nothing else, and carries the dependee prefix only |
| ResultLines.ParseViolationText | src/main/java/org/codefx/jwos/file/ResultFile.java:135-148 | the two names of a violation line are cut at the first " -> " |
| ResultLines.ViolationLineRoundTrip | src/main/java/org/codefx/jwos/file/ResultFile.java:276-283 | a written violation line reads back as its dependent and internal type |
| ResultFiles.PairsOf | src/main/java/org/codefx/jwos/file/ResultFile.java:259-261 | one (dependent, internal type) pair per internal dependency of the violation, in order |
| ResultFiles.WriteViolation | src/main/java/org/codefx/jwos/file/ResultFile.java:260-261 | one violation line per internal dependency of the violation |
| ResultFiles.WriteViolations | src/main/java/org/codefx/jwos/file/ResultFile.java:259-261 | the violation lines of the artifact, violation after violation |
| ResultFiles.WriteArtifact | src/main/java/org/codefx/jwos/file/ResultFile.java:257-264 | the header line, then a violation line per internal dependency of each violation, then a line per dependee |
| ResultFiles.InternalsOfDependents | src/main/java/org/codefx/jwos/file/ResultFile.java:179-183 | every grouped dependent has at least one internal type |
| ResultFiles.GroupBuildsViolations | src/main/java/org/codefx/jwos/file/ResultFile.java:179-183 | each grouped violation is what `Violation.buildFor` makes of a dependent and the internal types recorded for it |
| ResultFiles.InternalsOfPairsAt | src/main/java/org/codefx/jwos/file/ResultFile.java:112-114 | the violation lines of a violation give back exactly its own internal types |
| ResultFiles.GroupPairs | src/main/java/org/codefx/jwos/file/ResultFile.java:112-114 | reading back the violation lines of readable violations rebuilds the same violations in the same order |
| ResultFiles.UniqueByCoordinatesSpec | src/main/java/org/codefx/jwos/file/ResultFile.java:185-185 | the dependees kept have distinct coordinates, come from the list and cover every coordinate in it |
| ResultFiles.ParseLine | src/main/java/org/codefx/jwos/file/ResultFile.java:112-126 | a line with the violation prefix is a violation pair, one with the dependee prefix a dependee stub, any other line the header of a new artifact |
| ResultFiles.ParsePreliminaryArtifacts | src/main/java/org/codefx/jwos/file/ResultFile.java:97-133 | the read loop yields `Preliminary(lines)`: the first parse error, or each artifact block under its coordinates |
| ResultFiles.PreliminaryOfWritten | src/main/java/org/codefx/jwos/file/ResultFile.java:97-133 | reading a written file gives each artifact's block back as one preliminary artifact under its coordinates |
| ResultFiles.LeadingViolationLinesDropped | src/main/java/org/codefx/jwos/file/ResultFile.java:111-130 | violation lines before the first header are read and then dropped |
| ResultFiles.Finalized | src/main/java/org/codefx/jwos/file/ResultFile.java:199-222 | with the artifacts being finalised further up the stack on the path: a preliminary artifact keeps its coordinates, marker and violations; coordinates without a preliminary artifact are a NullPointerException, and coming back to an artifact on the path is a StackOverflow, so a success is off the path |
| ResultFiles.FinalizedAll | src/main/java/org/codefx/jwos/file/ResultFile.java:206-211 | the dependees are finalised in order, with one result per dependee, or the first exception, a NullPointer or a StackOverflow |
| ResultFiles.FinalizedAllOk | src/main/java/org/codefx/jwos/file/ResultFile.java:206-211 | the dependees finalise together exactly when each finalises |
| ResultFiles.FinalizedAllValues | src/main/java/org/codefx/jwos/file/ResultFile.java:206-211 | each dependee finalises to its own finalised artifact |
| ResultFiles.FinalizedAllPrefix | src/main/java/org/codefx/jwos/file/ResultFile.java:206-211 | once a prefix of the dependees fails, the whole stream fails with the same exception |
| ResultFiles.FinalizedIffClosed | src/main/java/org/codefx/jwos/file/ResultFile.java:199-222 | every preliminary artifact can be finalised from the top of the recursion exactly when every dependee appears as an artifact of its own and no dependee cycle exists (a rank falls along every edge) |
| ResultFiles.FinalizedAllAlike | src/main/java/org/codefx/jwos/file/ResultFile.java:206-211 | dependees that finalise alike from two paths make the same stream |
| ResultFiles.FinalizedShorterPath | src/main/java/org/codefx/jwos/file/ResultFile.java:199-222 | an artifact that finalises keeps its finalised artifact with fewer artifacts on the path |
| ResultFiles.FinalizedAllErr | src/main/java/org/codefx/jwos/file/ResultFile.java:206-211 | a failing stream fails with the exception of one of its dependees |
| ResultFiles.ClosedNeverNull | src/main/java/org/codefx/jwos/file/ResultFile.java:204-206 | where every dependee has a preliminary artifact, finalising one never throws a NullPointerException, whatever the path |
| ResultFiles.RankedNeverOverflows | src/main/java/org/codefx/jwos/file/ResultFile.java:199-222 | where a rank falls along every edge and every artifact on the path outranks the artifact, finalising it never comes back to the path |
| ResultFiles.FinalizedEdge | src/main/java/org/codefx/jwos/file/ResultFile.java:206-211 | along an edge between artifacts that finalise, the dependee finalises to a tree less deep than the dependent's |
| ResultFiles.FinalizedFails | src/main/java/org/codefx/jwos/file/ResultFile.java:188-197 | an artifact that does not finalise means a missing dependee or a cycle; with every dependee present the failure is StackOverflow, and without a cycle it is NullPointer |
| ResultFiles.CycleOverflows | src/main/java/org/codefx/jwos/file/ResultFile.java:199-222 | two artifacts whose lines name each other as dependees: every dependee is present, no ranking exists, and finalising the first overflows the stack |
| ResultFiles.MemoAdd | src/main/java/org/codefx/jwos/file/ResultFile.java:212-218 | an artifact whose dependees are all memoised finalises alike from every path that avoids the memo and it, so it can join the memo |
| ResultFiles.MemoFinal | src/main/java/org/codefx/jwos/file/ResultFile.java:188-197 | the memo's artifacts are the finalisations from the top of the recursion |
| ResultFiles.FinalizeArtifacts | src/main/java/org/codefx/jwos/file/ResultFile.java:188-197 | succeeds exactly when every dependee appears as an artifact and no dependee cycle exists, and then holds for each preliminary artifact its finalisation from the top of the recursion; a failure is NullPointer or StackOverflow, StackOverflow whenever every dependee is present and NullPointer whenever no cycle exists |
| ResultFiles.SortArtifacts | src/main/java/org/codefx/jwos/file/ResultFile.java:224-228 | the result is ordered alphabetically by coordinates and holds exactly the finalised artifacts |
| ResultFiles.ReadFile | src/main/java/org/codefx/jwos/file/ResultFile.java:91-95 | a parse error is passed on; lines that parse read exactly when every dependee also appears as an artifact and no dependee cycle exists, and then give the finalised artifacts sorted; the failure is StackOverflow when every dependee is present and NullPointer when there is no cycle |
| ResultFiles.LoadedKeys | src/main/java/org/codefx/jwos/file/ResultFile.java:119-130 | loading puts exactly the artifacts' coordinates into the map |
| ResultFiles.LoadedKeeps | src/main/java/org/codefx/jwos/file/ResultFile.java:119-130 | loading keeps the entries whose coordinates it does not load |
| ResultFiles.LoadedAt | src/main/java/org/codefx/jwos/file/ResultFile.java:119-130 | with distinct coordinates, loading puts each artifact under its own coordinates |
| ResultFiles.FinalizedStubbed | src/main/java/org/codefx/jwos/file/ResultFile.java:199-222 | finalising the preliminary artifacts of a written self-contained set rebuilds every artifact as it was, dependee trees included, from any path of artifacts with deeper trees |
| ResultFiles.ReadBackStubbed | src/main/java/org/codefx/jwos/file/ResultFile.java:224-228 | a set sorted alphabetically holds each coordinates once, so the set read back is the written one |
| ResultFiles.ReadOfWritten | src/main/java/org/codefx/jwos/file/ResultFile.java:91-264 | writing a self-contained set and reading the lines back gives the same set: the lines parse, every dependee appears as an artifact, no dependee cycle exists, and the finalised, sorted artifacts are the written ones |
| ResultFiles.ResultFile.Empty | src/main/java/org/codefx/jwos/file/ResultFile.java:80-87 | no artifacts and a newly created empty file |
| ResultFiles.ResultFile.Holding | src/main/java/org/codefx/jwos/file/ResultFile.java:61-65 | the result file over a file and the set read from it |
| ResultFiles.ResultFile.Read | src/main/java/org/codefx/jwos/file/ResultFile.java:72-78 | the file's artifacts, read, finalised and sorted, with the errors of `readFile`: a parse error, NullPointer or StackOverflow |
| ResultFiles.ResultFile.AddArtifacts | src/main/java/org/codefx/jwos/file/ResultFile.java:232-238 | each artifact is added in turn, so one whose coordinates are already present leaves the set unchanged; the coordinates become the old ones plus the added ones |
| ResultFiles.ResultFile.Write | src/main/java/org/codefx/jwos/file/ResultFile.java:240-255 | the file is replaced by the blocks of the artifacts in the set's order; the set is unchanged |
| ResultFiles.FinalizeArtifactRecursively | src/main/java/org/codefx/jwos/file/ResultFile.java:199-222 | with the path as the artifacts being finalised further up the stack and a memo that avoids it: the memoised recursion returns exactly the specified finalisation of the artifact from that path, including StackOverflow on coming back to the path; every memo entry, old or new, is the finalisation of its key from any path that avoids the memo; a finalised artifact is memoised and the path never is |
| ResultFiles.FinalizeDependees | src/main/java/org/codefx/jwos/file/ResultFile.java:206-211 | the dependees are finalised in order through the shared memo: the first error, or every finalised dependee, as the specification says, and then every dependee is memoised |
| Bricks.CssClass | src/main/java/org/codefx/jwos/file/Brick.java:197-211 | each marker has its own three-letter class ending in "jd", starting with the marker's initial |
| Bricks.CssClassInjective | src/main/java/org/codefx/jwos/file/Brick.java:40-43 | different markers give different classes |
| Bricks.Text | src/main/java/org/codefx/jwos/file/Brick.java:31-38 | a row's text is never empty; exactly the table rows start with a tab, and exactly the opening and closing rows are the table tags |
| Bricks.TextFormats | src/main/java/org/codefx/jwos/file/Brick.java:97-104 | every row's text is what `String.format` makes of the row's template and the arguments it is handed: the templates are well formed and take as many arguments as they get |
| Bricks.DependeeLinkText | src/main/java/org/codefx/jwos/file/Brick.java:187-195 | a dependee's link points at its raw coordinates, the anchor its own dependent row sets, while the visible text has every ":" spaced out |
| Bricks.ViolationRowsOf | src/main/java/org/codefx/jwos/file/Brick.java:145-158 | the first internal type with the given template, every further one with `OTHER_VIOLATION_OF_MANY`, all beside the dependent's class name |
| Bricks.AnalysedViolationRows | src/main/java/org/codefx/jwos/file/Brick.java:136-143 | one violation row per internal dependency of each violation |
| Bricks.ViolationRowsAt | src/main/java/org/codefx/jwos/file/Brick.java:136-143 | within the rows of all violations, the rows of each violation come in order, opening with `FIRST_VIOLATION` for the first violation and with `OTHER_VIOLATION` for every later one |
| Bricks.ViolationRows | src/main/java/org/codefx/jwos/file/Brick.java:123-134 | the violations section holds only violation rows, or the failed-analysis row |
| Bricks.AnalysedDependeeRows | src/main/java/org/codefx/jwos/file/Brick.java:178-185 | one row per dependee in the set's order, the first with `FIRST_DEPENDEE` and every other with `OTHER_DEPENDEE` |
| Bricks.DependeeRows | src/main/java/org/codefx/jwos/file/Brick.java:165-176 | the dependees section holds only dependee rows, or the failed-resolution row |
| Bricks.ArtifactTableShape | src/main/java/org/codefx/jwos/file/Brick.java:110-121 | each table opens with its tag, names the dependent next with its coordinates as anchor and text, and closes with its tag; no other row opens or closes a table |
| Bricks.FailedAnalysisTable | src/main/java/org/codefx/jwos/file/Brick.java:123-134 | the table has a failed-analysis row exactly when the analysis failed, and then no violation row at all |
| Bricks.FailedResolutionTable | src/main/java/org/codefx/jwos/file/Brick.java:165-176 | the table has a failed-resolution row exactly when the resolution failed, and then no dependee row at all |
| Bricks.ArtifactLinesTags | src/main/java/org/codefx/jwos/file/Brick.java:110-116 | each artifact's table holds its opening tag and its closing tag exactly once |
| Bricks.TablesCount | src/main/java/org/codefx/jwos/file/Brick.java:106-108 | the tags open and close as many tables as there are artifacts |
| Bricks.PageTables | src/main/java/org/codefx/jwos/file/Brick.java:84-91 | the page opens and closes one table per artifact, as long as the front matter holds no table tag |
| Bricks.PageAsWrittenWithoutPercent | src/main/java/org/codefx/jwos/file/Brick.java:93-104 | formatting the front matter agrees with copying it while no line holds a `%` |
| Bricks.PageAsWrittenFails | src/main/java/org/codefx/jwos/file/Brick.java:93-104 | a front-matter line ending in `%` makes writing the page fail with UnknownFormatConversion |
| Bricks.PageAsWrittenUnescapes | src/main/java/org/codefx/jwos/file/Brick.java:93-104 | a doubled `%%` in the front matter is written as a single `%`, so the page no longer starts with its front matter |
| Bricks.Brick.Of | src/main/java/org/codefx/jwos/file/Brick.java:59-68 | the front matter read from its file, the post file as it is, and no artifacts yet |
| Bricks.Brick.AddArtifact | src/main/java/org/codefx/jwos/file/Brick.java:70-72 | the set stays ordered and gains the artifact's coordinates; an artifact whose coordinates are present already is not added again |
| Bricks.Brick.Write | src/main/java/org/codefx/jwos/file/Brick.java:74-91 | the post file is replaced by the front matter, copied verbatim as intended (not through `String.format` as written), followed by the tables of the artifacts in the set's order; the set is unchanged |
| Walls.RoutedMembers | src/main/java/org/codefx/jwos/file/Wall.java:59-61 | routing keeps exactly the artifacts whose transitive marker is the brick's |
| Walls.RoutedPartition | src/main/java/org/codefx/jwos/file/Wall.java:59-61 | every artifact goes to exactly one brick: the four routed sequences together hold each artifact as often as the input does |
| Walls.RoutedContents | src/main/java/org/codefx/jwos/file/Wall.java:59-61 | a brick filled one artifact at a time is sorted and holds the coordinates of every routed artifact |
| Walls.RouteAllRouted | src/main/java/org/codefx/jwos/file/Wall.java:42-53 | adding the artifacts one by one to empty bricks leaves in each brick the artifacts of its marker, in the order they came |
| Walls.WallContents | src/main/java/org/codefx/jwos/file/Wall.java:42-53 | each brick of a wall made from a sequence of artifacts is sorted and holds the coordinates of exactly the artifacts of its marker |
| Walls.Wall.Of | src/main/java/org/codefx/jwos/file/Wall.java:30-57 | a brick per marker made from its own front matter and post file, then each artifact added to the brick of its marker |
| Walls.Wall.AddArtifact | src/main/java/org/codefx/jwos/file/Wall.java:59-61 | the brick of the artifact's transitive marker adds it as a brick does, and no other brick changes |
| Walls.Wall.Write | src/main/java/org/codefx/jwos/file/Wall.java:63-67 | every brick's post file holds its page, with the front matter copied verbatim as intended; the contents are unchanged |
| WallsOfShame.TransitiveName | src/main/java/org/codefx/jwos/artifact/MarkTransitiveInternalDependencies.java:35-46 | a marker's name is non-empty and spans one line |
| WallsOfShame.TransitiveNameInjective | src/main/java/org/codefx/jwos/artifact/MarkTransitiveInternalDependencies.java:35-46 | different markers have different names |
| WallsOfShame.CommitMessageJoined | src/main/java/org/codefx/jwos/file/WallOfShame.java:85-90 | the message is the header and the bulleted entries joined by line breaks |
| WallsOfShame.EntryOneLine | src/main/java/org/codefx/jwos/file/WallOfShame.java:88-88 | no entry spans more than one line when the coordinates do not |
| WallsOfShame.CommitMessageLines | src/main/java/org/codefx/jwos/file/WallOfShame.java:85-90 | line by line, the message of a non-empty commit is the header, an empty line, one bulleted line per added artifact in the order added, and nothing after the last line break |
| WallsOfShame.CommitMessageNothingAdded | src/main/java/org/codefx/jwos/file/WallOfShame.java:85-90 | with nothing added the message still ends in an empty bullet |
| WallsOfShame.WallOfShame.OpenExistingDirectory | src/main/java/org/codefx/jwos/file/WallOfShame.java:46-54 | a wall of the given files with no artifacts, and nothing added since the last commit |
| WallsOfShame.WallOfShame.AddArtifacts | src/main/java/org/codefx/jwos/file/WallOfShame.java:63-69 | each artifact in turn is added to the wall and to the list for the next commit |
| WallsOfShame.WallOfShame.AddArtifact | src/main/java/org/codefx/jwos/file/WallOfShame.java:71-74 | the artifact is added to the wall and appended to the list for the next commit |
| WallsOfShame.WallOfShame.Write | src/main/java/org/codefx/jwos/file/WallOfShame.java:76-78 | every brick's post file holds its page, with the front matter copied verbatim as intended; the contents are unchanged |
| WallsOfShame.WallOfShame.Commit | src/main/java/org/codefx/jwos/file/WallOfShame.java:80-83 | the message is made from the artifacts added since the last commit, and the list is cleared exactly when the commit returned normally |
| Formats.Parse | src/main/java/org/codefx/jwos/file/Brick.java:97-104 | the template's conversions as `String.format` reads them; a `%` that starts none of the modelled conversions is UnknownFormatConversion |
| Formats.Render | src/main/java/org/codefx/jwos/file/Brick.java:97-104 | the conversions with their arguments substituted; a missing argument is MissingFormatArgument |
| Formats.FormatVerbatim | src/main/java/org/codefx/jwos/file/Brick.java:93-95 | a template without `%` formats to itself, whatever the arguments |
| Formats.OrdinaryArgument | src/main/java/org/codefx/jwos/file/Brick.java:31-38 | `%s` takes the next argument |
| Formats.MissingArgument | src/main/java/org/codefx/jwos/file/Brick.java:97-104 | `%s` with no argument left fails with MissingFormatArgument |
| Formats.ExplicitArgument | src/main/java/org/codefx/jwos/file/Brick.java:35-35 | `%<d>$s` takes argument d and leaves the next ordinary argument where it was |
| Formats.PercentEscape | src/main/java/org/codefx/jwos/file/Brick.java:97-104 | `%%` is a single percent sign |
| Formats.TrailingPercent | src/main/java/org/codefx/jwos/file/Brick.java:97-104 | a `%` at the very end of a template is UnknownFormatConversion |
| Formats.FormatSecond | src/main/java/org/codefx/jwos/file/Brick.java:35-35 | `%2$s` between plain text takes the second argument and ignores the first |

## Left out

- Strings are sequences of Unicode scalar values. Only `compareTo` is taken through UTF-16 code units (`Strings.Utf16`), because its order depends on them. `indexOf`, `substring`, `split` and `trim` count characters where Java counts code units; every separator they look for is made of characters below U+10000, so the pieces they cut are the same.
- File system effects: the temporary files, deletes, atomic moves and `Files.exists`/`isRegularFile` checks of the result file, the bricks and the project list file. A file is its sequence of lines, and writing replaces that sequence.
- The YAML text: the SnakeYAML reader and writer (`YamlPersister`) and the text paths of `YamlAnalysisPersistence`. Only the DTOs and their conversions to and from the domain values are modelled.
- External systems: Maven resolution, downloads, `jdeps` process execution and Git. `commitAll` enters `WallsOfShame.WallOfShame.Commit` as the `committed` parameter. `WallOfShame.push` and `openExistingDirectoryWithDefaults` touch only the Git remote and default paths, so they are not part of this model.
- Threads and blocking: the computation threads and the `Bookkeeping.run` sleep loop. `synchronized` and concurrent collections are modelled sequentially. A blocking `getTask` on an empty queue is excluded by a precondition.
- Task manager: the run loop, `updateState`, logging, and the seeded constructor are not part of this model.
- TaskManagers.TaskManager.GetNextToOutput: only takes the artifact from the output channel. `AnalysisGraph` has no `outputOf` in this revision, so there is no output task to start.
- TaskManagers.TaskManager.GetNextToResolveVersions: starts the version resolution held by the model's project nodes (`TaskManagers.ProjectNodes`), because `AnalysisGraph` has no `versionResolutionOf` in this revision.
- Graphs.AnalysisGraph.UpdateDownload: uses the corrected lookup `Graphs.Existing`, so a missing node is IllegalState; the lookup as written throws IllegalArgument (`Graphs.ExistingAsWritten`, see Findings).
- Graphs.AnalysisGraph.UpdateAnalysis: uses the corrected lookup `Graphs.Existing`, so a missing node is IllegalState; as written it is IllegalArgument.
- Graphs.AnalysisGraph.UpdateResolution: uses the corrected lookup `Graphs.Existing`, so a missing node is IllegalState; as written it is IllegalArgument.
- Graphs.AnalysisGraph.ResolutionSucceeded: uses the corrected lookup `Graphs.Existing`, so a missing node is IllegalState; as written it is IllegalArgument.
- Graphs.AnalysisGraph.ResolutionResult: uses the corrected lookup `Graphs.Existing`, so a missing node is IllegalState; as written it is IllegalArgument.
- TaskManagers.Apply: a change for a missing node is IllegalState, as with the corrected lookup `Graphs.Existing`; as written it is IllegalArgument.
- TaskManagers.ResolutionSucceeded: a missing node is IllegalState, as with the corrected lookup `Graphs.Existing`; as written it is IllegalArgument.
- TaskManagers.StartMeaning: a missing node is IllegalState, as with the corrected lookup `Graphs.Existing`; as written it is IllegalArgument.
- Bricks.Brick.Write: writes the page with the front matter copied verbatim (the corrected `Bricks.PageTables`). As written, Brick.java:93-104 passes each front-matter line through `String.format`, which fails on a lone `%` and unescapes `%%` (`Bricks.PageAsWrittenFails`, see Findings).
- Walls.Wall.Write: every brick's page is the corrected one of `Bricks.Brick.Write`, with the front matter copied verbatim.
- WallsOfShame.WallOfShame.Write: every brick's page is the corrected one of `Bricks.Brick.Write`, with the front matter copied verbatim.
- Persistence.ListOrEmpty: reads an absent list as empty. The persistent DTOs call `Util.transformToImmutableSet` on lists that may be null, but `Util.java` of this revision does not define it, so the model assumes it turns null into the empty set.
- The output channel of `PersistenceChannels.PersistenceAnalysisTaskChannels` carries `CompletedArtifact`s. PersistenceAnalysisTaskChannels.java:31,38 declares `TaskChannel<DeeplyAnalyzedArtifact, Void, Void>`, yet line 106 hands its tasks to `addResult(CompletedArtifact)`, which does not type-check; the model follows the use.
- Logging and exception message text: an exception is its class and its optional message.
- Null checks in constructors (`Objects.requireNonNull`) are excluded by the types. A null that the code itself produces is modelled as a `NullPointer` error.
- `hashCode`: Dafny's structural equality stands in for `equals` and `hashCode`.
- Hash iteration orders (`HashSet`, `HashMap` key sets, `HashMultimap` keys) become a nondeterministic choice or first appearance.
- ResultFiles.GroupPairs and ResultFiles.ReadOfWritten: they take the `HashMultimap` key order of ResultFile.java:171-183 to be first-appearance order, so their sequence equalities hold for that chosen order. Java fixes the order only up to the set of keys, so for Java they hold up to reordering.
- Finalized (and FinalizedAll, FinalizeArtifactRecursively, FinalizeDependees, FinalizeArtifacts, ReadFile, ResultFile.Read, which follow it): StackOverflow is modelled for a dependee cycle only. An acyclic chain of dependees deep enough to exhaust the Java stack is not modelled, because the model's recursion has no depth limit.
- `Type` and `InternalType` are not part of this model. They are modelled as (package, class) pairs ordered field by field.
- `org/codefx/jwos/artifact/ArtifactCoordinates.java` (with its `project()`) is not part of this model; `Graphs.ProjectOf` takes the project to be the artifact's groupId and artifactId, as `ProjectCoordinates.from(groupId, artifactId)` and the Maven-side `ArtifactCoordinates` suggest.
- `String.format` is modelled only for the conversions the program uses: `%s`, `%<n>$s`, `%%` and `%n`. Other conversions are reported as an unknown format conversion.
- Walls.Wall.Write is unrolled over the four bricks in the enum map's order instead of iterating the map.
- The `analysis/state` package, a stale copy of the task states that does not compile, is left out. `AnalysisGraph` calls methods that `AnalysisNode` lacks in this revision, so its nodes are modelled over the task states of `analysis/task`.
- The older `analysis/TaskChannel.java` and `analysis/Channel.java` behave like the simple channel, and the model has no separate classes for them. `analysis/TaskChannel.java` keeps its task name, so its three constructors are `Channels.NamedAndUnbounded`, `Channels.NamedAndBounded` and `Channels.NamedAndBoundedSeparately`. `analysis/Channel.java` has no name, so its constructors are `Channels.Unnamed`. Both use the simple channel's operations and lemmas; their `sendResult`/`addResult` and `sendError`/`addError` are `SendResult` and `SendError`.
- Violations.ViolationString: the contract fixes the prefix and the closing brace only. The text between the braces, the internal dependencies' names joined with ", ", is not stated.
- Channels.NamedAndBounded: the capacity is a `nat`. Java takes an `int`, and a negative capacity makes `ArrayBlockingQueue` throw IllegalArgumentException; that error path is not modelled.
- Channels.NamedAndBoundedSeparately: the capacities are `nat`s. A negative one would make Java's `ArrayBlockingQueue` throw IllegalArgumentException, which is not modelled.
- Channels.Unnamed: the capacities are `nat`s. A negative one would make Java's `ArrayBlockingQueue` throw IllegalArgumentException, which is not modelled.
- `PersistentResolvedProject` calls a `toArtifactsWithVersions` overload that does not exist, and the remaining persistent DTOs hold plain lists or paths, so they are left out.
- The unused instance cache in `PersistentCompletedArtifact` is left out: the model shares no instances.
- `site.js`, the browser-side scrolling of the rendered wall, is left out.

## Findings

| source | as written | input that shows it | evidently intended | confidence | as-written member | corrected member |
|---|---|---|---|---|---|---|
| src/main/java/org/codefx/jwos/file/persistence/PersistentCompletedArtifact.java:26-52 | `from` stores only `getMessage()` of a failed analysis, and `toArtifact` takes a null message to mean success | an artifact whose analysis failed with an exception without a message: it is saved with neither message nor violations, and loads as analysed with no violations, so UNKNOWN becomes NONE | a failure is saved so that it loads as a failure | not executed | Persistence.AsWrittenLosesMessagelessFailure | Persistence.CorrectedKeepsMessagelessFailure |
| src/main/java/org/codefx/jwos/analysis/AnalysisTaskManager.java:168-173 | `readyToFinish` (lines 204-208) looks only at the node's own analysis and resolution | a node that is analysed and resolved but has a dependee that was never analysed: it is picked, and finishing it reads the dependee's missing result | finish a node only when its dependees are finished or finishable | not executed | TaskManagers.ReadyButNotFinishable | TaskManagers.FinishReadyAfterDependees |
| src/main/java/org/codefx/jwos/file/Brick.java:93-104 | each front-matter line is passed to `String.format` as the format string | the front-matter line `width: 100%` makes the write fail, and `100%%` is written as `100%` | front matter is copied verbatim | not executed | Bricks.PageAsWrittenFails | Bricks.PageTables |
| src/main/java/org/codefx/jwos/analysis/AnalysisGraphNode.java:60-63 | `jarFile()` calls `throwIfPresent` | a node whose JAR was downloaded: the getter throws instead of returning the path | throw only while no JAR is present | not executed | Graphs.JarFileNeverReturned | Graphs.JarFile |
| src/main/java/org/codefx/jwos/analysis/AnalysisGraphNode.java:92-95 | `dependees()` checks `violations` instead of `dependees` | a node that is resolved but not analysed: the getter throws; a node that is analysed but not resolved gets `NoSuchElementException` | check that the dependees are present | not executed | Graphs.DependeesGuardedByViolations | Graphs.DependeesOf |
| src/main/java/org/codefx/jwos/analysis/AnalysisGraph.java:76-82 | the message "node for % but" has `% b` as a conversion | any artifact without a node: formatting the message throws `IllegalArgumentException` instead of the intended `IllegalStateException` | "node for %s but", so the `IllegalStateException` is thrown | not executed | Graphs.MissingNodeThrowsWrongException | Graphs.Existing |
