# basis-build-helper-maven-plugin, modelled in Dafny

This project models the three goals of the Basis build helper Maven plugin, with proofs
about each. Two of them prepare a bundle set for packaging, and `osgi-version` computes a
version property for the build.

- **`collect-bundles`** (`RosapiBundleCollectorMojo`). It reads one or more bundle lists,
  resolves every listed bundle to a Maven artifact and copies each artifact once. A bundle
  listed more than once is merged at the lowest start level it was given. The goal then
  writes `bundles.xml`, one `<level>` per start level in ascending order.
- **`repackage-karaf-features`** (`KarafFeatureConverterMojo`). It reads Karaf
  `features.xml` files and selects features, either by a wanted list that is crossed off as
  names are found or by include/exclude sets. It copies the bundles of the selected
  features and writes `bundles.xml` the same way.
- **`osgi-version`** (`OsgiVersionMojo`). It turns the project's Maven version into an OSGi
  version, adds a timestamp qualifier to snapshots (or on request), and stores the result
  in a project property.

The value classes behind the goals are modelled as well: `BundlesInfo`, `BundleSpec`,
`ArtifactId` and `KarafBundleCoordinates`.

Modules, one per file:

| file | module | models |
|---|---|---|
| `java_lang.dfy` | `JavaLang` | what the code relies on from `java.lang`: `String.split`, `Integer.parseInt`/`toString`, `Boolean.parseBoolean`, `String.hashCode`, 32-bit wrap-around, `TreeMap` key order |
| `maven.dfy` | `Maven` | artifacts, files, jars and manifests; the exception classes; the ordered reactor search and the dependency-version lookup shared by the two bundle goals |
| `bundles_info.dfy` | `BundlesInfo` | `BundlesInfo.read` as a pull parser over StAX events, followed by the stable sort of the levels |
| `bundle_spec.dfy` | `BundleSpecs` | `BundleSpec` with `equals`, `hashCode` and `toString` |
| `artifact_id.dfy` | `ArtifactIds` | `ArtifactId`: its constructors and `matches` |
| `karaf_coordinates.dfy` | `KarafCoordinates` | the `mvn:` location parser |
| `collector.dfy` | `BundleCollector` | `collect-bundles`: the two maps of `processInputs` as a class (`Aggregator`), `processBundle`, `getArtifact`, `isJarFragment`, `copyFile`, `writeMetadata` |
| `collector_proofs.dfy` | `CollectorProperties` | the bookkeeping invariant of the two maps, the laws of repeat and first sightings, the minimum-level law of a whole run, and reading a document twice |
| `feature_converter.dfy` | `KarafFeatureConverter` | `repackage-karaf-features`: the mojo's three fields as a class (`Converter`), feature selection, bundle accumulation, the missing-feature check |
| `osgi_version.dfy` | `OsgiVersion` | the two version patterns as hand-written recognisers, the conversion, the property update, and the timestamp format |

## How the state is modelled

Each mutating method of the source is a method of a Dafny class over the same fields.

**Collector.** The class `BundleCollector.Aggregator` holds three fields:
- `bundlesByGav`, a map;
- `bundlesByLevel`, a map from level to a sequence;
- a ghost log of the copies made.

Each method ensures that its new state, together with any exception it throws, is what a
specification function gives for the old state: `Step` for one bundle, then `RunBundles`,
`RunLevels` and `RunFiles` for the three nested loops. Those functions are folds over the
input, in input order. The properties of the process are proved about the functions.

**Karaf converter.** `KarafFeatureConverter.Converter` follows the same pattern:
- the fields `features`, `accumulatedBundles` and `bundlesProcessed`, plus a ghost copy log;
- the specification functions `Accept`, `AddBundle` (with `Admit` for its part after resolution), `RunFeature`, `RunFeatures` and `RunFiles`.

**OSGi version.** `OsgiVersion.Project` holds the version and the property map.

**Exceptions.** An exception is a `Maven.Failure`, which records its class and its cause:
- `ExecutionException` is `MojoExecutionException`;
- `FailureException` is `MojoFailureException`;
- `RuntimeException` stands for the unchecked exceptions the code lets escape, such as a
  `NullPointerException`, an `ArrayIndexOutOfBoundsException` or a
  `NumberFormatException`.

The build's collaborators are parameters of the operations:
- the project's dependencies and the reactor;
- the version-range check;
- the artifact resolver;
- the `${...}` interpolator;
- the bundle filter;
- the clock.

## Behaviour worth knowing

The model follows the code in each of these places, where a reader might expect
something else.

- **A repeat is always relocated.** A bundle seen again at the same or a higher level keeps
  its recorded level, but the code still removes the prior spec from its list and appends it
  to the end again. That moves it behind bundles listed after it (`RepeatRelocates`).
  So a document given twice records the same specs and copies nothing more
  (`ReadTwiceSameSpecs`), but the order within a level's list can change. A list
  emptied by a relocation to a lower level stays, and is written as an empty `<level>`.
- **Levels are sorted on reading.** `read` stably sorts a document's levels by level, so
  they are processed in ascending order, and equal levels keep document order
  (`StableSortFacts`).
- **An empty `Fragment-Host` is a fragment.** The code counts any value of the header,
  the empty string included (`IsJarFragment`).
- **A bad level attribute is not a read error.** A `level` attribute that is missing or is
  not an `int` escapes `read` as a `NumberFormatException`, which is not an `IOException`.
  It is therefore not turned into the "Unable to read" `MojoFailureException`
  (`BundleCollector.ReadFailure`, `LevelNotANumber`).
- **Only a `MojoExecutionException` is skipped.** With "skip missing artifacts" on, the code
  skips only a `MojoExecutionException` from `getArtifact`. These stay fatal even in skip
  mode:
  - a `-dependency-` version with no matching dependency (a `MojoFailureException`);
  - a malformed locator;
  - a copy failure;
  - a failure of the manifest check.

  `SkipStopsOnlyOnBadRequests` states the first two.
- **The Karaf duplicate check never fires.** Nothing ever adds to `bundlesProcessed`, so
  its duplicate check never skips a bundle. A bundle listed twice is copied twice and
  listed twice (`ProcessedStaysEmpty`, `DuplicateListedTwice`).

## Model

| member | source | states |
|---|---|---|
| JavaLang.SplitAll | src/main/java/com/basistech/bbhmp/ArtifactId.java:58 | `split(":", -1)`: at least one piece; no piece holds the separator; one piece exactly when the separator does not occur |
| JavaLang.JoinSplitAll | src/main/java/com/basistech/bbhmp/ArtifactId.java:58 | splitting the join of separator-free pieces gives the pieces back, trailing empty ones included |
| JavaLang.SplitAllJoin | src/main/java/com/basistech/bbhmp/ArtifactId.java:58 | joining the pieces of a split gives the original string back |
| JavaLang.Split | src/main/java/com/basistech/bbhmp/KarafBundleCoordinates.java:37 | `split("/")`: no piece holds the separator |
| JavaLang.StripTrailingEmpty | src/main/java/com/basistech/bbhmp/KarafBundleCoordinates.java:37 | `split` without a limit drops exactly the trailing empty pieces; what is left is a prefix and does not end in an empty piece |
| JavaLang.JoinSplit | src/main/java/com/basistech/bbhmp/KarafBundleCoordinates.java:37 | splitting the join of two or more separator-free pieces, the last non-empty, gives the pieces back |
| JavaLang.ParseInt | src/main/java/com/basistech/bbhmp/BundlesInfo.java:54 | `Integer.parseInt` succeeds only with a value in the `int` range |
| JavaLang.ParseIntToString | src/main/java/com/basistech/bbhmp/BundlesInfo.java:54 | `parseInt(Integer.toString(n)) == n` on every `int` |
| JavaLang.StringHashCode | src/main/java/com/basistech/bbhmp/BundleSpec.java:53 | `String.hashCode` is an `int`, and 0 for the empty string |
| JavaLang.Wrap32 | src/main/java/com/basistech/bbhmp/BundleSpec.java:53 | Java `int` arithmetic: the result is an `int` congruent to its argument modulo 2^32, and an `int` stays as it is |
| JavaLang.WrapMulAdd | src/main/java/com/basistech/bbhmp/BundleSpec.java:53 | wrapping an intermediate `31 * h + x` step does not change the final wrap |
| JavaLang.SortedKeys | src/main/java/com/basistech/bbhmp/RosapiBundleCollectorMojo.java:174 | `TreeMap` key order: strictly ascending, with exactly the keys of the map |
| Maven.FirstMatchIsFirst | src/main/java/com/basistech/bbhmp/RosapiBundleCollectorMojo.java:409-434 | the reactor search returns the usable candidate of smallest index, and nothing exactly when no candidate is usable (same coordinates under null-safe `equals`, with a regular file) |
| Maven.FirstMatchAppend | src/main/java/com/basistech/bbhmp/RosapiBundleCollectorMojo.java:409-434 | dependencies are searched before the reactor: a match in an earlier list wins |
| Maven.FindIn | src/main/java/com/basistech/bbhmp/RosapiBundleCollectorMojo.java:411-415 | the early-return loop returns the first usable artifact of its list |
| Maven.FindInReactor | src/main/java/com/basistech/bbhmp/RosapiBundleCollectorMojo.java:409-434 | `getArtifactFomReactor` returns the first usable one of dependencies, then each reactor project's main and attached artifacts (none for a null reactor) |
| Maven.DependencyVersionIsFirst | src/main/java/com/basistech/bbhmp/RosapiBundleCollectorMojo.java:336-344 | the result is the version of the first dependency with that group and artifact: a returned version is that dependency's, the first such dependency's version is returned, and none comes back when there is no such dependency |
| Maven.FindDependencyVersion | src/main/java/com/basistech/bbhmp/RosapiBundleCollectorMojo.java:336-344 | the loop returns the version of the first dependency with the same group and artifact, or null |
| Maven.Resolve | src/main/java/com/basistech/bbhmp/RosapiBundleCollectorMojo.java:374-397 | the range check, reactor search and resolver steps shared by both `getArtifact` methods (KarafFeatureConverterMojo.java:344-367) give exactly `ResolveArtifact` |
| Maven.ResolvedHasRequestedCoordinates | src/main/java/com/basistech/bbhmp/RosapiBundleCollectorMojo.java:374-399 | a resolved artifact carries the requested group, artifact, type `jar` and classifier, and a file; its version is the requested one or the one the resolver sets, and the requested one whenever the reactor supplies the artifact; every resolution failure is a `MojoExecutionException` |
| BundlesInfo.NextTag | src/main/java/com/basistech/bbhmp/BundlesInfo.java:50-52 | `nextTag` returns the first event that is not whitespace, a comment or a processing instruction, provided it is a tag; anything else is an error |
| BundlesInfo.SkippedBeforeTag | src/main/java/com/basistech/bbhmp/BundlesInfo.java:50-52 | whitespace, comments and processing instructions before a tag are passed over |
| BundlesInfo.ReadLevelBundles | src/main/java/com/basistech/bbhmp/BundlesInfo.java:55-71 | the inner loop gives exactly the result of the bundle grammar over the remaining events |
| BundlesInfo.Read | src/main/java/com/basistech/bbhmp/BundlesInfo.java:43-91 | `read` gives exactly the specified result: the grammar's errors, or its levels stably sorted |
| BundlesInfo.StableSortFacts | src/main/java/com/basistech/bbhmp/BundlesInfo.java:84-89 | the sort output is sorted by level, a permutation of its input, and keeps the groups of each level in input order |
| BundlesInfo.AnyStableSortIsStableSort | src/main/java/com/basistech/bbhmp/BundlesInfo.java:84-89 | any sorted sequence with the same per-level subsequences is the sort's output, so the result is determined |
| BundlesInfo.SortedDeterminedByLevels | src/main/java/com/basistech/bbhmp/BundlesInfo.java:84-89 | two level-sorted sequences with the same per-level subsequences are equal |
| BundlesInfo.InsertByLevelStable | src/main/java/com/basistech/bbhmp/BundlesInfo.java:84-89 | one insertion step keeps each level's groups in arrival order |
| BundlesInfo.ReadDocumentOf | src/main/java/com/basistech/bbhmp/BundlesInfo.java:43-91 | reading the document of any groups with `int` levels (repeated levels included) gives those groups back, stably sorted; a bundle marked `noStart="true"` reads back as not started |
| BundlesInfo.ReadBundlesEvents | src/main/java/com/basistech/bbhmp/BundlesInfo.java:55-71 | the bundles of a level come back in document order |
| BundlesInfo.ReadLevelsEvents | src/main/java/com/basistech/bbhmp/BundlesInfo.java:52-74 | repeated levels stay separate groups, in document order, before sorting |
| BundlesInfo.RootMustBeBundles | src/main/java/com/basistech/bbhmp/BundlesInfo.java:50-51 | a first tag other than `<bundles>` is an XML error |
| BundlesInfo.OnlyLevelsInBundles | src/main/java/com/basistech/bbhmp/BundlesInfo.java:53 | an element other than `level` inside `bundles` is an XML error |
| BundlesInfo.OnlyBundlesInLevel | src/main/java/com/basistech/bbhmp/BundlesInfo.java:57 | an element other than `bundle` inside `level` is an XML error |
| BundlesInfo.LevelNotANumber | src/main/java/com/basistech/bbhmp/BundlesInfo.java:54 | a `level` attribute that is missing or not an `int` is a number-format error |
| BundlesInfo.BundleWithoutText | src/main/java/com/basistech/bbhmp/BundlesInfo.java:59-62 | a `bundle` whose next event is not text has no bundle text, an `IOException` |
| BundlesInfo.OneBundle | src/main/java/com/basistech/bbhmp/BundlesInfo.java:52-76 | the one-bundle document reads as one level with one bundle whose start flag is `!parseBoolean(noStart)` |
| BundleSpecs.Equals | src/main/java/com/basistech/bbhmp/BundleSpec.java:37-49 | `equals` holds exactly for another `BundleSpec` with equal gav, level, start and filename; it is false for null and for other classes |
| BundleSpecs.EqualsIsEquivalence | src/main/java/com/basistech/bbhmp/BundleSpec.java:37-49 | `equals` is reflexive, symmetric and transitive |
| BundleSpecs.HashCode | src/main/java/com/basistech/bbhmp/BundleSpec.java:51-54 | `Objects.hash(gav, level, start, filename)` is the base-31 polynomial over the four field hashes, starting from 1, reduced to a 32-bit `int` |
| BundleSpecs.EqualSpecsHashAlike | src/main/java/com/basistech/bbhmp/BundleSpec.java:44-54 | equal specs have equal hash codes |
| BundleSpecs.FromStringToString | src/main/java/com/basistech/bbhmp/BundleSpec.java:56-65 | `toString` can be read back to the spec when the gav holds no quote |
| BundleSpecs.ToStringInjective | src/main/java/com/basistech/bbhmp/BundleSpec.java:56-65 | hence two different specs with quote-free gavs print differently |
| ArtifactIds.FromFields | src/main/java/com/basistech/bbhmp/ArtifactId.java:47-53 | each null field becomes "", and each present field is kept |
| ArtifactIds.FromArtifact | src/main/java/com/basistech/bbhmp/ArtifactId.java:43-45 | the artifact's five coordinates, with "" for each missing one |
| ArtifactIds.Tokens | src/main/java/com/basistech/bbhmp/ArtifactId.java:56-59 | no pieces for a null or empty id; otherwise pieces that join back to the id |
| ArtifactIds.Parse | src/main/java/com/basistech/bbhmp/ArtifactId.java:55-65 | the field assignment of the string constructor, token count by token count |
| ArtifactIds.ParseToPattern | src/main/java/com/basistech/bbhmp/ArtifactId.java:55-65 | the five-piece pattern of a colon-free id parses back to that id, empty fields included |
| ArtifactIds.ParseIgnoresExtraPieces | src/main/java/com/basistech/bbhmp/ArtifactId.java:64 | pieces after the fifth are ignored |
| ArtifactIds.ParseThreePieces | src/main/java/com/basistech/bbhmp/ArtifactId.java:62-63 | with three pieces the third is the classifier, and the type is `*` |
| ArtifactIds.ParseTwoPieces | src/main/java/com/basistech/bbhmp/ArtifactId.java:60-64 | `g:a` leaves type, classifier and version `*` |
| ArtifactIds.ParseGroupOnly | src/main/java/com/basistech/bbhmp/ArtifactId.java:60-64 | a bare group leaves the other four fields `*` |
| ArtifactIds.ParseNullOrEmpty | src/main/java/com/basistech/bbhmp/ArtifactId.java:56-65 | a null or empty id gives group "" and `*` for the other four fields |
| ArtifactIds.Matches | src/main/java/com/basistech/bbhmp/ArtifactId.java:87-108 | false for a null pattern; otherwise true exactly when all five fields match their pattern fields |
| ArtifactIds.MatchesOwnPattern | src/main/java/com/basistech/bbhmp/ArtifactId.java:87-104 | with a matcher where `*` matches anything and any other pattern field only itself, a parsed pattern matches exactly the ids that agree on every field that is not `*` |
| ArtifactIds.MatchesGroupArtifact | src/main/java/com/basistech/bbhmp/ArtifactId.java:87-104 | a `g:a` pattern constrains only group and artifact |
| KarafCoordinates.Parse | src/main/java/com/basistech/bbhmp/KarafBundleCoordinates.java:33-52 | not `mvn:`: an `IllegalArgumentException`; fewer than 3 pieces: a `MojoFailureException`; 5 or more with a type other than `jar`: a `MojoFailureException`; otherwise pieces 0 to 2 are group, artifact and version, and piece 4 is the classifier when there are 5 or more |
| KarafCoordinates.ParseToUri | src/main/java/com/basistech/bbhmp/KarafBundleCoordinates.java:33-52 | the location naming any representable coordinates parses back to them |
| KarafCoordinates.FourPiecesIgnoreType | src/main/java/com/basistech/bbhmp/KarafBundleCoordinates.java:44-51 | with four pieces the fourth is not checked, and there is no classifier |
| KarafCoordinates.NonJarRefused | src/main/java/com/basistech/bbhmp/KarafBundleCoordinates.java:44-47 | a five-piece location whose type is not `jar` is refused |
| KarafCoordinates.TrailingEmptyPiecesDropped | src/main/java/com/basistech/bbhmp/KarafBundleCoordinates.java:37-40 | `mvn:g/a/` has only two pieces and is refused |
| BundleCollector.ParseLocator | src/main/java/com/basistech/bbhmp/RosapiBundleCollectorMojo.java:354-365 | fewer than 3 pieces is an unchecked index error; otherwise group and artifact are pieces 0 and 1, and there is no classifier exactly when there are 3 pieces; the version is piece 2 with 3 pieces and piece 3 otherwise, and the classifier is piece 2 with 4 or more pieces, later pieces being ignored |
| BundleCollector.ParseLocatorText | src/main/java/com/basistech/bbhmp/RosapiBundleCollectorMojo.java:355-365 | the text of any writable locator parses back to it, with and without a classifier |
| BundleCollector.GetArtifact | src/main/java/com/basistech/bbhmp/RosapiBundleCollectorMojo.java:346-400 | the method gives exactly the specified `getArtifact` outcome |
| BundleCollector.CopyFile | src/main/java/com/basistech/bbhmp/RosapiBundleCollectorMojo.java:321-333 | a copy succeeds exactly for a regular file and keeps that file; a null file is a `NullPointerException`; a directory or a missing file is a `MojoExecutionException` |
| BundleCollector.IsJarFragment | src/main/java/com/basistech/bbhmp/RosapiBundleCollectorMojo.java:261-287 | succeeds exactly when the jar opens, has a manifest and `Bundle-ManifestVersion` is `2`; then the bundle is a fragment exactly when `Fragment-Host` is present; each failure has its own exception class |
| BundleCollector.RemoveFirst | src/main/java/com/basistech/bbhmp/RosapiBundleCollectorMojo.java:238 | `List.remove(Object)` takes away one occurrence, and nothing when there is none |
| BundleCollector.RemoveFirstAt | src/main/java/com/basistech/bbhmp/RosapiBundleCollectorMojo.java:238 | the element taken away is the first occurrence, and the others keep their order |
| BundleCollector.RemoveThenPut | src/main/java/com/basistech/bbhmp/RosapiBundleCollectorMojo.java:239-251 | `remove(gav)` followed by `put(gav, spec)` is `put(gav, spec)` |
| BundleCollector.Aggregator.constructor | src/main/java/com/basistech/bbhmp/RosapiBundleCollectorMojo.java:173-174 | both maps start empty, and no copy has been made |
| BundleCollector.Aggregator.ProcessBundle | src/main/java/com/basistech/bbhmp/RosapiBundleCollectorMojo.java:200-259 | the new maps, the copies and the exception are exactly those of `Step` for the old state |
| BundleCollector.Aggregator.ProcessLevel | src/main/java/com/basistech/bbhmp/RosapiBundleCollectorMojo.java:190-192 | the bundles of one level, in list order, stopping at the first exception |
| BundleCollector.Aggregator.ProcessLevels | src/main/java/com/basistech/bbhmp/RosapiBundleCollectorMojo.java:189-193 | the levels of one file, in the order `read` returns them |
| BundleCollector.BundlesHaltStays | src/main/java/com/basistech/bbhmp/RosapiBundleCollectorMojo.java:190-192 | once a bundle throws, the later bundles change nothing |
| BundleCollector.LevelsHaltStays | src/main/java/com/basistech/bbhmp/RosapiBundleCollectorMojo.java:189-193 | once a level throws, the later levels change nothing |
| BundleCollector.FilesHaltStays | src/main/java/com/basistech/bbhmp/RosapiBundleCollectorMojo.java:182-194 | once a file throws, the later files change nothing |
| BundleCollector.Outputs | src/main/java/com/basistech/bbhmp/RosapiBundleCollectorMojo.java:302-307 | one `<bundle>` per spec, in list order, with its start flag and file name |
| BundleCollector.Metadata | src/main/java/com/basistech/bbhmp/RosapiBundleCollectorMojo.java:299-309 | the written levels are strictly ascending, are exactly the map's keys (emptied lists included), and each carries its list in order |
| BundleCollector.WriteMetadata | src/main/java/com/basistech/bbhmp/RosapiBundleCollectorMojo.java:289-319 | the method writes exactly `Metadata` of the level map |
| BundleCollector.WriteLevels | src/main/java/com/basistech/bbhmp/RosapiBundleCollectorMojo.java:299-309 | the outer write loop emits one `<level>` per key, in the given order |
| BundleCollector.WriteLevel | src/main/java/com/basistech/bbhmp/RosapiBundleCollectorMojo.java:302-307 | the inner write loop emits the level's bundles in list order |
| BundleCollector.ProcessInputs | src/main/java/com/basistech/bbhmp/RosapiBundleCollectorMojo.java:171-197 | the triple loop followed by the write gives exactly `Collect`: no files is a `MojoFailureException`, and the first exception ends the run |
| CollectorProperties.EmptyIsConsistent | src/main/java/com/basistech/bbhmp/RosapiBundleCollectorMojo.java:173-174 | the empty maps satisfy the bookkeeping invariant |
| CollectorProperties.UnlistIsConsistentBut | src/main/java/com/basistech/bbhmp/RosapiBundleCollectorMojo.java:238-239 | taking the prior spec out of its level's list leaves its identity listed nowhere and everything else consistent |
| CollectorProperties.RecordIsListedAndRecorded | src/main/java/com/basistech/bbhmp/RosapiBundleCollectorMojo.java:250-258 | recording a spec whose identity is listed nowhere restores the invariant |
| CollectorProperties.RepeatKeepsConsistent | src/main/java/com/basistech/bbhmp/RosapiBundleCollectorMojo.java:232-258 | a repeat sighting keeps the invariant |
| CollectorProperties.FreshKeepsConsistent | src/main/java/com/basistech/bbhmp/RosapiBundleCollectorMojo.java:241-258 | a first sighting that gets through keeps the invariant, with one more copy and one more identity |
| CollectorProperties.FreshRecordCopied | src/main/java/com/basistech/bbhmp/RosapiBundleCollectorMojo.java:243-251 | a new identity recorded with its copy keeps one copy per identity |
| CollectorProperties.StepKeepsConsistent | src/main/java/com/basistech/bbhmp/RosapiBundleCollectorMojo.java:200-259 | `processBundle` preserves the invariant: every recorded spec is the only occurrence of itself, in the list of its own level; every listed spec is recorded under its gav; there is one copy per identity |
| CollectorProperties.BundlesKeepConsistent | src/main/java/com/basistech/bbhmp/RosapiBundleCollectorMojo.java:190-192 | the bundle loop keeps the invariant |
| CollectorProperties.LevelsKeepConsistent | src/main/java/com/basistech/bbhmp/RosapiBundleCollectorMojo.java:189-193 | the level loop keeps the invariant |
| CollectorProperties.FilesKeepConsistent | src/main/java/com/basistech/bbhmp/RosapiBundleCollectorMojo.java:182-194 | the file loop keeps the invariant |
| CollectorProperties.CollectWritesConsistentState | src/main/java/com/basistech/bbhmp/RosapiBundleCollectorMojo.java:171-197 | a successful run writes the levels of a state satisfying the invariant, so each identity is written exactly once |
| CollectorProperties.RepeatSighting | src/main/java/com/basistech/bbhmp/RosapiBundleCollectorMojo.java:232-240 | a repeat never fails and copies nothing; the spec keeps its start flag and file name at the lower of the two levels, and ends its new level's list; other identities keep their specs |
| CollectorProperties.RepeatRelocates | src/main/java/com/basistech/bbhmp/RosapiBundleCollectorMojo.java:238-258 | a repeat at the same or a higher level takes the spec out of its list and appends it again at the end; at a lower level it moves it to the end of the lower level's list |
| CollectorProperties.FirstSighting | src/main/java/com/basistech/bbhmp/RosapiBundleCollectorMojo.java:241-247 | a first sighting of a copyable artifact copies the file once as `group-artifact-version.jar`; it is started exactly when the list asks for it and the jar is no fragment; it fails exactly when the manifest check fails for a bundle to be started |
| CollectorProperties.NoStartNeverOpensJar | src/main/java/com/basistech/bbhmp/RosapiBundleCollectorMojo.java:246 | for a `noStart` bundle the jar's content does not matter: its manifest is never read |
| CollectorProperties.UncopyableHalts | src/main/java/com/basistech/bbhmp/RosapiBundleCollectorMojo.java:245 | a first sighting that cannot be copied ends the run before anything is recorded |
| CollectorProperties.ResolutionFailure | src/main/java/com/basistech/bbhmp/RosapiBundleCollectorMojo.java:206-214 | with skipping on, a `MojoExecutionException` from `getArtifact` leaves both maps unchanged; any other exception ends the run |
| CollectorProperties.ArtifactForOutcome | src/main/java/com/basistech/bbhmp/RosapiBundleCollectorMojo.java:346-400 | a malformed locator is unchecked; `-dependency-` without a matching dependency is exactly the `MojoFailureException`; every other failure is a `MojoExecutionException`; a result has the requested group, artifact, classifier and a file, and the locator's version (or the dependency's) or the one the resolver sets |
| CollectorProperties.SkipStopsOnlyOnBadRequests | src/main/java/com/basistech/bbhmp/RosapiBundleCollectorMojo.java:206-214 | with skipping on, a failed resolution stops the run exactly for a malformed locator or a `MojoFailureException`, and that one is always the unmatched `-dependency-` |
| CollectorProperties.GavKeyPieces | src/main/java/com/basistech/bbhmp/RosapiBundleCollectorMojo.java:221-226 | the identity is `group:artifact:classifier:version`, with an empty classifier piece when it is null |
| CollectorProperties.GavKeyIdentifies | src/main/java/com/basistech/bbhmp/RosapiBundleCollectorMojo.java:221-226 | two colon-free artifacts share an identity exactly when group, artifact and version agree and their classifiers agree once null is read as empty |
| CollectorProperties.EmptyClassifierIsNoClassifier | src/main/java/com/basistech/bbhmp/RosapiBundleCollectorMojo.java:222-225 | an empty classifier and a null one give the same identity |
| CollectorProperties.ClassifiersShareFileName | src/main/java/com/basistech/bbhmp/RosapiBundleCollectorMojo.java:222-243 | artifacts that differ only by a classifier are different bundles but share an output file name |
| CollectorProperties.StepExtends | src/main/java/com/basistech/bbhmp/RosapiBundleCollectorMojo.java:200-259 | after a step every recorded identity is still recorded, at a level no higher, with the same start flag and file name; no level disappears; copies are only added |
| CollectorProperties.FilesExtend | src/main/java/com/basistech/bbhmp/RosapiBundleCollectorMojo.java:182-194 | over a whole run every recorded identity stays recorded, with the start flag and file name of its first sighting, and its level never goes up (its value is given by `MinimumLevel`); no level disappears and copies are only added |
| CollectorProperties.LowestSightingIsLowest | src/main/java/com/basistech/bbhmp/RosapiBundleCollectorMojo.java:232-234 | the lowest sighting of an identity is none exactly when it is never sighted, and otherwise at or below every sighting of it and equal to one of them |
| CollectorProperties.StepLowest | src/main/java/com/basistech/bbhmp/RosapiBundleCollectorMojo.java:200-259 | a step that gets through records every identity at the lower of its recorded level and the new sighting's; a skipped bundle changes no level |
| CollectorProperties.BundlesLowest | src/main/java/com/basistech/bbhmp/RosapiBundleCollectorMojo.java:189-191 | over one level's bundles, every identity ends at the lower of its starting level and its lowest sighting there |
| CollectorProperties.LevelsLowest | src/main/java/com/basistech/bbhmp/RosapiBundleCollectorMojo.java:188-192 | the same over the levels of one file |
| CollectorProperties.FilesLowest | src/main/java/com/basistech/bbhmp/RosapiBundleCollectorMojo.java:181-193 | the same over all input files, from any consistent state |
| CollectorProperties.MinimumLevel | src/main/java/com/basistech/bbhmp/RosapiBundleCollectorMojo.java:181-193 | after a run that gets through, an identity is recorded exactly when some bundle resolved to it, at a level at or below every level it was listed at and equal to one of them |
| CollectorProperties.LevelsIndependentOfOrder | src/main/java/com/basistech/bbhmp/RosapiBundleCollectorMojo.java:181-193 | two documents processed in either order leave every identity at the same level whenever both runs get through |
| CollectorProperties.BundlesRevisit | src/main/java/com/basistech/bbhmp/RosapiBundleCollectorMojo.java:189-191 | a level's bundles processed again over a state that already records them at their levels or lower: the run gets through, and the recorded specs and the copies do not change |
| CollectorProperties.LevelsRevisit | src/main/java/com/basistech/bbhmp/RosapiBundleCollectorMojo.java:188-192 | the same for all the levels of a document |
| CollectorProperties.ReadTwiceSameSpecs | src/main/java/com/basistech/bbhmp/RosapiBundleCollectorMojo.java:181-193 | a document given twice as input files gets through whenever it gets through once, with the same specs (identity, level, start flag, file name), the same copies and a consistent state |
| CollectorProperties.NoFilesRefused | src/main/java/com/basistech/bbhmp/RosapiBundleCollectorMojo.java:178-180 | no input files is a `MojoFailureException` |
| KarafFeatureConverter.IncludeExcludeAccepts | src/main/java/com/basistech/bbhmp/KarafFeatureConverterMojo.java:237-248 | accepted exactly when a non-empty include set contains the name and a non-empty exclude set does not |
| KarafFeatureConverter.AcceptedAtMostOnce | src/main/java/com/basistech/bbhmp/KarafFeatureConverterMojo.java:228-235 | with a wanted list a name is accepted exactly when still wanted; accepting crosses it off, so it is never accepted twice |
| KarafFeatureConverter.AcceptWithoutList | src/main/java/com/basistech/bbhmp/KarafFeatureConverterMojo.java:237-248 | without a wanted list the include/exclude test decides and nothing changes |
| KarafFeatureConverter.Converter.constructor | src/main/java/com/basistech/bbhmp/KarafFeatureConverterMojo.java:173-180 | nothing accumulated, nothing processed, the wanted list as configured |
| KarafFeatureConverter.Converter.AcceptFeature | src/main/java/com/basistech/bbhmp/KarafFeatureConverterMojo.java:227-249 | the answer and the new wanted list are those of `Accept` |
| KarafFeatureConverter.GetBundleArtifact | src/main/java/com/basistech/bbhmp/KarafFeatureConverterMojo.java:333-370 | the method gives exactly `ResolveBundle`: no artifact for a location that is not `mvn:`, a propagated error for a malformed one, then the range check, the reactor search and the resolver in that order |
| KarafFeatureConverter.EffectiveLevel | src/main/java/com/basistech/bbhmp/KarafFeatureConverterMojo.java:307-310 | start level 0 becomes the default level; any other level stays |
| KarafFeatureConverter.Converter.ProcessBundle | src/main/java/com/basistech/bbhmp/KarafFeatureConverterMojo.java:283-317 | the new fields and the exception are exactly those of `AddBundle` |
| KarafFeatureConverter.Converter.AdmitBundle | src/main/java/com/basistech/bbhmp/KarafFeatureConverterMojo.java:286-316 | once the artifact is found, the new fields and the exception are exactly those of `Admit`: the filter, the processed-name check, the copy and the append to the level list |
| KarafFeatureConverter.Converter.ProcessFeature | src/main/java/com/basistech/bbhmp/KarafFeatureConverterMojo.java:210-222 | an accepted feature's bundles are processed in order, stopping at the first exception |
| KarafFeatureConverter.Converter.ProcessOneFeatureFile | src/main/java/com/basistech/bbhmp/KarafFeatureConverterMojo.java:196-224 | an unreadable file is a `MojoExecutionException`; otherwise its features are processed in order |
| KarafFeatureConverter.Metadata | src/main/java/com/basistech/bbhmp/KarafFeatureConverterMojo.java:251-281 | the accumulated levels are written strictly ascending, each with its bundles in the order they were added |
| KarafFeatureConverter.WriteMetadata | src/main/java/com/basistech/bbhmp/KarafFeatureConverterMojo.java:251-281 | the method writes exactly `Metadata` of the accumulated map |
| KarafFeatureConverter.WriteLevels | src/main/java/com/basistech/bbhmp/KarafFeatureConverterMojo.java:261-271 | one `<level>` per key, in `TreeMap` order |
| KarafFeatureConverter.Execute | src/main/java/com/basistech/bbhmp/KarafFeatureConverterMojo.java:171-194 | the file loop, the missing-feature check and the write give exactly `Convert` |
| KarafFeatureConverter.BundlesStopStay | src/main/java/com/basistech/bbhmp/KarafFeatureConverterMojo.java:215-217 | once a bundle throws, the later bundles change nothing |
| KarafFeatureConverter.FeaturesStopStay | src/main/java/com/basistech/bbhmp/KarafFeatureConverterMojo.java:210-223 | once a feature throws, the later features change nothing |
| KarafFeatureConverter.FilesStopStay | src/main/java/com/basistech/bbhmp/KarafFeatureConverterMojo.java:182-184 | once a file throws, the later files change nothing |
| KarafFeatureConverter.Names | src/main/java/com/basistech/bbhmp/KarafFeatureConverterMojo.java:210 | the set of names of a feature sequence, in both directions |
| KarafFeatureConverter.FeaturesCrossOff | src/main/java/com/basistech/bbhmp/KarafFeatureConverterMojo.java:210-235 | after a file's features, the wanted names left are those no feature of the file carries; without a list there stays none |
| KarafFeatureConverter.FilesCrossOff | src/main/java/com/basistech/bbhmp/KarafFeatureConverterMojo.java:182-184 | after all files, the wanted names left are those none of the files carries |
| KarafFeatureConverter.MissingFeatures | src/main/java/com/basistech/bbhmp/KarafFeatureConverterMojo.java:186-191 | a run through all files fails with "Not all features were found" exactly when some wanted name occurs in no file |
| KarafFeatureConverter.ProcessedStaysEmpty | src/main/java/com/basistech/bbhmp/KarafFeatureConverterMojo.java:179-302 | `bundlesProcessed` stays empty for the whole run |
| KarafFeatureConverter.SelectedBundleAppended | src/main/java/com/basistech/bbhmp/KarafFeatureConverterMojo.java:296-316 | a selected, copyable bundle is appended as (start, `group-artifact-version.jar`) to its level's list, and its copy is recorded |
| KarafFeatureConverter.DuplicateListedTwice | src/main/java/com/basistech/bbhmp/KarafFeatureConverterMojo.java:297-316 | a bundle listed twice is copied twice and appears twice in its level's list |
| KarafFeatureConverter.NonMavenLocationSkipped | src/main/java/com/basistech/bbhmp/KarafFeatureConverterMojo.java:336-342 | a location that is not an `mvn:` URI is skipped and changes nothing |
| KarafFeatureConverter.RejectedBundleSkipped | src/main/java/com/basistech/bbhmp/KarafFeatureConverterMojo.java:286-291 | a bundle the filter rejects changes nothing |
| OsgiVersion.SplitNumber | src/main/java/com/basistech/bbhmp/OsgiVersionMojo.java:47-48 | `[0-9]+` is greedy: the digit run taken is followed by a non-digit or the end |
| OsgiVersion.MatchCxxSound | src/main/java/com/basistech/bbhmp/OsgiVersionMojo.java:48 | what the Basis pattern recognises is a well-formed `x.y.z.cN.R` whose text is the input |
| OsgiVersion.MatchCxxText | src/main/java/com/basistech/bbhmp/OsgiVersionMojo.java:48 | every well-formed Basis version is recognised with its own groups |
| OsgiVersion.Ending | src/main/java/com/basistech/bbhmp/OsgiVersionMojo.java:47 | `(-SNAPSHOT)?` at the end: recognised only as "" or `-SNAPSHOT` |
| OsgiVersion.MatchQualifierSound | src/main/java/com/basistech/bbhmp/OsgiVersionMojo.java:47 | the reluctant qualifier leaves a trailing `-SNAPSHOT` to the snapshot group |
| OsgiVersion.MatchQualifierOf | src/main/java/com/basistech/bbhmp/OsgiVersionMojo.java:47 | every qualifier the pattern can produce is recognised from its text |
| OsgiVersion.MatchPlainSound | src/main/java/com/basistech/bbhmp/OsgiVersionMojo.java:47 | what the plain pattern recognises is a group assignment it can produce, and its text is the input |
| OsgiVersion.MatchPlainText | src/main/java/com/basistech/bbhmp/OsgiVersionMojo.java:47 | every group assignment the plain pattern can produce is recognised from its text |
| OsgiVersion.Convert | src/main/java/com/basistech/bbhmp/OsgiVersionMojo.java:69-108 | fails exactly when neither pattern matches, and then with a `MojoExecutionException` |
| OsgiVersion.CxxConversion | src/main/java/com/basistech/bbhmp/OsgiVersionMojo.java:74-107 | the Basis form is tried first and becomes `x.y.z.cN_R`, always counted as qualified |
| OsgiVersion.CxxSnapshotKept | src/main/java/com/basistech/bbhmp/OsgiVersionMojo.java:70-107 | a Basis snapshot keeps its `-SNAPSHOT` in group 2 and gets `-` and the timestamp |
| OsgiVersion.PlainConversion | src/main/java/com/basistech/bbhmp/OsgiVersionMojo.java:79-107 | a plain version becomes `x.y.z` plus its qualifier, with missing parts `0`, `-SNAPSHOT` dropped, and the timestamp after `-` when qualified and after `.` when not |
| OsgiVersion.UnqualifiedIsNotCxx | src/main/java/com/basistech/bbhmp/OsgiVersionMojo.java:74-80 | a plain version without a qualifier is never taken for a Basis version |
| OsgiVersion.SnapshotReplacedByTimestamp | src/main/java/com/basistech/bbhmp/OsgiVersionMojo.java:70-107 | `x.y.z-SNAPSHOT` becomes `x.y.z.<timestamp>` |
| OsgiVersion.MajorOnlyPadded | src/main/java/com/basistech/bbhmp/OsgiVersionMojo.java:86-90 | `x` becomes `x.0.0` |
| OsgiVersion.MajorMinorPadded | src/main/java/com/basistech/bbhmp/OsgiVersionMojo.java:86-90 | `x.y` becomes `x.y.0` |
| OsgiVersion.Project.constructor | src/main/java/com/basistech/bbhmp/OsgiVersionMojo.java:69-70 | the project starts with the given version and properties |
| OsgiVersion.Project.DefineProperty | src/main/java/com/basistech/bbhmp/OsgiVersionMojo.java:112-118 | the property is set to the value, and every other property and the version are kept |
| OsgiVersion.Execute | src/main/java/com/basistech/bbhmp/OsgiVersionMojo.java:69-110 | the version converted with the goal's own `hh` stamp of the clock reading is stored under `propertyName`; a version of neither form throws and leaves the properties unchanged |
| OsgiVersion.Padded | src/main/java/com/basistech/bbhmp/OsgiVersionMojo.java:49 | a field is formatted with exactly its width |
| OsgiVersion.ClockHour | src/main/java/com/basistech/bbhmp/OsgiVersionMojo.java:49 | `hh` is the hour of the half day, 1 to 12 |
| OsgiVersion.FormattedOrder | src/main/java/com/basistech/bbhmp/OsgiVersionMojo.java:49 | fixed-width fields compare as strings in the order of the moments they hold, and are equal only for equal moments |
| OsgiVersion.TimestampOrdered | src/main/java/com/basistech/bbhmp/OsgiVersionMojo.java:49 | with `HH`, a later build gets a larger qualifier, and two different moments get different ones |
| OsgiVersion.AsWrittenAgreesInHalfDay | src/main/java/com/basistech/bbhmp/OsgiVersionMojo.java:49 | the goal's stamp equals the `HH` stamp exactly from 01:00 to 12:59; in other hours it is the `HH` stamp of the hour of the half day |
| OsgiVersion.AsWrittenOutOfOrder | src/main/java/com/basistech/bbhmp/OsgiVersionMojo.java:49 | with `hh`, 13:00 sorts before 12:30 of the same day, and 01:00 and 13:00 of one day format the same |

## Findings

| source | as written | input that shows it | evidently intended | confidence | as-written member | corrected member |
|---|---|---|---|---|---|---|
| src/main/java/com/basistech/bbhmp/OsgiVersionMojo.java:49 | the timestamp qualifier uses `hh`, the hour of the half day (1 to 12) | two builds on 2026-10-14, at 12:30 and at 13:00 GMT: the later one gets `v20261014010000`, which sorts before the earlier `v20261014123000`; builds at 01:00 and 13:00 get the same qualifier | `HH`, the hour of the day, so that qualifiers sort in build order, as OSGi compares qualifiers | not executed | OsgiVersion.AsWrittenOutOfOrder | OsgiVersion.TimestampOrdered |

`TimestampAsWritten` formats the pattern as written, and `OsgiVersion.Execute` stamps with
it, as the goal does. `Timestamp` formats the pattern with `HH`: it is the intended
definition, and `TimestampOrdered` proves the ordering property about it.
`AsWrittenAgreesInHalfDay` shows where the two differ.

## Left out

- The Maven plugin wiring is left out: parameter injection, `ArtifactFactory`, logging and
  the verbose flags. The collaborators of resolution are parameters of `Maven.Environment`.
  The model covers the order in which they are consulted, not what they do inside.
- `Maven.Requested` stands for `ArtifactFactory.createDependencyArtifact`, and treats it as
  total with the version kept as the requested text. Maven's factory leaves the artifact's
  version null when the range has no recommended version (a range such as `[1.0,2.0)`).
  The reactor match, the identity and the `group-artifact-version.jar` name would then
  carry that null, and the model does not show it. The factory also throws when the
  groupId or artifactId is empty, and the model has no such failure.
- Version ranges are kept as strings. `VersionRange.createFromVersionSpec` is the predicate
  `validVersionSpec`, and the resolver is the function `resolve`, which reports the file and the version it leaves on
  the artifact (a remote snapshot can come back with a timestamped version).
- `${...}` interpolation is the function parameter `interpolate`. `SelectorUtils.match` is
  the function parameter `fieldMatch` of `ArtifactIds.Matches`. `IncludeExcludeArtifactFilter.isSelected`
  is the predicate `bundleSelected`.
- File I/O is left out. A copy is a record in a ghost log. A jar is its manifest's main
  attributes, with names lower-cased, since `Attributes.getValue` ignores case. A file is
  regular, a directory or missing. An `IOException` during a copy is not modelled
  separately from a missing file. `outputDirectory.mkdirs()` is left out.
- XML parsing is given as StAX events after coalescing. Well-formedness errors other than
  those the grammar checks are the single `XmlError`. The JAXB unmarshalling of
  `features.xml` is given as its result: its features, or a file that cannot be read. No
  error other than the `IOException` is modelled.
- XML writing is left out. `writeMetadata` produces the sequence of `(level, [(start, file
  name)])` it would write. The `IOException`/`XMLStreamException` of the writer is not
  modelled.
- The collector reads `noStart` but writes `start`. The model keeps both names as the code
  has them, and does not test reading a written file.
- `Integer.parseInt` and `\p{Alnum}` are ASCII only. Non-ASCII digits and letters are
  outside the model.
- The `ArtifactId(Dependency)` constructor is left out. `Dependency` is not part of this
  model; the constructor passes the same five getters as `ArtifactId(Artifact)`.
- `KarafFeatureConverter.GetBundleArtifact`: when verbose bundle logging is on, a skipped
  non-`mvn:` bundle dereferences the null artifact
  (`KarafFeatureConverterMojo.java:288`). Logging is left out, so the model skips the
  bundle quietly.
- `OsgiVersion.Convert` takes the formatted timestamp as a string. `OsgiVersion.Execute`
  takes the clock reading as an `Instant` (GMT); the `Date`/`Calendar` calls are left out.
- `OsgiVersion.Execute`: the `SimpleDateFormat` at `OsgiVersionMojo.java:98` is built without
  a `Locale`, so it follows the JVM's default locale. The model assumes a default locale with
  the Gregorian calendar and ASCII digits; under `th_TH`, for instance, the year would be a
  Buddhist-era year.
- `OsgiVersion.Padded`: a year above 9999 is cut to its last four digits. `SimpleDateFormat`
  would print all of its digits. `TimestampOrdered` assumes four-digit years.
