/** `RosapiBundleCollectorMojo` (goal `collect-bundles`): reads the bundle list files,
    resolves every listed bundle, copies each distinct bundle once into the output
    directory, merges repeated sightings into the lowest start level, and describes the
    outcome in `bundles.xml`.

    The state of one run is the pair of maps `processInputs` threads through
    `processBundle` (identity string to spec, start level to the specs listed there),
    together with the copies made into the output directory. */
module BundleCollector {
  import opened JavaLang
  import opened Maven
  import opened BundleSpecs
  import BundlesInfo

  // ---------------------------------------------------------------------------
  // getArtifact
  // ---------------------------------------------------------------------------

  /** The version placeholder that asks for the version of a project dependency. */
  const DEPENDENCY: string := "-dependency-"

  /** What an interpolated `<bundle>` locator names: `group/artifact/version` or
      `group/artifact/classifier/version`. */
  datatype Locator = Locator(groupId: string, artifactId: string, classifier: Option<string>, version: string)

  /** The opening of `getArtifact`: the locator is split on `/` with trailing empty pieces
      dropped; exactly three pieces carry no classifier, four or more carry the classifier
      third and the version fourth (later pieces are ignored), and fewer than three make
      an array access fail. */
  function ParseLocator(gav: string): (r: Result<Locator, Failure>)
    ensures var p := Split(gav, '/');
            (r.Err? <==> |p| < 3) &&
            (r.Err? ==> r.error == RuntimeException(MalformedLocator)) &&
            (r.Ok? ==> r.value.groupId == p[0] && r.value.artifactId == p[1] &&
                       (r.value.classifier.None? <==> |p| == 3) &&
                       r.value.version == (if |p| == 3 then p[2] else p[3]) &&
                       (|p| > 3 ==> r.value.classifier == Some(p[2])))
  {
    var p := Split(gav, '/');
    if |p| < 3 then Err(RuntimeException(MalformedLocator))
    else if |p| == 3 then Ok(Locator(p[0], p[1], None, p[2]))
    else Ok(Locator(p[0], p[1], Some(p[2]), p[3]))
  }

  /** The locator text naming `l`. */
  function LocatorText(l: Locator): string {
    if l.classifier.None? then Join([l.groupId, l.artifactId, l.version], '/')
    else Join([l.groupId, l.artifactId, l.classifier.value, l.version], '/')
  }

  /** Locators a `<bundle>` text can carry: no `/` in a piece and a non-empty version
      (an empty last piece would be dropped by `split`). */
  predicate Writable(l: Locator) {
    '/' !in l.groupId && '/' !in l.artifactId && '/' !in l.version && l.version != "" &&
    (l.classifier.Some? ==> '/' !in l.classifier.value)
  }

  lemma ParseLocatorText(l: Locator)
    requires Writable(l)
    ensures ParseLocator(LocatorText(l)) == Ok(l)
  {
    if l.classifier.None? {
      JoinSplit([l.groupId, l.artifactId, l.version], '/');
    } else {
      JoinSplit([l.groupId, l.artifactId, l.classifier.value, l.version], '/');
    }
  }

  /** `getArtifact` as a function of the bundle and the build's collaborators: the
      interpolated locator is parsed; `-dependency-` is replaced by the version of the
      first project dependency with that group and artifact, and its absence is a
      `MojoFailureException`; then the version range is checked, the reactor searched and
      the resolver asked. */
  function ArtifactFor(env: Environment, interpolate: string -> string, bundle: BundlesInfo.BundleInfo)
    : Result<Artifact, Failure>
  {
    match ParseLocator(interpolate(bundle.gav))
    case Err(f) => Err(f)
    case Ok(l) =>
      var version := if l.version == DEPENDENCY then DependencyVersion(l.groupId, l.artifactId, env.dependencies)
                     else Some(l.version);
      if version.None? then Err(FailureException(NotADependency(l.groupId, l.artifactId)))
      else match ResolveArtifact(l.groupId, l.artifactId, version.value, l.classifier, env)
        case Resolved(a) => Ok(a)
        case Unresolved(f) => Err(f)
  }

  method GetArtifact(env: Environment, interpolate: string -> string, bundle: BundlesInfo.BundleInfo)
    returns (r: Result<Artifact, Failure>)
    ensures r == ArtifactFor(env, interpolate, bundle)
  {
    var parsed := ParseLocator(interpolate(bundle.gav));
    if parsed.Err? {
      return Err(parsed.error);
    }
    var l := parsed.value;
    var version := Some(l.version);
    if l.version == DEPENDENCY {
      version := FindDependencyVersion(l.groupId, l.artifactId, env.dependencies);
      if version.None? {
        return Err(FailureException(NotADependency(l.groupId, l.artifactId)));
      }
    }
    var resolution := Resolve(l.groupId, l.artifactId, version.value, l.classifier, env);
    r := if resolution.Resolved? then Ok(resolution.artifact) else Err(resolution.failure);
  }

  // ---------------------------------------------------------------------------
  // Identity, file name, copy and fragment check
  // ---------------------------------------------------------------------------

  /** `String.format("%s", x)`: a null field prints as `null`. */
  function Text(s: Option<string>): string {
    if s.Some? then s.value else "null"
  }

  /** The identity of a bundle: `group:artifact:classifier:version`, or
      `group:artifact::version` when the artifact has no classifier. */
  function GavKey(a: Artifact): string {
    if a.classifier.Some? then Text(a.groupId) + ":" + Text(a.artifactId) + ":" + a.classifier.value + ":" + Text(a.version)
    else Text(a.groupId) + ":" + Text(a.artifactId) + "::" + Text(a.version)
  }

  /** The name the jar is copied under: `group-artifact-version.jar`. */
  function OutputFileName(a: Artifact): string {
    Text(a.groupId) + "-" + Text(a.artifactId) + "-" + Text(a.version) + ".jar"
  }

  /** `copyFile`: the log line reads the source path first (a null file throws), a
      directory is an artifact not packaged yet, and a source that cannot be copied is an
      I/O error; both of the latter are `MojoExecutionException`s. */
  function CopyFile(file: Option<ArtifactFile>): (r: Result<ArtifactFile, Failure>)
    ensures r.Ok? <==> file.Some? && file.value.kind == RegularFile
    ensures r.Ok? ==> r.value == file.value
    ensures file.None? ==> r == Err(RuntimeException(NullReference))
    ensures file.Some? && file.value.kind != RegularFile ==> r.Err? && r.error.ExecutionException?
  {
    match file
    case None => Err(RuntimeException(NullReference))
    case Some(f) =>
      match f.kind
      case Directory => Err(ExecutionException(NotPackaged))
      case Missing => Err(ExecutionException(CopyFailed))
      case RegularFile => Ok(f)
  }

  /** `isJarFragment` on the copied jar: it must open as a jar (else
      `MojoExecutionException`), its manifest must be readable (else
      `MojoFailureException`) and present (else the dereference fails), and
      `Bundle-ManifestVersion` must be exactly "2" (else `MojoFailureException`); the jar is
      a fragment exactly when it has a `Fragment-Host` attribute, whatever its value. */
  function IsJarFragment(content: JarContent): (r: Result<bool, Failure>)
    ensures r.Ok? <==> content.Manifest? && "bundle-manifestversion" in content.mainAttributes &&
                       content.mainAttributes["bundle-manifestversion"] == "2"
    ensures r.Ok? ==> (r.value <==> "fragment-host" in content.mainAttributes)
    ensures content.NotAZip? ==> r == Err(ExecutionException(JarOpenFailed))
    ensures content.UnreadableManifest? ==> r == Err(FailureException(ManifestReadFailed))
    ensures content.NoManifest? ==> r == Err(RuntimeException(NullReference))
    ensures content.Manifest? && r.Err? ==> r == Err(FailureException(NotAnOsgiBundle))
  {
    match content
    case NotAZip => Err(ExecutionException(JarOpenFailed))
    case UnreadableManifest => Err(FailureException(ManifestReadFailed))
    case NoManifest => Err(RuntimeException(NullReference))
    case Manifest(attributes) =>
      if BundlesInfo.Lookup(attributes, "bundle-manifestversion") != Some("2")
      then Err(FailureException(NotAnOsgiBundle))
      else Ok("fragment-host" in attributes)
  }

  // ---------------------------------------------------------------------------
  // processBundle
  // ---------------------------------------------------------------------------

  /** A jar copied into the output directory: from where, under which name. */
  datatype CopyRecord = CopyRecord(source: string, target: string)

  /** The state `processInputs` builds: `bundlesByGav`, `bundlesByLevel` and the copies
      made so far. */
  datatype Index = Index(byGav: map<string, BundleSpec>, byLevel: map<int, seq<BundleSpec>>,
                         copies: seq<CopyRecord>)

  /** The state after a bundle: processing goes on, or it stops with an exception, the
      state then being whatever had been done before the exception. */
  datatype StepResult = Continue(index: Index) | Halt(failure: Failure, index: Index)

  function Empty(): Index {
    Index(map[], map[], [])
  }

  function Min(a: int, b: int): int {
    if a <= b then a else b
  }

  /** The position of the first `x` in `s`, `|s|` when there is none. */
  function FirstIndex(s: seq<BundleSpec>, x: BundleSpec): (i: nat)
    ensures i <= |s|
    ensures i < |s| <==> x in s
    ensures i < |s| ==> s[i] == x
    ensures forall k :: 0 <= k < i ==> s[k] != x
  {
    if s == [] then 0
    else if s[0] == x then 0
    else 1 + FirstIndex(s[1..], x)
  }

  /** `List.remove(Object)`: the first element equal to `x` is taken out. */
  function RemoveFirst(s: seq<BundleSpec>, x: BundleSpec): (r: seq<BundleSpec>)
    ensures x !in s ==> r == s
    ensures multiset(r) == multiset(s) - multiset{x}
  {
    if s == [] then []
    else if s[0] == x then
      assert s == [s[0]] + s[1..];
      s[1..]
    else
      assert s == [s[0]] + s[1..];
      [s[0]] + RemoveFirst(s[1..], x)
  }

  /** The others keep their order. */
  lemma {:induction false} RemoveFirstAt(s: seq<BundleSpec>, x: BundleSpec)
    requires x in s
    ensures RemoveFirst(s, x) == s[..FirstIndex(s, x)] + s[FirstIndex(s, x) + 1..]
  {
    if s[0] != x {
      RemoveFirstAt(s[1..], x);
      ConsDropAt(s, FirstIndex(s[1..], x));
    }
  }

  /** Dropping index `i` of the tail, then putting the head back, drops index `i + 1`. */
  lemma ConsDropAt<T>(s: seq<T>, i: nat)
    requires i + 1 < |s|
    ensures [s[0]] + (s[1..][..i] + s[1..][i + 1..]) == s[..i + 1] + s[i + 2..]
  {
    assert s[..i + 1] == [s[0]] + s[1..][..i];
    assert s[i + 2..] == s[1..][i + 1..];
  }

  /** `bundlesByLevel.get(level).add(spec)`, creating the list when the level is new. */
  function AppendAt(byLevel: map<int, seq<BundleSpec>>, level: int, spec: BundleSpec): map<int, seq<BundleSpec>> {
    byLevel[level := (if level in byLevel then byLevel[level] else []) + [spec]]
  }

  /** The tail of `processBundle`: the spec is recorded under its identity and appended to
      the list of its level. */
  function Record(ix: Index, spec: BundleSpec): Index {
    ix.(byGav := ix.byGav[spec.gav := spec], byLevel := AppendAt(ix.byLevel, spec.level, spec))
  }

  /** `bundlesByLevel.get(prior.level).remove(prior)`. */
  function Unlist(ix: Index, prior: BundleSpec): Index
    requires prior.level in ix.byLevel
  {
    ix.(byLevel := ix.byLevel[prior.level := RemoveFirst(ix.byLevel[prior.level], prior)])
  }

  /** `processBundle` for the bundle `bundle` listed at start level `level`, given what
      `getArtifact` made of it. A `MojoExecutionException` from `getArtifact` skips the
      bundle when missing artifacts are to be skipped; every other exception ends the run.
      A bundle seen before keeps its start flag and file name, moves to the lower of the
      two levels and is taken out of its old level's list; a new one is copied, and is
      started when the list asks for it and it is not a fragment (the jar is not opened at
      all otherwise). Either way the spec is recorded under its identity and appended to
      its level's list. */
  function Step(ix: Index, level: int, bundle: BundlesInfo.BundleInfo, outcome: Result<Artifact, Failure>,
                skip: bool): StepResult
  {
    match outcome
    case Err(f) => if f.ExecutionException? && skip then Continue(ix) else Halt(f, ix)
    case Ok(artifact) =>
      var gav := GavKey(artifact);
      if gav in ix.byGav then
        var prior := ix.byGav[gav];
        if prior.level !in ix.byLevel then Halt(RuntimeException(NullReference), ix)
        else
          var spec := BundleSpec(gav, Min(prior.level, level), prior.start, prior.filename);
          Continue(Record(Unlist(ix, prior), spec))
      else
        var filename := OutputFileName(artifact);
        match CopyFile(artifact.file)
        case Err(f) => Halt(f, ix)
        case Ok(source) =>
          var copied := ix.(copies := ix.copies + [CopyRecord(source.path, filename)]);
          var fragment := if bundle.start then IsJarFragment(source.content) else Ok(false);
          match fragment
          case Err(f) => Halt(f, copied)
          case Ok(isFragment) =>
            Continue(Record(copied, BundleSpec(gav, level, bundle.start && !isFragment, filename)))
  }

  /** The two maps `processInputs` hands to `processBundle`, and the output directory's
      copies. */
  class Aggregator {
    var bundlesByGav: map<string, BundleSpec>
    var bundlesByLevel: map<int, seq<BundleSpec>>
    ghost var copies: seq<CopyRecord>

    ghost function Snapshot(): Index
      reads this
    {
      Index(bundlesByGav, bundlesByLevel, copies)
    }

    constructor ()
      ensures Snapshot() == Empty()
    {
      bundlesByGav := map[];
      bundlesByLevel := map[];
      copies := [];
    }

    /** `processBundle`: the new state is the one `Step` describes, and an exception
        comes back as `Some`. */
    method ProcessBundle(level: int, bundle: BundlesInfo.BundleInfo, env: Environment,
                         interpolate: string -> string, skip: bool) returns (failure: Option<Failure>)
      modifies this
      ensures Step(old(Snapshot()), level, bundle, ArtifactFor(env, interpolate, bundle), skip) ==
              Outcome(failure, Snapshot())
    {
      ghost var before := Snapshot();
      var outcome := GetArtifact(env, interpolate, bundle);
      if outcome.Err? {
        if outcome.error.ExecutionException? && skip {
          return None;
        }
        return Some(outcome.error);
      }
      var artifact := outcome.value;
      var gav := GavKey(artifact);
      var effLevel: int;
      var filename: string;
      var start: bool;
      if gav in bundlesByGav {
        var prior := bundlesByGav[gav];
        start := prior.start;
        effLevel := Min(prior.level, level);
        if prior.level !in bundlesByLevel {
          return Some(RuntimeException(NullReference));
        }
        bundlesByLevel := bundlesByLevel[prior.level := RemoveFirst(bundlesByLevel[prior.level], prior)];
        bundlesByGav := bundlesByGav - {gav};
        filename := prior.filename;
        RemoveThenPut(before.byGav, gav, BundleSpec(gav, effLevel, start, filename));
        assert Step(before, level, bundle, outcome, skip) ==
               Continue(Record(Unlist(before, prior), BundleSpec(gav, effLevel, start, filename)));
      } else {
        effLevel := level;
        filename := OutputFileName(artifact);
        var copied := CopyFile(artifact.file);
        if copied.Err? {
          return Some(copied.error);
        }
        copies := copies + [CopyRecord(copied.value.path, filename)];
        if bundle.start {
          var fragment := IsJarFragment(copied.value.content);
          if fragment.Err? {
            return Some(fragment.error);
          }
          start := !fragment.value;
        } else {
          start := false;
        }
        assert Step(before, level, bundle, outcome, skip) ==
               Continue(Record(Snapshot(), BundleSpec(gav, effLevel, start, filename)));
      }
      var spec := BundleSpec(gav, effLevel, start, filename);
      var levelSpecs := if effLevel in bundlesByLevel then bundlesByLevel[effLevel] else [];
      bundlesByGav := bundlesByGav[gav := spec];
      bundlesByLevel := bundlesByLevel[effLevel := levelSpecs + [spec]];
      failure := None;
    }

    /** The inner loop of `processInputs`: the bundles of one level in list order. */
    method ProcessLevel(level: int, bundles: seq<BundlesInfo.BundleInfo>, env: Environment,
                        interpolate: string -> string, skip: bool) returns (failure: Option<Failure>)
      modifies this
      ensures RunBundles(old(Snapshot()), level, bundles, env, interpolate, skip) == Outcome(failure, Snapshot())
    {
      for k := 0 to |bundles|
        invariant RunBundles(old(Snapshot()), level, bundles[..k], env, interpolate, skip) == Continue(Snapshot())
      {
        assert bundles[..k + 1][..k] == bundles[..k];
        failure := ProcessBundle(level, bundles[k], env, interpolate, skip);
        if failure.Some? {
          BundlesHaltStays(old(Snapshot()), level, bundles, k + 1, env, interpolate, skip);
          return;
        }
      }
      assert bundles[..|bundles|] == bundles;
      failure := None;
    }

    /** The middle loop of `processInputs`: the levels of one file. */
    method ProcessLevels(levels: seq<BundlesInfo.LevelBundles>, env: Environment,
                         interpolate: string -> string, skip: bool) returns (failure: Option<Failure>)
      modifies this
      ensures RunLevels(old(Snapshot()), levels, env, interpolate, skip) == Outcome(failure, Snapshot())
    {
      for j := 0 to |levels|
        invariant RunLevels(old(Snapshot()), levels[..j], env, interpolate, skip) == Continue(Snapshot())
      {
        assert levels[..j + 1][..j] == levels[..j];
        failure := ProcessLevel(levels[j].level, levels[j].bundles, env, interpolate, skip);
        if failure.Some? {
          LevelsHaltStays(old(Snapshot()), levels, j + 1, env, interpolate, skip);
          return;
        }
      }
      assert levels[..|levels|] == levels;
      failure := None;
    }
  }

  /** How a step with side effects ends: normally, or with an exception. */
  function Outcome(failure: Option<Failure>, ix: Index): StepResult {
    if failure.None? then Continue(ix) else Halt(failure.value, ix)
  }

  /** `remove(gav)` followed by `put(gav, spec)` is `put(gav, spec)`. */
  lemma RemoveThenPut(m: map<string, BundleSpec>, k: string, v: BundleSpec)
    ensures (m - {k})[k := v] == m[k := v]
  {
  }

  // ---------------------------------------------------------------------------
  // processInputs
  // ---------------------------------------------------------------------------

  /** The bundles of one level, in list order. */
  function RunBundles(ix: Index, level: int, bundles: seq<BundlesInfo.BundleInfo>, env: Environment,
                      interpolate: string -> string, skip: bool): StepResult
  {
    if bundles == [] then Continue(ix)
    else
      var last := bundles[|bundles| - 1];
      match RunBundles(ix, level, bundles[..|bundles| - 1], env, interpolate, skip)
      case Halt(f, j) => Halt(f, j)
      case Continue(j) => Step(j, level, last, ArtifactFor(env, interpolate, last), skip)
  }

  /** The levels of one file, in the order `read` returns them (ascending). */
  function RunLevels(ix: Index, levels: seq<BundlesInfo.LevelBundles>, env: Environment,
                     interpolate: string -> string, skip: bool): StepResult
  {
    if levels == [] then Continue(ix)
    else
      var last := levels[|levels| - 1];
      match RunLevels(ix, levels[..|levels| - 1], env, interpolate, skip)
      case Halt(f, j) => Halt(f, j)
      case Continue(j) => RunBundles(j, last.level, last.bundles, env, interpolate, skip)
  }

  /** A file that cannot be read is a `MojoFailureException`; a level attribute that is not
      a number escapes `read` as a `NumberFormatException`. */
  function ReadFailure(e: BundlesInfo.ReadError): Failure {
    if e.BadLevelNumber? then RuntimeException(MalformedLevel) else FailureException(UnreadableInput)
  }

  /** The input files, in the configured order. */
  function RunFiles(ix: Index, files: seq<BundlesInfo.InputFile>, env: Environment,
                    interpolate: string -> string, skip: bool): StepResult
  {
    if files == [] then Continue(ix)
    else
      var last := files[|files| - 1];
      match RunFiles(ix, files[..|files| - 1], env, interpolate, skip)
      case Halt(f, j) => Halt(f, j)
      case Continue(j) =>
        match BundlesInfo.ReadSpec(last)
        case Err(e) => Halt(ReadFailure(e), j)
        case Ok(levels) => RunLevels(j, levels, env, interpolate, skip)
  }

  /** One `<bundle>` of `bundles.xml`. */
  datatype OutputBundle = OutputBundle(start: bool, filename: string)

  /** One `<level>` of `bundles.xml`. */
  datatype OutputLevel = OutputLevel(level: int, bundles: seq<OutputBundle>)

  function Outputs(specs: seq<BundleSpec>): (r: seq<OutputBundle>)
    ensures |r| == |specs|
    ensures forall i :: 0 <= i < |specs| ==> r[i] == OutputBundle(specs[i].start, specs[i].filename)
  {
    seq(|specs|, i requires 0 <= i < |specs| => OutputBundle(specs[i].start, specs[i].filename))
  }

  function LevelsOf(md: seq<OutputLevel>): (levels: seq<int>)
    ensures |levels| == |md| && forall i :: 0 <= i < |md| ==> levels[i] == md[i].level
  {
    seq(|md|, i requires 0 <= i < |md| => md[i].level)
  }

  /** The `<level>` elements for the given levels, in that order. */
  function LevelList(byLevel: map<int, seq<BundleSpec>>, keys: seq<int>): (md: seq<OutputLevel>)
    requires forall i :: 0 <= i < |keys| ==> keys[i] in byLevel
    ensures LevelsOf(md) == keys
    ensures forall i :: 0 <= i < |md| ==> md[i].bundles == Outputs(byLevel[md[i].level])
  {
    if keys == [] then []
    else
      var last := keys[|keys| - 1];
      LevelList(byLevel, keys[..|keys| - 1]) + [OutputLevel(last, Outputs(byLevel[last]))]
  }

  /** What `writeMetadata` writes: every level once, in ascending order, empty levels
      included; each with its specs' start flags and file names in list order. */
  function Metadata(byLevel: map<int, seq<BundleSpec>>): (md: seq<OutputLevel>)
    ensures StrictlyAscending(LevelsOf(md))
    ensures forall k :: k in byLevel <==> k in LevelsOf(md)
    ensures forall i :: 0 <= i < |md| ==> md[i].level in byLevel && md[i].bundles == Outputs(byLevel[md[i].level])
  {
    var keys := SortedKeys(byLevel.Keys);
    var md := LevelList(byLevel, keys);
    assert forall i :: 0 <= i < |md| ==> md[i].level == keys[i];
    md
  }

  /** `processInputs` as a function: no files is a `MojoFailureException`; otherwise every
      bundle of every level of every file is processed in turn and the final levels are
      written out. */
  function Collect(files: seq<BundlesInfo.InputFile>, env: Environment, interpolate: string -> string,
                   skip: bool): Result<seq<OutputLevel>, Failure>
  {
    if files == [] then Err(FailureException(NoInputFiles))
    else match RunFiles(Empty(), files, env, interpolate, skip)
      case Halt(f, _) => Err(f)
      case Continue(ix) => Ok(Metadata(ix.byLevel))
  }

  /** `writeMetadata`, less the XML writer: the levels in `TreeMap` order. */
  method WriteMetadata(bundlesByLevel: map<int, seq<BundleSpec>>) returns (out: seq<OutputLevel>)
    ensures out == Metadata(bundlesByLevel)
  {
    var keys := SortedKeys(bundlesByLevel.Keys);
    out := WriteLevels(bundlesByLevel, keys);
  }

  /** The `<level>` elements, level by level in the order given. */
  method WriteLevels(bundlesByLevel: map<int, seq<BundleSpec>>, keys: seq<int>) returns (out: seq<OutputLevel>)
    requires forall i :: 0 <= i < |keys| ==> keys[i] in bundlesByLevel
    ensures out == LevelList(bundlesByLevel, keys)
  {
    out := [];
    for i := 0 to |keys|
      invariant out == LevelList(bundlesByLevel, keys[..i])
    {
      assert keys[..i + 1][..i] == keys[..i];
      var written := WriteLevel(bundlesByLevel[keys[i]]);
      out := out + [OutputLevel(keys[i], written)];
    }
    assert keys[..|keys|] == keys;
  }

  /** The `<bundle>` elements of one level. */
  method WriteLevel(specs: seq<BundleSpec>) returns (written: seq<OutputBundle>)
    ensures written == Outputs(specs)
  {
    written := [];
    for j := 0 to |specs|
      invariant |written| == j
      invariant forall m :: 0 <= m < j ==> written[m] == OutputBundle(specs[m].start, specs[m].filename)
    {
      written := written + [OutputBundle(specs[j].start, specs[j].filename)];
    }
  }

  lemma {:induction false} BundlesHaltStays(ix: Index, level: int, bundles: seq<BundlesInfo.BundleInfo>, n: nat,
                                            env: Environment, interpolate: string -> string, skip: bool)
    requires n <= |bundles|
    requires RunBundles(ix, level, bundles[..n], env, interpolate, skip).Halt?
    ensures RunBundles(ix, level, bundles, env, interpolate, skip) == RunBundles(ix, level, bundles[..n], env, interpolate, skip)
  {
    if n == |bundles| {
      assert bundles[..n] == bundles;
    } else {
      var init := bundles[..|bundles| - 1];
      assert init[..n] == bundles[..n];
      BundlesHaltStays(ix, level, init, n, env, interpolate, skip);
    }
  }

  lemma {:induction false} LevelsHaltStays(ix: Index, levels: seq<BundlesInfo.LevelBundles>, n: nat,
                                           env: Environment, interpolate: string -> string, skip: bool)
    requires n <= |levels|
    requires RunLevels(ix, levels[..n], env, interpolate, skip).Halt?
    ensures RunLevels(ix, levels, env, interpolate, skip) == RunLevels(ix, levels[..n], env, interpolate, skip)
  {
    if n == |levels| {
      assert levels[..n] == levels;
    } else {
      var init := levels[..|levels| - 1];
      assert init[..n] == levels[..n];
      LevelsHaltStays(ix, init, n, env, interpolate, skip);
    }
  }

  lemma {:induction false} FilesHaltStays(ix: Index, files: seq<BundlesInfo.InputFile>, n: nat,
                                          env: Environment, interpolate: string -> string, skip: bool)
    requires n <= |files|
    requires RunFiles(ix, files[..n], env, interpolate, skip).Halt?
    ensures RunFiles(ix, files, env, interpolate, skip) == RunFiles(ix, files[..n], env, interpolate, skip)
  {
    if n == |files| {
      assert files[..n] == files;
    } else {
      var init := files[..|files| - 1];
      assert init[..n] == files[..n];
      FilesHaltStays(ix, init, n, env, interpolate, skip);
    }
  }

  /** `processInputs` followed by `writeMetadata`: the outcome `Collect` describes. */
  method ProcessInputs(files: seq<BundlesInfo.InputFile>, env: Environment, interpolate: string -> string,
                       skip: bool) returns (r: Result<seq<OutputLevel>, Failure>)
    ensures r == Collect(files, env, interpolate, skip)
  {
    if |files| == 0 {
      return Err(FailureException(NoInputFiles));
    }
    var aggregator := new Aggregator();
    for i := 0 to |files|
      invariant RunFiles(Empty(), files[..i], env, interpolate, skip) == Continue(aggregator.Snapshot())
    {
      assert files[..i + 1][..i] == files[..i];
      var info := BundlesInfo.Read(files[i]);
      if info.Err? {
        FilesHaltStays(Empty(), files, i + 1, env, interpolate, skip);
        return Err(ReadFailure(info.error));
      }
      var failure := aggregator.ProcessLevels(info.value, env, interpolate, skip);
      if failure.Some? {
        FilesHaltStays(Empty(), files, i + 1, env, interpolate, skip);
        return Err(failure.value);
      }
    }
    assert files[..|files|] == files;
    var written := WriteMetadata(aggregator.bundlesByLevel);
    r := Ok(written);
  }
}
