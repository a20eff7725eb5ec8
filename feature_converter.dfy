/** `KarafFeatureConverterMojo` (goal `repackage-karaf-features`): reads Karaf feature
    files, selects features by name, resolves and copies the bundles of the selected
    features, and lists them by start level.

    The mojo's mutable state is the set of feature names still to be found, the bundles
    gathered per start level, the set of output names already processed, and the copies
    made into the output directory. */
module KarafFeatureConverter {
  import opened JavaLang
  import opened Maven
  import KarafCoordinates
  import Collector = BundleCollector

  /** A `<bundle>` of a feature: location, start level (0 when none is given) and
      start flag. */
  datatype KarafBundle = KarafBundle(location: string, startLevel: int, start: bool)

  datatype Feature = Feature(name: string, bundles: seq<KarafBundle>)

  /** A features file as the unmarshaller sees it. */
  datatype FeaturesFile = Unreadable | Features(features: seq<Feature>)

  /** The mojo's fixed configuration: the include and exclude sets for feature names,
      the default start level, the bundle include/exclude filter (`isSelected` on a
      non-null artifact), and the build's collaborators. */
  datatype Settings = Settings(
    featureIncludes: Option<set<string>>,
    featureExcludes: Option<set<string>>,
    defaultStartLevel: int,
    bundleSelected: Artifact -> bool,
    env: Environment)

  /** The state `execute` works on. */
  datatype State = State(
    features: Option<set<string>>,
    accumulated: map<int, seq<Collector.OutputBundle>>,
    processed: set<string>,
    copies: seq<Collector.CopyRecord>)

  /** Processing goes on, or stops with an exception and the state reached before it. */
  datatype Outcome = Going(state: State) | Stopped(failure: Failure, state: State)

  function Initial(features: Option<set<string>>): State {
    State(features, map[], {}, [])
  }

  // ---------------------------------------------------------------------------
  // Feature selection
  // ---------------------------------------------------------------------------

  /** The include/exclude branch of `acceptFeature`: a non-empty include set must contain
      the name and a non-empty exclude set must not. */
  function IncludeExcludeAccepts(includes: Option<set<string>>, excludes: Option<set<string>>, name: string): (r: bool)
    ensures r <==> (includes.None? || includes.value == {} || name in includes.value) &&
                   (excludes.None? || excludes.value == {} || name !in excludes.value)
  {
    if includes.Some? && |includes.value| > 0 && name !in includes.value then false
    else if excludes.Some? && |excludes.value| > 0 then name !in excludes.value
    else true
  }

  /** `acceptFeature`: with a list of wanted features, a name is accepted when it is still
      wanted, and accepting it crosses it off; without one, the include/exclude sets
      decide and nothing changes. */
  function Accept(s: Settings, st: State, name: string): (bool, State) {
    if st.features.Some? then
      if name in st.features.value then (true, st.(features := Some(st.features.value - {name})))
      else (false, st)
    else (IncludeExcludeAccepts(s.featureIncludes, s.featureExcludes, name), st)
  }

  // ---------------------------------------------------------------------------
  // processBundle
  // ---------------------------------------------------------------------------

  /** `getArtifact` of this goal: a location that is not an `mvn:` URI gives no artifact
      (the bundle is skipped); a malformed `mvn:` location is a `MojoFailureException`;
      then the version range is checked, the reactor searched and the resolver asked. */
  function ResolveBundle(env: Environment, location: string): Result<Option<Artifact>, Failure> {
    match KarafCoordinates.Parse(location)
    case Err(f) => if f.RuntimeException? then Ok(None) else Err(f)
    case Ok(c) =>
      match ResolveArtifact(c.groupId, c.artifactId, c.version, c.classifier, env)
      case Resolved(a) => Ok(Some(a))
      case Unresolved(f) => Err(f)
  }

  method GetBundleArtifact(env: Environment, location: string) returns (r: Result<Option<Artifact>, Failure>)
    ensures r == ResolveBundle(env, location)
  {
    var coordinates := KarafCoordinates.Parse(location);
    if coordinates.Err? {
      if coordinates.error.RuntimeException? {
        return Ok(None);
      }
      return Err(coordinates.error);
    }
    var c := coordinates.value;
    var resolution := Resolve(c.groupId, c.artifactId, c.version, c.classifier, env);
    r := if resolution.Resolved? then Ok(Some(resolution.artifact)) else Err(resolution.failure);
  }

  /** The level a bundle is listed at: its own, or the default when it gives none. */
  function EffectiveLevel(s: Settings, b: KarafBundle): (level: int)
    ensures b.startLevel != 0 ==> level == b.startLevel
    ensures b.startLevel == 0 ==> level == s.defaultStartLevel
  {
    if b.startLevel == 0 then s.defaultStartLevel else b.startLevel
  }

  /** `processBundle`: a bundle without an artifact or rejected by the bundle filter is
      skipped, as is one whose output name was processed before; otherwise it is copied
      as `group-artifact-version.jar` and appended to the list of its level. */
  function AddBundle(s: Settings, st: State, b: KarafBundle): Outcome {
    match ResolveBundle(s.env, b.location)
    case Err(f) => Stopped(f, st)
    case Ok(artifact) => if artifact.None? then Going(st) else Admit(s, st, b, artifact.value)
  }

  /** The part of `processBundle` after the artifact is found. */
  function Admit(s: Settings, st: State, b: KarafBundle, artifact: Artifact): Outcome {
    if !s.bundleSelected(artifact) then Going(st)
    else
      var filename := Collector.OutputFileName(artifact);
      if filename in st.processed then Going(st)
      else
        match Collector.CopyFile(artifact.file)
        case Err(f) => Stopped(f, st)
        case Ok(source) =>
          var level := EffectiveLevel(s, b);
          var list := if level in st.accumulated then st.accumulated[level] else [];
          Going(st.(accumulated := st.accumulated[level := list + [Collector.OutputBundle(b.start, filename)]],
                    copies := st.copies + [Collector.CopyRecord(source.path, filename)]))
  }

  // ---------------------------------------------------------------------------
  // The loops of execute and processOneFeatureFile
  // ---------------------------------------------------------------------------

  function RunBundles(s: Settings, st: State, bundles: seq<KarafBundle>): Outcome {
    if bundles == [] then Going(st)
    else
      match RunBundles(s, st, bundles[..|bundles| - 1])
      case Stopped(f, t) => Stopped(f, t)
      case Going(t) => AddBundle(s, t, bundles[|bundles| - 1])
  }

  /** One feature: accepted or not, then its bundles in order when accepted. */
  function RunFeature(s: Settings, st: State, feature: Feature): Outcome {
    var (accepted, t) := Accept(s, st, feature.name);
    if accepted then RunBundles(s, t, feature.bundles) else Going(t)
  }

  function RunFeatures(s: Settings, st: State, features: seq<Feature>): Outcome {
    if features == [] then Going(st)
    else
      match RunFeatures(s, st, features[..|features| - 1])
      case Stopped(f, t) => Stopped(f, t)
      case Going(t) => RunFeature(s, t, features[|features| - 1])
  }

  /** `processOneFeatureFile`: a file that cannot be read is a `MojoExecutionException`. */
  function RunFile(s: Settings, st: State, file: FeaturesFile): Outcome {
    match file
    case Unreadable => Stopped(ExecutionException(UnreadableFeatures), st)
    case Features(fs) => RunFeatures(s, st, fs)
  }

  function RunFiles(s: Settings, st: State, files: seq<FeaturesFile>): Outcome {
    if files == [] then Going(st)
    else
      match RunFiles(s, st, files[..|files| - 1])
      case Stopped(f, t) => Stopped(f, t)
      case Going(t) => RunFile(s, t, files[|files| - 1])
  }

  /** The `<level>` elements for the given levels, in that order. */
  function LevelList(accumulated: map<int, seq<Collector.OutputBundle>>, keys: seq<int>): (md: seq<Collector.OutputLevel>)
    requires forall i :: 0 <= i < |keys| ==> keys[i] in accumulated
    ensures Collector.LevelsOf(md) == keys
    ensures forall i :: 0 <= i < |md| ==> md[i].bundles == accumulated[md[i].level]
  {
    if keys == [] then []
    else
      var last := keys[|keys| - 1];
      LevelList(accumulated, keys[..|keys| - 1]) + [Collector.OutputLevel(last, accumulated[last])]
  }

  /** What `writeMetadata` writes: the gathered levels in ascending order, each with its
      bundles in the order they were added. */
  function Metadata(accumulated: map<int, seq<Collector.OutputBundle>>): (md: seq<Collector.OutputLevel>)
    ensures StrictlyAscending(Collector.LevelsOf(md))
    ensures forall k :: k in accumulated <==> k in Collector.LevelsOf(md)
    ensures forall i :: 0 <= i < |md| ==> md[i].level in accumulated && md[i].bundles == accumulated[md[i].level]
  {
    var keys := SortedKeys(accumulated.Keys);
    var md := LevelList(accumulated, keys);
    assert forall i :: 0 <= i < |md| ==> md[i].level == keys[i];
    md
  }

  /** `execute`: every file in turn; then a wanted feature that was never found is a
      `MojoExecutionException`; otherwise the gathered levels are written. */
  function Convert(s: Settings, files: seq<FeaturesFile>, features: Option<set<string>>)
    : Result<seq<Collector.OutputLevel>, Failure>
  {
    match RunFiles(s, Initial(features), files)
    case Stopped(f, _) => Err(f)
    case Going(st) =>
      if st.features.Some? && st.features.value != {} then Err(ExecutionException(FeaturesNotFound))
      else Ok(Metadata(st.accumulated))
  }

  function Ended(failure: Option<Failure>, st: State): Outcome {
    if failure.None? then Going(st) else Stopped(failure.value, st)
  }

  // ---------------------------------------------------------------------------
  // The mojo's fields and methods
  // ---------------------------------------------------------------------------

  class Converter {
    var features: Option<set<string>>
    var accumulatedBundles: map<int, seq<Collector.OutputBundle>>
    var bundlesProcessed: set<string>
    ghost var copies: seq<Collector.CopyRecord>

    ghost function Snapshot(): State
      reads this
    {
      State(features, accumulatedBundles, bundlesProcessed, copies)
    }

    /** The start of `execute`: nothing gathered, nothing processed. */
    constructor (wanted: Option<set<string>>)
      ensures Snapshot() == Initial(wanted)
    {
      features := wanted;
      accumulatedBundles := map[];
      bundlesProcessed := {};
      copies := [];
    }

    method AcceptFeature(s: Settings, name: string) returns (accepted: bool)
      modifies this
      ensures (accepted, Snapshot()) == Accept(s, old(Snapshot()), name)
    {
      if features.Some? {
        if name in features.value {
          features := Some(features.value - {name});
          return true;
        } else {
          return false;
        }
      }
      if s.featureIncludes.Some? && |s.featureIncludes.value| > 0 {
        if name !in s.featureIncludes.value {
          return false;
        }
      }
      if s.featureExcludes.Some? && |s.featureExcludes.value| > 0 {
        return name !in s.featureExcludes.value;
      }
      return true;
    }

    method ProcessBundle(s: Settings, b: KarafBundle) returns (failure: Option<Failure>)
      modifies this
      ensures AddBundle(s, old(Snapshot()), b) == Ended(failure, Snapshot())
    {
      var resolved := GetBundleArtifact(s.env, b.location);
      if resolved.Err? {
        return Some(resolved.error);
      }
      if resolved.value.None? {
        return None;
      }
      failure := AdmitBundle(s, b, resolved.value.value);
    }

    /** The rest of `processBundle`, once the artifact is found. */
    method AdmitBundle(s: Settings, b: KarafBundle, artifact: Artifact) returns (failure: Option<Failure>)
      modifies this
      ensures Admit(s, old(Snapshot()), b, artifact) == Ended(failure, Snapshot())
    {
      if !s.bundleSelected(artifact) {
        return None;
      }
      var filename := Collector.OutputFileName(artifact);
      if filename in bundlesProcessed {
        return None;
      }
      var copied := Collector.CopyFile(artifact.file);
      if copied.Err? {
        return Some(copied.error);
      }
      copies := copies + [Collector.CopyRecord(copied.value.path, filename)];
      var startLevel := b.startLevel;
      if startLevel == 0 {
        startLevel := s.defaultStartLevel;
      }
      var infoList := if startLevel in accumulatedBundles then accumulatedBundles[startLevel] else [];
      accumulatedBundles := accumulatedBundles[startLevel := infoList + [Collector.OutputBundle(b.start, filename)]];
      failure := None;
    }

    method ProcessFeature(s: Settings, feature: Feature) returns (failure: Option<Failure>)
      modifies this
      ensures RunFeature(s, old(Snapshot()), feature) == Ended(failure, Snapshot())
    {
      var accepted := AcceptFeature(s, feature.name);
      if !accepted {
        return None;
      }
      ghost var accepting := Snapshot();
      assert RunFeature(s, old(Snapshot()), feature) == RunBundles(s, accepting, feature.bundles);
      var bundles := feature.bundles;
      for k := 0 to |bundles|
        invariant RunBundles(s, accepting, bundles[..k]) == Going(Snapshot())
      {
        BundlesStep(s, accepting, bundles, k);
        failure := ProcessBundle(s, bundles[k]);
        if failure.Some? {
          BundlesStopStay(s, accepting, bundles, k + 1);
          return;
        }
      }
      assert bundles[..|bundles|] == bundles;
      failure := None;
    }

    method ProcessOneFeatureFile(s: Settings, file: FeaturesFile) returns (failure: Option<Failure>)
      modifies this
      ensures RunFile(s, old(Snapshot()), file) == Ended(failure, Snapshot())
    {
      if file.Unreadable? {
        return Some(ExecutionException(UnreadableFeatures));
      }
      var fs := file.features;
      for j := 0 to |fs|
        invariant RunFeatures(s, old(Snapshot()), fs[..j]) == Going(Snapshot())
      {
        assert fs[..j + 1][..j] == fs[..j];
        failure := ProcessFeature(s, fs[j]);
        if failure.Some? {
          FeaturesStopStay(s, old(Snapshot()), fs, j + 1);
          return;
        }
      }
      assert fs[..|fs|] == fs;
      failure := None;
    }
  }

  /** `writeMetadata`, less the XML writer. */
  method WriteMetadata(accumulated: map<int, seq<Collector.OutputBundle>>) returns (out: seq<Collector.OutputLevel>)
    ensures out == Metadata(accumulated)
  {
    var keys := SortedKeys(accumulated.Keys);
    out := WriteLevels(accumulated, keys);
  }

  /** The `<level>` elements, level by level in the order given. */
  method WriteLevels(accumulated: map<int, seq<Collector.OutputBundle>>, keys: seq<int>)
    returns (out: seq<Collector.OutputLevel>)
    requires forall i :: 0 <= i < |keys| ==> keys[i] in accumulated
    ensures out == LevelList(accumulated, keys)
  {
    out := [];
    for i := 0 to |keys|
      invariant out == LevelList(accumulated, keys[..i])
    {
      assert keys[..i + 1][..i] == keys[..i];
      out := out + [Collector.OutputLevel(keys[i], accumulated[keys[i]])];
    }
    assert keys[..|keys|] == keys;
  }

  /** `execute`. */
  method Execute(s: Settings, files: seq<FeaturesFile>, features: Option<set<string>>)
    returns (r: Result<seq<Collector.OutputLevel>, Failure>)
    ensures r == Convert(s, files, features)
  {
    var converter := new Converter(features);
    for i := 0 to |files|
      invariant RunFiles(s, Initial(features), files[..i]) == Going(converter.Snapshot())
    {
      assert files[..i + 1][..i] == files[..i];
      var failure := converter.ProcessOneFeatureFile(s, files[i]);
      if failure.Some? {
        FilesStopStay(s, Initial(features), files, i + 1);
        return Err(failure.value);
      }
    }
    assert files[..|files|] == files;
    if converter.features.Some? && converter.features.value != {} {
      return Err(ExecutionException(FeaturesNotFound));
    }
    var written := WriteMetadata(converter.accumulatedBundles);
    r := Ok(written);
  }

  lemma {:induction false} BundlesStopStay(s: Settings, st: State, bundles: seq<KarafBundle>, n: nat)
    requires n <= |bundles| && RunBundles(s, st, bundles[..n]).Stopped?
    ensures RunBundles(s, st, bundles) == RunBundles(s, st, bundles[..n])
  {
    if n < |bundles| {
      var init := bundles[..|bundles| - 1];
      assert init[..n] == bundles[..n];
      BundlesStopStay(s, st, init, n);
    } else {
      assert bundles[..n] == bundles;
    }
  }

  /** One more bundle after a run that is still going. */
  lemma BundlesStep(s: Settings, st: State, bundles: seq<KarafBundle>, k: nat)
    requires k < |bundles| && RunBundles(s, st, bundles[..k]).Going?
    ensures RunBundles(s, st, bundles[..k + 1]) == AddBundle(s, RunBundles(s, st, bundles[..k]).state, bundles[k])
  {
    assert bundles[..k + 1][..k] == bundles[..k];
  }

  lemma {:induction false} FeaturesStopStay(s: Settings, st: State, features: seq<Feature>, n: nat)
    requires n <= |features| && RunFeatures(s, st, features[..n]).Stopped?
    ensures RunFeatures(s, st, features) == RunFeatures(s, st, features[..n])
  {
    if n < |features| {
      var init := features[..|features| - 1];
      assert init[..n] == features[..n];
      FeaturesStopStay(s, st, init, n);
    } else {
      assert features[..n] == features;
    }
  }

  lemma {:induction false} FilesStopStay(s: Settings, st: State, files: seq<FeaturesFile>, n: nat)
    requires n <= |files| && RunFiles(s, st, files[..n]).Stopped?
    ensures RunFiles(s, st, files) == RunFiles(s, st, files[..n])
  {
    if n < |files| {
      var init := files[..|files| - 1];
      assert init[..n] == files[..n];
      FilesStopStay(s, st, init, n);
    } else {
      assert files[..n] == files;
    }
  }

  // ---------------------------------------------------------------------------
  // Properties
  // ---------------------------------------------------------------------------

  /** With a list of wanted features, a name is accepted exactly when it is still wanted,
      and accepting it crosses it off, so it is never accepted twice. */
  lemma AcceptedAtMostOnce(s: Settings, st: State, name: string)
    requires st.features.Some?
    ensures Accept(s, st, name).0 <==> name in st.features.value
    ensures Accept(s, st, name).1.features == Some(st.features.value - {name})
    ensures !Accept(s, Accept(s, st, name).1, name).0
  {
    if name !in st.features.value {
      assert st.features.value - {name} == st.features.value;
    }
  }

  /** Without a list, acceptance is the include/exclude test and changes nothing. */
  lemma AcceptWithoutList(s: Settings, st: State, name: string)
    requires st.features.None?
    ensures Accept(s, st, name) == (IncludeExcludeAccepts(s.featureIncludes, s.featureExcludes, name), st)
  {
  }

  /** The names of the features of a sequence. */
  function Names(features: seq<Feature>): (names: set<string>)
    ensures forall i :: 0 <= i < |features| ==> features[i].name in names
    ensures forall n :: n in names ==> exists i :: 0 <= i < |features| && features[i].name == n
  {
    set i | 0 <= i < |features| :: features[i].name
  }

  /** The names of all features of all readable files. */
  function FileNames(files: seq<FeaturesFile>): set<string> {
    if files == [] then {}
    else
      var last := files[|files| - 1];
      FileNames(files[..|files| - 1]) + (if last.Features? then Names(last.features) else {})
  }

  lemma {:induction false} BundlesKeepFeatures(s: Settings, st: State, bundles: seq<KarafBundle>)
    ensures RunBundles(s, st, bundles).state.features == st.features
    ensures RunBundles(s, st, bundles).state.processed == st.processed
  {
    if bundles != [] {
      BundlesKeepFeatures(s, st, bundles[..|bundles| - 1]);
    }
  }

  lemma NamesSnoc(features: seq<Feature>)
    requires features != []
    ensures Names(features) == Names(features[..|features| - 1]) + {features[|features| - 1].name}
  {
    var init := features[..|features| - 1];
    forall n | n in Names(features) ensures n in Names(init) + {features[|features| - 1].name} {
      var i :| 0 <= i < |features| && features[i].name == n;
      if i < |features| - 1 {
        assert init[i] == features[i];
      }
    }
  }

  /** Over the features of a file: with a wanted list, the names left wanted afterwards are
      those of the list that none of the features carries; without one there stays none;
      the set of processed names is never touched. */
  lemma {:induction false} FeaturesCrossOff(s: Settings, st: State, features: seq<Feature>)
    ensures RunFeatures(s, st, features).state.processed == st.processed
    ensures st.features.None? ==> RunFeatures(s, st, features).state.features.None?
    ensures st.features.Some? && RunFeatures(s, st, features).Going? ==>
            RunFeatures(s, st, features).state.features == Some(st.features.value - Names(features))
  {
    if features != [] {
      var init := features[..|features| - 1];
      var last := features[|features| - 1];
      FeaturesCrossOff(s, st, init);
      var mid := RunFeatures(s, st, init);
      if mid.Going? {
        var (accepted, t) := Accept(s, mid.state, last.name);
        BundlesKeepFeatures(s, t, last.bundles);
        NamesSnoc(features);
        assert RunFeatures(s, st, features) == RunFeature(s, mid.state, last);
        assert RunFeature(s, mid.state, last).state.features == t.features;
        assert RunFeature(s, mid.state, last).state.processed == t.processed;
        if st.features.Some? && RunFeatures(s, st, features).Going? {
          var wanted := st.features.value - Names(init);
          if last.name !in wanted {
            assert wanted - {last.name} == wanted;
          }
          assert t.features == Some(wanted - {last.name});
          assert wanted - {last.name} == st.features.value - Names(features);
        }
      }
    } else if st.features.Some? {
      assert st.features.value - Names(features) == st.features.value;
    }
  }

  lemma {:induction false} FilesCrossOff(s: Settings, st: State, files: seq<FeaturesFile>)
    ensures RunFiles(s, st, files).state.processed == st.processed
    ensures st.features.None? ==> RunFiles(s, st, files).state.features.None?
    ensures st.features.Some? && RunFiles(s, st, files).Going? ==>
            RunFiles(s, st, files).state.features == Some(st.features.value - FileNames(files))
  {
    if files != [] {
      var init := files[..|files| - 1];
      var last := files[|files| - 1];
      FilesCrossOff(s, st, init);
      var mid := RunFiles(s, st, init);
      assert FileNames(files) == FileNames(init) + (if last.Features? then Names(last.features) else {});
      if mid.Going? && last.Features? {
        FeaturesCrossOff(s, mid.state, last.features);
        assert RunFiles(s, st, files) == RunFeatures(s, mid.state, last.features);
        if st.features.Some? && RunFiles(s, st, files).Going? {
          assert st.features.value - FileNames(init) - Names(last.features) ==
                 st.features.value - FileNames(files);
        }
      }
    } else if st.features.Some? {
      assert st.features.value - FileNames(files) == st.features.value;
    }
  }

  /** The missing-feature check: a run that gets through all files fails exactly when some
      wanted feature occurs in none of them; without a wanted list it never fails so. */
  lemma MissingFeatures(s: Settings, files: seq<FeaturesFile>, features: Option<set<string>>)
    requires RunFiles(s, Initial(features), files).Going?
    ensures Convert(s, files, features) == Err(ExecutionException(FeaturesNotFound)) <==>
            features.Some? && !(features.value <= FileNames(files))
  {
    FilesCrossOff(s, Initial(features), files);
    if features.Some? {
      var left := features.value - FileNames(files);
      assert left == {} <==> features.value <= FileNames(files) by {
        if left == {} {
          forall n | n in features.value ensures n in FileNames(files) {
            assert n !in left;
          }
        }
      }
    }
  }

  /** Nothing ever adds an output name to `bundlesProcessed`, so it stays empty and the
      duplicate check never skips a bundle. */
  lemma ProcessedStaysEmpty(s: Settings, files: seq<FeaturesFile>, features: Option<set<string>>)
    ensures RunFiles(s, Initial(features), files).state.processed == {}
  {
    FilesCrossOff(s, Initial(features), files);
  }

  /** A selected bundle that can be copied is appended to its level (the default level
      when it gives none) under `group-artifact-version.jar`, however often it was seen
      before. */
  lemma SelectedBundleAppended(s: Settings, st: State, b: KarafBundle, artifact: Artifact)
    requires st.processed == {}
    requires ResolveBundle(s.env, b.location) == Ok(Some(artifact)) && s.bundleSelected(artifact)
    requires artifact.file.Some? && artifact.file.value.kind == RegularFile
    ensures var level := EffectiveLevel(s, b);
            var r := AddBundle(s, st, b);
            var entry := Collector.OutputBundle(b.start, Collector.OutputFileName(artifact));
            r.Going? &&
            r.state.accumulated == st.accumulated[level := (if level in st.accumulated then st.accumulated[level] else []) + [entry]] &&
            r.state.copies == st.copies + [Collector.CopyRecord(artifact.file.value.path, Collector.OutputFileName(artifact))] &&
            r.state.features == st.features && r.state.processed == st.processed
  {
  }

  /** Two bundles in a row: the second is added to whatever state the first left. */
  lemma RunTwoBundles(s: Settings, st: State, b: KarafBundle, c: KarafBundle)
    ensures AddBundle(s, st, b).Going? ==>
              RunBundles(s, st, [b, c]) == AddBundle(s, AddBundle(s, st, b).state, c)
  {
    assert [b, c][..1] == [b] && [b][..0] == [];
    assert RunBundles(s, st, [b]) == AddBundle(s, st, b);
  }

  /** So a bundle listed twice is copied twice and listed twice at its level. */
  lemma DuplicateListedTwice(s: Settings, st: State, b: KarafBundle, artifact: Artifact)
    requires st.processed == {}
    requires ResolveBundle(s.env, b.location) == Ok(Some(artifact)) && s.bundleSelected(artifact)
    requires artifact.file.Some? && artifact.file.value.kind == RegularFile
    ensures var level := EffectiveLevel(s, b);
            var r := RunBundles(s, st, [b, b]);
            var entry := Collector.OutputBundle(b.start, Collector.OutputFileName(artifact));
            r.Going? && level in r.state.accumulated &&
            r.state.accumulated[level] == (if level in st.accumulated then st.accumulated[level] else []) + [entry, entry] &&
            |r.state.copies| == |st.copies| + 2
  {
    var level := EffectiveLevel(s, b);
    var entry := Collector.OutputBundle(b.start, Collector.OutputFileName(artifact));
    SelectedBundleAppended(s, st, b, artifact);
    var once := AddBundle(s, st, b).state;
    SelectedBundleAppended(s, once, b, artifact);
    RunTwoBundles(s, st, b, b);
    AppendedTwice(st.accumulated, once.accumulated, AddBundle(s, once, b).state.accumulated, level, entry);
  }

  /** Two appends of one entry to the list of one level. */
  lemma AppendedTwice(a0: map<int, seq<Collector.OutputBundle>>, a1: map<int, seq<Collector.OutputBundle>>,
                      a2: map<int, seq<Collector.OutputBundle>>, level: int, entry: Collector.OutputBundle)
    requires a1 == a0[level := (if level in a0 then a0[level] else []) + [entry]]
    requires a2 == a1[level := (if level in a1 then a1[level] else []) + [entry]]
    ensures level in a2 && a2[level] == (if level in a0 then a0[level] else []) + [entry, entry]
  {
    var prior := if level in a0 then a0[level] else [];
    assert a2[level] == prior + [entry] + [entry];
    assert prior + [entry] + [entry] == prior + [entry, entry];
  }

  /** A location that is not an `mvn:` URI is skipped and changes nothing. */
  lemma NonMavenLocationSkipped(s: Settings, st: State, b: KarafBundle)
    requires !StartsWith(b.location, KarafCoordinates.PREFIX)
    ensures AddBundle(s, st, b) == Going(st)
  {
  }

  /** A bundle the filter rejects is skipped and changes nothing. */
  lemma RejectedBundleSkipped(s: Settings, st: State, b: KarafBundle, artifact: Artifact)
    requires ResolveBundle(s.env, b.location) == Ok(Some(artifact)) && !s.bundleSelected(artifact)
    ensures AddBundle(s, st, b) == Going(st)
  {
  }
}
