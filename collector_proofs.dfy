/** What `processInputs` keeps true of its two maps and the output directory, and the laws
    of one `processBundle` call: repeats move to the lower level and keep their first
    start flag and file name, a bundle is copied once, the manifest is read only for
    bundles that are to be started, and skipping affects resolution failures only. Over a
    whole run an identity ends at the lowest level it was listed at, and a document read a
    second time changes no spec and copies nothing. */
module CollectorProperties {
  import opened JavaLang
  import opened Maven
  import opened BundleSpecs
  import BundlesInfo
  import opened BundleCollector

  // ---------------------------------------------------------------------------
  // The bookkeeping invariant
  // ---------------------------------------------------------------------------

  /** Every spec in a level's list sits in the list of its own level and is the one
      recorded under its identity. */
  predicate Listed(ix: Index) {
    forall l, i :: l in ix.byLevel && 0 <= i < |ix.byLevel[l]| ==>
      ix.byLevel[l][i].level == l && ix.byLevel[l][i].gav in ix.byGav &&
      ix.byGav[ix.byLevel[l][i].gav] == ix.byLevel[l][i]
  }

  /** Every recorded spec carries its own identity and occurs exactly once in the list of
      its level. */
  predicate Recorded(ix: Index) {
    forall g :: g in ix.byGav ==>
      ix.byGav[g].gav == g && ix.byGav[g].level in ix.byLevel &&
      multiset(ix.byLevel[ix.byGav[g].level])[ix.byGav[g]] == 1
  }

  /** The target names of the copies, in the order they were made. */
  function Targets(copies: seq<CopyRecord>): (t: seq<string>)
    ensures |t| == |copies| && forall i :: 0 <= i < |copies| ==> t[i] == copies[i].target
  {
    seq(|copies|, i requires 0 <= i < |copies| => copies[i].target)
  }

  /** One copy per recorded identity, and every recorded file name was copied to. */
  predicate Copied(ix: Index) {
    |ix.copies| == |ix.byGav| &&
    forall g :: g in ix.byGav ==> ix.byGav[g].filename in Targets(ix.copies)
  }

  predicate Consistent(ix: Index) {
    Listed(ix) && Recorded(ix) && Copied(ix)
  }

  /** `Listed` and `Recorded`, with the identity `gav` not listed anywhere and not
      required to be recorded: the state halfway through `processBundle`. */
  predicate ConsistentBut(ix: Index, gav: string) {
    ListedBut(ix, gav) && RecordedBut(ix, gav)
  }

  predicate ListedBut(ix: Index, gav: string) {
    forall l, i :: l in ix.byLevel && 0 <= i < |ix.byLevel[l]| ==>
      ix.byLevel[l][i].level == l && ix.byLevel[l][i].gav != gav && ix.byLevel[l][i].gav in ix.byGav &&
      ix.byGav[ix.byLevel[l][i].gav] == ix.byLevel[l][i]
  }

  predicate RecordedBut(ix: Index, gav: string) {
    forall g :: g in ix.byGav && g != gav ==>
      ix.byGav[g].gav == g && ix.byGav[g].level in ix.byLevel &&
      multiset(ix.byLevel[ix.byGav[g].level])[ix.byGav[g]] == 1
  }

  lemma EmptyIsConsistent()
    ensures Consistent(Empty())
  {
  }

  lemma FreshIsConsistentBut(ix: Index, gav: string)
    requires Listed(ix) && Recorded(ix)
    requires gav !in ix.byGav
    ensures ConsistentBut(ix, gav)
  {
  }

  /** Taking the recorded spec of `prior.gav` out of its level's list leaves that identity
      listed nowhere. */
  lemma UnlistIsConsistentBut(ix: Index, prior: BundleSpec)
    requires Listed(ix) && Recorded(ix)
    requires prior.gav in ix.byGav && ix.byGav[prior.gav] == prior
    ensures prior.level in ix.byLevel
    ensures ConsistentBut(Unlist(ix, prior), prior.gav)
  {
    UnlistIsListedBut(ix, prior);
    UnlistIsRecordedBut(ix, prior);
  }

  lemma UnlistIsListedBut(ix: Index, prior: BundleSpec)
    requires Listed(ix) && Recorded(ix)
    requires prior.gav in ix.byGav && ix.byGav[prior.gav] == prior
    ensures prior.level in ix.byLevel
    ensures ListedBut(Unlist(ix, prior), prior.gav)
  {
    var u := Unlist(ix, prior);
    var p := prior.level;
    var old_list := ix.byLevel[p];
    var new_list := u.byLevel[p];
    assert multiset(new_list)[prior] == 0;
    forall l, i | l in u.byLevel && 0 <= i < |u.byLevel[l]|
      ensures u.byLevel[l][i].level == l && u.byLevel[l][i].gav != prior.gav &&
              u.byLevel[l][i].gav in u.byGav && u.byGav[u.byLevel[l][i].gav] == u.byLevel[l][i]
    {
      var e := u.byLevel[l][i];
      if l == p {
        assert e in multiset(new_list);
        assert e in old_list;
        var k :| 0 <= k < |old_list| && old_list[k] == e;
        assert e != prior;
      } else {
        assert e == ix.byLevel[l][i];
      }
    }
  }

  lemma UnlistIsRecordedBut(ix: Index, prior: BundleSpec)
    requires Listed(ix) && Recorded(ix)
    requires prior.gav in ix.byGav && ix.byGav[prior.gav] == prior
    ensures prior.level in ix.byLevel
    ensures RecordedBut(Unlist(ix, prior), prior.gav)
  {
    var u := Unlist(ix, prior);
    forall g | g in u.byGav && g != prior.gav
      ensures u.byGav[g].gav == g && u.byGav[g].level in u.byLevel &&
              multiset(u.byLevel[u.byGav[g].level])[u.byGav[g]] == 1
    {
      var s := ix.byGav[g];
      assert s != prior;
    }
  }

  /** Recording a spec whose identity is listed nowhere restores `Listed` ... */
  lemma RecordIsListed(ix: Index, spec: BundleSpec)
    requires ConsistentBut(ix, spec.gav)
    ensures Listed(Record(ix, spec))
  {
    var r := Record(ix, spec);
    var base := if spec.level in ix.byLevel then ix.byLevel[spec.level] else [];
    assert r.byLevel[spec.level] == base + [spec];
    forall l, i | l in r.byLevel && 0 <= i < |r.byLevel[l]|
      ensures r.byLevel[l][i].level == l && r.byLevel[l][i].gav in r.byGav &&
              r.byGav[r.byLevel[l][i].gav] == r.byLevel[l][i]
    {
      if l == spec.level && i == |base| {
        assert r.byLevel[l][i] == spec;
      } else {
        assert r.byLevel[l][i] == ix.byLevel[l][i];
      }
    }
  }

  /** ... and `Recorded`. */
  lemma RecordIsRecorded(ix: Index, spec: BundleSpec)
    requires ConsistentBut(ix, spec.gav)
    ensures Recorded(Record(ix, spec))
  {
    var r := Record(ix, spec);
    var base := if spec.level in ix.byLevel then ix.byLevel[spec.level] else [];
    assert r.byLevel[spec.level] == base + [spec];
    if spec.level in ix.byLevel {
      forall k | 0 <= k < |base| ensures base[k] != spec {
        assert base[k].gav != spec.gav;
      }
    }
    assert spec !in base;
    assert multiset(r.byLevel[spec.level])[spec] == 1;
    forall g | g in r.byGav
      ensures r.byGav[g].gav == g && r.byGav[g].level in r.byLevel &&
              multiset(r.byLevel[r.byGav[g].level])[r.byGav[g]] == 1
    {
      if g != spec.gav {
        var s := ix.byGav[g];
        assert r.byGav[g] == s && s != spec;
        if s.level == spec.level {
          assert multiset(r.byLevel[s.level]) == multiset(base) + multiset{spec};
        }
      }
    }
  }

  lemma RecordIsListedAndRecorded(ix: Index, spec: BundleSpec)
    requires ConsistentBut(ix, spec.gav)
    ensures Listed(Record(ix, spec)) && Recorded(Record(ix, spec))
  {
    RecordIsListed(ix, spec);
    RecordIsRecorded(ix, spec);
  }

  /** What `Step` does with a bundle seen before. */
  lemma RepeatStep(ix: Index, level: int, bundle: BundlesInfo.BundleInfo, artifact: Artifact, skip: bool)
    requires GavKey(artifact) in ix.byGav && ix.byGav[GavKey(artifact)].level in ix.byLevel
    ensures var prior := ix.byGav[GavKey(artifact)];
            Step(ix, level, bundle, Ok(artifact), skip) ==
            Continue(Record(Unlist(ix, prior), BundleSpec(GavKey(artifact), Min(prior.level, level), prior.start, prior.filename)))
  {
  }

  /** What `Step` does with a first sighting that gets through. */
  lemma FreshStep(ix: Index, level: int, bundle: BundlesInfo.BundleInfo, artifact: Artifact, skip: bool)
    requires GavKey(artifact) !in ix.byGav
    requires Step(ix, level, bundle, Ok(artifact), skip).Continue?
    ensures artifact.file.Some? && (bundle.start ==> IsJarFragment(artifact.file.value.content).Ok?)
    ensures var source := artifact.file.value;
            var start := bundle.start && !IsJarFragment(source.content).value;
            Step(ix, level, bundle, Ok(artifact), skip) ==
            Continue(Record(ix.(copies := ix.copies + [CopyRecord(source.path, OutputFileName(artifact))]),
                            BundleSpec(GavKey(artifact), level, start, OutputFileName(artifact))))
  {
  }

  lemma {:induction false} TargetsAppend(copies: seq<CopyRecord>, c: CopyRecord)
    ensures Targets(copies + [c]) == Targets(copies) + [c.target]
  {
  }

  /** A repeat: the recorded spec leaves its list and the merged one is recorded. */
  lemma RepeatKeepsConsistent(ix: Index, level: int, bundle: BundlesInfo.BundleInfo, artifact: Artifact, skip: bool)
    requires Consistent(ix)
    requires GavKey(artifact) in ix.byGav
    ensures Step(ix, level, bundle, Ok(artifact), skip).Continue?
    ensures Consistent(Step(ix, level, bundle, Ok(artifact), skip).index)
  {
    var gav := GavKey(artifact);
    var prior := ix.byGav[gav];
    UnlistIsConsistentBut(ix, prior);
    RepeatStep(ix, level, bundle, artifact, skip);
    var spec := BundleSpec(gav, Min(prior.level, level), prior.start, prior.filename);
    RecordIsListedAndRecorded(Unlist(ix, prior), spec);
    RecordKeepsCopied(Unlist(ix, prior), spec);
  }

  /** Re-recording an identity under its old file name copies nothing new. */
  lemma RecordKeepsCopied(ix: Index, spec: BundleSpec)
    requires Copied(ix)
    requires spec.gav in ix.byGav && spec.filename == ix.byGav[spec.gav].filename
    ensures Copied(Record(ix, spec))
  {
    var r := Record(ix, spec);
    assert r.byGav.Keys == ix.byGav.Keys;
    forall g | g in r.byGav ensures r.byGav[g].filename in Targets(r.copies) {
      assert r.byGav[g].filename == ix.byGav[g].filename;
    }
  }

  /** A first sighting that gets through: one more copy and one more identity. */
  lemma FreshKeepsConsistent(ix: Index, level: int, bundle: BundlesInfo.BundleInfo, artifact: Artifact, skip: bool)
    requires Consistent(ix)
    requires GavKey(artifact) !in ix.byGav
    ensures Step(ix, level, bundle, Ok(artifact), skip).Continue? ==>
            Consistent(Step(ix, level, bundle, Ok(artifact), skip).index)
  {
    var gav := GavKey(artifact);
    if Step(ix, level, bundle, Ok(artifact), skip).Continue? {
      FreshIsConsistentBut(ix, gav);
      FreshStep(ix, level, bundle, artifact, skip);
      var source := artifact.file.value;
      var filename := OutputFileName(artifact);
      var c := CopyRecord(source.path, filename);
      var copied := ix.(copies := ix.copies + [c]);
      var spec := BundleSpec(gav, level, bundle.start && !IsJarFragment(source.content).value, filename);
      RecordIsListedAndRecorded(copied, spec);
      FreshRecordCopied(ix, c, spec);
    }
  }

  /** A new identity recorded together with its copy keeps one copy per identity. */
  lemma FreshRecordCopied(ix: Index, c: CopyRecord, spec: BundleSpec)
    requires Copied(ix)
    requires spec.gav !in ix.byGav && c.target == spec.filename
    ensures Copied(Record(ix.(copies := ix.copies + [c]), spec))
  {
    var r := Record(ix.(copies := ix.copies + [c]), spec);
    TargetsAppend(ix.copies, c);
    assert |r.byGav| == |ix.byGav| + 1;
    forall g | g in r.byGav ensures r.byGav[g].filename in Targets(r.copies) {
      if g != spec.gav {
        assert r.byGav[g].filename in Targets(ix.copies);
      }
    }
  }

  /** `processBundle` keeps the invariant, and a bundle seen before never fails. */
  lemma {:induction false} StepKeepsConsistent(ix: Index, level: int, bundle: BundlesInfo.BundleInfo,
                                               outcome: Result<Artifact, Failure>, skip: bool)
    requires Consistent(ix)
    ensures Step(ix, level, bundle, outcome, skip).Continue? ==> Consistent(Step(ix, level, bundle, outcome, skip).index)
    ensures outcome.Ok? && GavKey(outcome.value) in ix.byGav ==> Step(ix, level, bundle, outcome, skip).Continue?
  {
    if outcome.Ok? {
      if GavKey(outcome.value) in ix.byGav {
        RepeatKeepsConsistent(ix, level, bundle, outcome.value, skip);
      } else {
        FreshKeepsConsistent(ix, level, bundle, outcome.value, skip);
      }
    }
  }

  lemma {:induction false} BundlesKeepConsistent(ix: Index, level: int, bundles: seq<BundlesInfo.BundleInfo>,
                                                 env: Environment, interpolate: string -> string, skip: bool)
    requires Consistent(ix)
    ensures RunBundles(ix, level, bundles, env, interpolate, skip).Continue? ==>
            Consistent(RunBundles(ix, level, bundles, env, interpolate, skip).index)
  {
    if bundles != [] {
      var init := bundles[..|bundles| - 1];
      var last := bundles[|bundles| - 1];
      BundlesKeepConsistent(ix, level, init, env, interpolate, skip);
      var mid := RunBundles(ix, level, init, env, interpolate, skip);
      if mid.Continue? {
        StepKeepsConsistent(mid.index, level, last, ArtifactFor(env, interpolate, last), skip);
      }
    }
  }

  lemma {:induction false} LevelsKeepConsistent(ix: Index, levels: seq<BundlesInfo.LevelBundles>,
                                                env: Environment, interpolate: string -> string, skip: bool)
    requires Consistent(ix)
    ensures RunLevels(ix, levels, env, interpolate, skip).Continue? ==>
            Consistent(RunLevels(ix, levels, env, interpolate, skip).index)
  {
    if levels != [] {
      var init := levels[..|levels| - 1];
      var last := levels[|levels| - 1];
      LevelsKeepConsistent(ix, init, env, interpolate, skip);
      var mid := RunLevels(ix, init, env, interpolate, skip);
      if mid.Continue? {
        BundlesKeepConsistent(mid.index, last.level, last.bundles, env, interpolate, skip);
      }
    }
  }

  lemma {:induction false} FilesKeepConsistent(ix: Index, files: seq<BundlesInfo.InputFile>,
                                               env: Environment, interpolate: string -> string, skip: bool)
    requires Consistent(ix)
    ensures RunFiles(ix, files, env, interpolate, skip).Continue? ==>
            Consistent(RunFiles(ix, files, env, interpolate, skip).index)
  {
    if files != [] {
      var init := files[..|files| - 1];
      var last := files[|files| - 1];
      FilesKeepConsistent(ix, init, env, interpolate, skip);
      var mid := RunFiles(ix, init, env, interpolate, skip);
      if mid.Continue? && BundlesInfo.ReadSpec(last).Ok? {
        LevelsKeepConsistent(mid.index, BundlesInfo.ReadSpec(last).value, env, interpolate, skip);
      }
    }
  }

  /** A run that succeeds writes the levels of a consistent state: each bundle identity
      listed exactly once, at its own level, and copied exactly once. */
  lemma CollectWritesConsistentState(files: seq<BundlesInfo.InputFile>, env: Environment,
                                     interpolate: string -> string, skip: bool)
    ensures Collect(files, env, interpolate, skip).Ok? ==>
            exists ix :: Consistent(ix) && Collect(files, env, interpolate, skip).value == Metadata(ix.byLevel)
  {
    EmptyIsConsistent();
    FilesKeepConsistent(Empty(), files, env, interpolate, skip);
    if Collect(files, env, interpolate, skip).Ok? {
      var ix := RunFiles(Empty(), files, env, interpolate, skip).index;
      assert Consistent(ix) && Collect(files, env, interpolate, skip).value == Metadata(ix.byLevel);
    }
  }

  // ---------------------------------------------------------------------------
  // One processBundle call
  // ---------------------------------------------------------------------------

  /** A bundle seen before: it never fails; its spec moves to the lower of the two levels,
      keeps its start flag and file name, leaves its old level's list and ends the list of
      its new level; nothing is copied, and every other identity keeps its spec. When the
      new level is not lower the recorded specs do not change at all. */
  lemma {:induction false} RepeatSighting(ix: Index, level: int, bundle: BundlesInfo.BundleInfo, artifact: Artifact,
                                          skip: bool)
    requires Recorded(ix)
    requires GavKey(artifact) in ix.byGav
    ensures var gav := GavKey(artifact);
            var prior := ix.byGav[gav];
            var step := Step(ix, level, bundle, Ok(artifact), skip);
            var spec := BundleSpec(gav, Min(prior.level, level), prior.start, prior.filename);
            step.Continue? &&
            step.index.byGav[gav] == spec &&
            (forall g :: g in ix.byGav && g != gav ==> g in step.index.byGav && step.index.byGav[g] == ix.byGav[g]) &&
            step.index.byGav.Keys == ix.byGav.Keys &&
            step.index.copies == ix.copies &&
            step.index.byLevel.Keys == ix.byLevel.Keys + {spec.level} &&
            step.index.byLevel[spec.level][|step.index.byLevel[spec.level]| - 1] == spec &&
            (spec.level != prior.level ==>
              step.index.byLevel[prior.level] == RemoveFirst(ix.byLevel[prior.level], prior)) &&
            (level >= prior.level ==> step.index.byGav == ix.byGav)
  {
    var gav := GavKey(artifact);
    var prior := ix.byGav[gav];
    var spec := BundleSpec(gav, Min(prior.level, level), prior.start, prior.filename);
    RepeatStep(ix, level, bundle, artifact, skip);
    if level >= prior.level {
      assert spec == prior;
      assert ix.byGav[gav := spec] == ix.byGav;
    }
  }

  /** The level lists after a repeat: the prior spec leaves its list and the relocated
      spec goes to the end of the list of the lower level. At the same or a higher level
      the spec goes back to the end of its own list, behind bundles listed after it. */
  lemma RepeatRelocates(ix: Index, level: int, bundle: BundlesInfo.BundleInfo, artifact: Artifact, skip: bool)
    requires Recorded(ix)
    requires GavKey(artifact) in ix.byGav
    ensures var prior := ix.byGav[GavKey(artifact)];
            var step := Step(ix, level, bundle, Ok(artifact), skip);
            prior.level in ix.byLevel && step.Continue? &&
            var emptied := RemoveFirst(ix.byLevel[prior.level], prior);
            (level >= prior.level ==> step.index.byLevel == ix.byLevel[prior.level := emptied + [prior]]) &&
            (level < prior.level ==>
               step.index.byLevel ==
               ix.byLevel[prior.level := emptied]
                         [level := (if level in ix.byLevel then ix.byLevel[level] else []) +
                                   [BundleSpec(prior.gav, level, prior.start, prior.filename)]])
  {
    var prior := ix.byGav[GavKey(artifact)];
    var spec := BundleSpec(GavKey(artifact), Min(prior.level, level), prior.start, prior.filename);
    var emptied := RemoveFirst(ix.byLevel[prior.level], prior);
    RepeatStep(ix, level, bundle, artifact, skip);
    var u := ix.byLevel[prior.level := emptied];
    assert Unlist(ix, prior).byLevel == u;
    assert Record(Unlist(ix, prior), spec).byLevel == AppendAt(u, spec.level, spec);
    if level >= prior.level {
      assert spec == prior;
      assert AppendAt(u, prior.level, prior) == ix.byLevel[prior.level := emptied + [prior]];
    } else {
      assert spec == BundleSpec(prior.gav, level, prior.start, prior.filename);
      assert (if level in u then u[level] else []) == (if level in ix.byLevel then ix.byLevel[level] else []);
    }
  }

  /** A bundle seen for the first time whose artifact has a regular file: it is copied
      under `group-artifact-version.jar` and recorded at the listed level; it is started
      exactly when the list asks for it and the copied jar is an OSGi bundle that is not
      a fragment. */
  lemma FirstSighting(ix: Index, level: int, bundle: BundlesInfo.BundleInfo, artifact: Artifact, skip: bool)
    requires GavKey(artifact) !in ix.byGav
    requires artifact.file.Some? && artifact.file.value.kind == RegularFile
    ensures var step := Step(ix, level, bundle, Ok(artifact), skip);
            var content := artifact.file.value.content;
            var copy := CopyRecord(artifact.file.value.path, OutputFileName(artifact));
            (step.Continue? <==> !bundle.start || IsJarFragment(content).Ok?) &&
            (step.Halt? ==> step.failure == IsJarFragment(content).error && step.index.copies == ix.copies + [copy]) &&
            (step.Continue? ==>
               step.index.copies == ix.copies + [copy] &&
               step.index.byGav == ix.byGav[GavKey(artifact) := BundleSpec(GavKey(artifact), level,
                                      bundle.start && !IsJarFragment(content).value, OutputFileName(artifact))] &&
               (bundle.start ==> (step.index.byGav[GavKey(artifact)].start <==>
                                  "fragment-host" !in content.mainAttributes)))
  {
  }

  /** A bundle marked `noStart` is recorded the same whatever its jar holds: the copied
      jar is not opened at all. */
  lemma NoStartNeverOpensJar(ix: Index, level: int, bundle: BundlesInfo.BundleInfo, artifact: Artifact,
                             content: JarContent, skip: bool)
    requires !bundle.start
    requires artifact.file.Some?
    ensures var other := artifact.(file := Some(artifact.file.value.(content := content)));
            Step(ix, level, bundle, Ok(artifact), skip) == Step(ix, level, bundle, Ok(other), skip)
  {
    var other := artifact.(file := Some(artifact.file.value.(content := content)));
    assert GavKey(other) == GavKey(artifact) && OutputFileName(other) == OutputFileName(artifact);
  }

  /** A bundle that cannot be copied ends the run before anything is recorded. */
  lemma UncopyableHalts(ix: Index, level: int, bundle: BundlesInfo.BundleInfo, artifact: Artifact, skip: bool)
    requires GavKey(artifact) !in ix.byGav
    requires artifact.file.None? || artifact.file.value.kind != RegularFile
    ensures Step(ix, level, bundle, Ok(artifact), skip) == Halt(CopyFile(artifact.file).error, ix)
  {
  }

  /** With skipping on, a `MojoExecutionException` from resolution leaves the state alone;
      with it off, and for any other exception, the run ends with the state as it was. */
  lemma ResolutionFailure(ix: Index, level: int, bundle: BundlesInfo.BundleInfo, f: Failure, skip: bool)
    ensures Step(ix, level, bundle, Err(f), skip) ==
            if f.ExecutionException? && skip then Continue(ix) else Halt(f, ix)
  {
  }

  // ---------------------------------------------------------------------------
  // getArtifact
  // ---------------------------------------------------------------------------

  /** What `getArtifact` can end with. A malformed locator is an unchecked exception; a
      `-dependency-` version with no such dependency is a `MojoFailureException`, the only
      one; every other failure is a `MojoExecutionException`; an artifact that comes
      back has the group, artifact and classifier of the locator and a file, and its
      version is the requested one or the one the resolver reports. */
  lemma {:induction false} ArtifactForOutcome(env: Environment, interpolate: string -> string,
                                              bundle: BundlesInfo.BundleInfo)
    ensures var p := ParseLocator(interpolate(bundle.gav));
            var r := ArtifactFor(env, interpolate, bundle);
            (p.Err? ==> r == Err(RuntimeException(MalformedLocator))) &&
            (p.Ok? ==>
              var l := p.value;
              var v := if l.version == DEPENDENCY then DependencyVersion(l.groupId, l.artifactId, env.dependencies)
                       else Some(l.version);
              (r == Err(FailureException(NotADependency(l.groupId, l.artifactId))) <==> v.None?) &&
              (r.Err? && v.Some? ==> r.error.ExecutionException?) &&
              (r.Ok? ==> r.value.groupId == Some(l.groupId) && r.value.artifactId == Some(l.artifactId) &&
                         r.value.classifier == l.classifier && r.value.file.Some? && v.Some? &&
                         (r.value.version == v ||
                          r.value.version == ResolverVersion(env, Requested(l.groupId, l.artifactId, v.value, l.classifier)))))
  {
    var p := ParseLocator(interpolate(bundle.gav));
    if p.Ok? {
      var l := p.value;
      var v := if l.version == DEPENDENCY then DependencyVersion(l.groupId, l.artifactId, env.dependencies)
               else Some(l.version);
      if v.Some? {
        ResolvedHasRequestedCoordinates(l.groupId, l.artifactId, v.value, l.classifier, env);
      }
    }
  }

  /** Hence with skipping on, resolution stops the run only for a malformed locator or a
      `-dependency-` version that names no dependency. */
  lemma SkipStopsOnlyOnBadRequests(ix: Index, level: int, bundle: BundlesInfo.BundleInfo, env: Environment,
                                   interpolate: string -> string)
    requires ArtifactFor(env, interpolate, bundle).Err?
    ensures var step := Step(ix, level, bundle, ArtifactFor(env, interpolate, bundle), true);
            step.Halt? <==>
              ParseLocator(interpolate(bundle.gav)).Err? ||
              ArtifactFor(env, interpolate, bundle).error.FailureException?
    ensures var step := Step(ix, level, bundle, ArtifactFor(env, interpolate, bundle), true);
            step.Halt? && step.failure.FailureException? ==>
              step.failure.reason.NotADependency?
  {
    ArtifactForOutcome(env, interpolate, bundle);
  }

  // ---------------------------------------------------------------------------
  // Identity and file name
  // ---------------------------------------------------------------------------

  /** Coordinates that are all present and hold no colon, so the identity splits back into them. */
  predicate ColonFreeCoordinates(a: Artifact) {
    a.groupId.Some? && a.artifactId.Some? && a.version.Some? &&
    ':' !in a.groupId.value && ':' !in a.artifactId.value && ':' !in a.version.value &&
    (a.classifier.Some? ==> ':' !in a.classifier.value)
  }

  lemma JoinFour(w: string, x: string, y: string, z: string)
    ensures Join([w, x, y, z], ':') == w + ":" + x + ":" + y + ":" + z
  {
    assert [w, x, y, z][1..] == [x, y, z] && [x, y, z][1..] == [y, z] && [y, z][1..] == [z];
    assert Join([y, z], ':') == y + ":" + z;
  }

  /** The identity splits back into group, artifact, classifier (empty when there is none)
      and version. */
  lemma GavKeyPieces(a: Artifact)
    requires ColonFreeCoordinates(a)
    ensures GavKey(a) == Join([a.groupId.value, a.artifactId.value, OrEmpty(a.classifier), a.version.value], ':')
    ensures SplitAll(GavKey(a), ':') ==
            [a.groupId.value, a.artifactId.value, OrEmpty(a.classifier), a.version.value]
  {
    var parts := [a.groupId.value, a.artifactId.value, OrEmpty(a.classifier), a.version.value];
    JoinFour(parts[0], parts[1], parts[2], parts[3]);
    assert GavKey(a) == Join(parts, ':');
    JoinSplitAll(parts, ':');
  }

  /** So two colon-free artifacts share an identity exactly when group, artifact and
      version agree and their classifiers agree once null is read as empty. */
  lemma GavKeyIdentifies(a: Artifact, b: Artifact)
    requires ColonFreeCoordinates(a) && ColonFreeCoordinates(b)
    ensures GavKey(a) == GavKey(b) <==>
            a.groupId == b.groupId && a.artifactId == b.artifactId && a.version == b.version &&
            OrEmpty(a.classifier) == OrEmpty(b.classifier)
  {
    GavKeyPieces(a);
    GavKeyPieces(b);
    var pa := [a.groupId.value, a.artifactId.value, OrEmpty(a.classifier), a.version.value];
    var pb := [b.groupId.value, b.artifactId.value, OrEmpty(b.classifier), b.version.value];
    if GavKey(a) == GavKey(b) {
      assert pa == pb;
      assert pa[0] == pb[0] && pa[1] == pb[1] && pa[2] == pb[2] && pa[3] == pb[3];
    } else {
      assert pa != pb;
    }
  }

  /** An empty classifier and no classifier give the same identity. */
  lemma EmptyClassifierIsNoClassifier(a: Artifact)
    requires a.classifier == Some("")
    ensures GavKey(a) == GavKey(a.(classifier := None))
  {
    assert Text(a.groupId) + ":" + Text(a.artifactId) + ":" + "" + ":" + Text(a.version) ==
           Text(a.groupId) + ":" + Text(a.artifactId) + "::" + Text(a.version);
  }

  /** The file name leaves the classifier out: two artifacts that differ only in their
      classifier are distinct bundles copied under the same name. */
  lemma ClassifiersShareFileName(a: Artifact, c: string)
    requires ColonFreeCoordinates(a) && a.classifier == None && c != "" && ':' !in c
    ensures GavKey(a) != GavKey(a.(classifier := Some(c)))
    ensures OutputFileName(a) == OutputFileName(a.(classifier := Some(c)))
  {
    GavKeyIdentifies(a, a.(classifier := Some(c)));
  }

  // ---------------------------------------------------------------------------
  // Across a whole run
  // ---------------------------------------------------------------------------

  /** What no later step undoes: every recorded identity stays recorded at a level no
      higher and with the same start flag and file name, no level disappears (emptied
      lists are kept), and copies are only ever added. */
  predicate Extends(before: Index, after: Index) {
    (forall g :: g in before.byGav ==>
       g in after.byGav && after.byGav[g].level <= before.byGav[g].level &&
       after.byGav[g].start == before.byGav[g].start && after.byGav[g].filename == before.byGav[g].filename) &&
    before.byLevel.Keys <= after.byLevel.Keys &&
    before.copies <= after.copies
  }

  lemma {:induction false} StepExtends(ix: Index, level: int, bundle: BundlesInfo.BundleInfo,
                                       outcome: Result<Artifact, Failure>, skip: bool)
    requires Recorded(ix)
    ensures Extends(ix, Step(ix, level, bundle, outcome, skip).index)
  {
    if outcome.Ok? {
      var gav := GavKey(outcome.value);
      if gav in ix.byGav {
        var prior := ix.byGav[gav];
        var spec := BundleSpec(gav, Min(prior.level, level), prior.start, prior.filename);
        assert Step(ix, level, bundle, outcome, skip) == Continue(Record(Unlist(ix, prior), spec));
      } else {
        FreshExtends(ix, level, bundle, outcome.value, skip);
      }
    }
  }

  lemma FreshExtends(ix: Index, level: int, bundle: BundlesInfo.BundleInfo, artifact: Artifact, skip: bool)
    requires GavKey(artifact) !in ix.byGav
    ensures Extends(ix, Step(ix, level, bundle, Ok(artifact), skip).index)
  {
    var step := Step(ix, level, bundle, Ok(artifact), skip);
    if CopyFile(artifact.file).Ok? {
      assert ix.copies <= step.index.copies;
    }
  }

  lemma {:induction false} BundlesExtend(ix: Index, level: int, bundles: seq<BundlesInfo.BundleInfo>,
                                         env: Environment, interpolate: string -> string, skip: bool)
    requires Consistent(ix)
    ensures Extends(ix, RunBundles(ix, level, bundles, env, interpolate, skip).index)
  {
    if bundles != [] {
      var init := bundles[..|bundles| - 1];
      var last := bundles[|bundles| - 1];
      BundlesExtend(ix, level, init, env, interpolate, skip);
      BundlesKeepConsistent(ix, level, init, env, interpolate, skip);
      var mid := RunBundles(ix, level, init, env, interpolate, skip);
      if mid.Continue? {
        StepExtends(mid.index, level, last, ArtifactFor(env, interpolate, last), skip);
      }
    }
  }

  lemma {:induction false} LevelsExtend(ix: Index, levels: seq<BundlesInfo.LevelBundles>,
                                        env: Environment, interpolate: string -> string, skip: bool)
    requires Consistent(ix)
    ensures Extends(ix, RunLevels(ix, levels, env, interpolate, skip).index)
  {
    if levels != [] {
      var init := levels[..|levels| - 1];
      var last := levels[|levels| - 1];
      LevelsExtend(ix, init, env, interpolate, skip);
      LevelsKeepConsistent(ix, init, env, interpolate, skip);
      var mid := RunLevels(ix, init, env, interpolate, skip);
      if mid.Continue? {
        BundlesExtend(mid.index, last.level, last.bundles, env, interpolate, skip);
      }
    }
  }

  /** Across all input files: once a bundle is recorded its level only goes down and its
      start flag and file name are those of its first sighting. */
  lemma {:induction false} FilesExtend(ix: Index, files: seq<BundlesInfo.InputFile>,
                                       env: Environment, interpolate: string -> string, skip: bool)
    requires Consistent(ix)
    ensures Extends(ix, RunFiles(ix, files, env, interpolate, skip).index)
  {
    if files != [] {
      var init := files[..|files| - 1];
      var last := files[|files| - 1];
      FilesExtend(ix, init, env, interpolate, skip);
      FilesKeepConsistent(ix, init, env, interpolate, skip);
      var mid := RunFiles(ix, init, env, interpolate, skip);
      if mid.Continue? && BundlesInfo.ReadSpec(last).Ok? {
        LevelsExtend(mid.index, BundlesInfo.ReadSpec(last).value, env, interpolate, skip);
      }
    }
  }

  // ---------------------------------------------------------------------------
  // The level of an identity over a whole run
  // ---------------------------------------------------------------------------

  /** A bundle `getArtifact` returned an artifact for: its identity and the level it is
      listed at. A bundle skipped for a resolution failure is no sighting. */
  datatype Sighting = Sighting(gav: string, level: int)

  /** The level recorded for `g`, if `g` is recorded. */
  function LevelOf(byGav: map<string, BundleSpec>, g: string): Option<int> {
    if g in byGav then Some(byGav[g].level) else None
  }

  /** The lower of two optional levels; a missing one is no bound. */
  function MinOpt(a: Option<int>, b: Option<int>): Option<int> {
    if a.None? then b else if b.None? then a else Some(Min(a.value, b.value))
  }

  /** The lowest level at which `g` is sighted in `s`, if it is sighted at all. */
  function LowestSighting(s: seq<Sighting>, g: string): Option<int> {
    if s == [] then None
    else
      var last := s[|s| - 1];
      MinOpt(LowestSighting(s[..|s| - 1], g), if last.gav == g then Some(last.level) else None)
  }

  /** None when `g` is never sighted; otherwise a level at or below every sighting of
      `g`, and the level of one of them. */
  lemma {:induction false} LowestSightingIsLowest(s: seq<Sighting>, g: string)
    ensures LowestSighting(s, g).Some? <==> exists i :: 0 <= i < |s| && s[i].gav == g
    ensures LowestSighting(s, g).Some? ==> forall i :: 0 <= i < |s| && s[i].gav == g ==> LowestSighting(s, g).value <= s[i].level
    ensures LowestSighting(s, g).Some? ==> exists i :: 0 <= i < |s| && s[i].gav == g && s[i].level == LowestSighting(s, g).value
  {
    if s != [] {
      var init := s[..|s| - 1];
      LowestSightingIsLowest(init, g);
      assert forall i :: 0 <= i < |init| ==> init[i] == s[i];
    }
  }

  lemma {:induction false} LowestAppend(s: seq<Sighting>, t: seq<Sighting>, g: string)
    ensures LowestSighting(s + t, g) == MinOpt(LowestSighting(s, g), LowestSighting(t, g))
  {
    if t == [] {
      assert s + t == s;
    } else {
      var init := t[..|t| - 1];
      var last := t[|t| - 1];
      var u := s + t;
      var lastLevel := if last.gav == g then Some(last.level) else None;
      LowestAppend(s, init, g);
      assert u[..|u| - 1] == s + init && u[|u| - 1] == last;
      assert LowestSighting(u, g) == MinOpt(LowestSighting(s + init, g), lastLevel);
      assert LowestSighting(t, g) == MinOpt(LowestSighting(init, g), lastLevel);
    }
  }

  /** The sighting one bundle makes, given what `getArtifact` made of it. */
  function SightingOf(level: int, outcome: Result<Artifact, Failure>): seq<Sighting> {
    if outcome.Ok? then [Sighting(GavKey(outcome.value), level)] else []
  }

  function BundleSightings(level: int, bundles: seq<BundlesInfo.BundleInfo>, env: Environment,
                           interpolate: string -> string): seq<Sighting>
  {
    if bundles == [] then []
    else BundleSightings(level, bundles[..|bundles| - 1], env, interpolate) +
         SightingOf(level, ArtifactFor(env, interpolate, bundles[|bundles| - 1]))
  }

  function LevelSightings(levels: seq<BundlesInfo.LevelBundles>, env: Environment,
                          interpolate: string -> string): seq<Sighting>
  {
    if levels == [] then []
    else
      var last := levels[|levels| - 1];
      LevelSightings(levels[..|levels| - 1], env, interpolate) + BundleSightings(last.level, last.bundles, env, interpolate)
  }

  /** The sightings of all input files, in processing order; a file that cannot be read
      ends the run, so its sightings never matter. */
  function FileSightings(files: seq<BundlesInfo.InputFile>, env: Environment,
                         interpolate: string -> string): seq<Sighting>
  {
    if files == [] then []
    else
      FileSightings(files[..|files| - 1], env, interpolate) + SightingsIn(files[|files| - 1], env, interpolate)
  }

  function SightingsIn(file: BundlesInfo.InputFile, env: Environment, interpolate: string -> string): seq<Sighting> {
    match BundlesInfo.ReadSpec(file)
    case Err(_) => []
    case Ok(levels) => LevelSightings(levels, env, interpolate)
  }

  lemma SingleSighting(x: Sighting, g: string)
    ensures LowestSighting([x], g) == if x.gav == g then Some(x.level) else None
  {
    assert [x][..0] == [];
  }

  /** `after` records exactly the identities of `before` and those sighted in `s`, each
      at the lower of its level in `before` and its lowest sighting. */
  ghost predicate Lowers(before: map<string, BundleSpec>, s: seq<Sighting>, after: map<string, BundleSpec>) {
    forall g :: LevelOf(after, g) == MinOpt(LevelOf(before, g), LowestSighting(s, g))
  }

  lemma LowersCompose(a: map<string, BundleSpec>, s: seq<Sighting>, b: map<string, BundleSpec>,
                      t: seq<Sighting>, c: map<string, BundleSpec>)
    requires Lowers(a, s, b) && Lowers(b, t, c)
    ensures Lowers(a, s + t, c)
  {
    forall g
      ensures LevelOf(c, g) == MinOpt(LevelOf(a, g), LowestSighting(s + t, g))
    {
      LowestAppend(s, t, g);
    }
  }

  /** One `processBundle` that gets through: the level of every identity becomes the
      lower of the recorded one and the new sighting's. */
  lemma StepLowest(ix: Index, level: int, bundle: BundlesInfo.BundleInfo, outcome: Result<Artifact, Failure>,
                   skip: bool)
    requires Recorded(ix)
    ensures var step := Step(ix, level, bundle, outcome, skip);
            step.Continue? ==> Lowers(ix.byGav, SightingOf(level, outcome), step.index.byGav)
  {
    if outcome.Ok? && Step(ix, level, bundle, outcome, skip).Continue? {
      var gav := GavKey(outcome.value);
      forall g {
        SingleSighting(Sighting(gav, level), g);
      }
      if gav in ix.byGav {
        RepeatSighting(ix, level, bundle, outcome.value, skip);
      } else {
        FreshStep(ix, level, bundle, outcome.value, skip);
      }
    }
  }

  lemma {:induction false} BundlesLowest(ix: Index, level: int, bundles: seq<BundlesInfo.BundleInfo>,
                                         env: Environment, interpolate: string -> string, skip: bool)
    requires Consistent(ix)
    ensures var run := RunBundles(ix, level, bundles, env, interpolate, skip);
            run.Continue? ==> Lowers(ix.byGav, BundleSightings(level, bundles, env, interpolate), run.index.byGav)
  {
    if bundles != [] {
      var init := bundles[..|bundles| - 1];
      var last := bundles[|bundles| - 1];
      BundlesLowest(ix, level, init, env, interpolate, skip);
      BundlesKeepConsistent(ix, level, init, env, interpolate, skip);
      var mid := RunBundles(ix, level, init, env, interpolate, skip);
      if mid.Continue? {
        var outcome := ArtifactFor(env, interpolate, last);
        StepLowest(mid.index, level, last, outcome, skip);
        var run := RunBundles(ix, level, bundles, env, interpolate, skip);
        if run.Continue? {
          LowersCompose(ix.byGav, BundleSightings(level, init, env, interpolate), mid.index.byGav,
                        SightingOf(level, outcome), run.index.byGav);
        }
      }
    }
  }

  lemma {:induction false} LevelsLowest(ix: Index, levels: seq<BundlesInfo.LevelBundles>,
                                        env: Environment, interpolate: string -> string, skip: bool)
    requires Consistent(ix)
    ensures var run := RunLevels(ix, levels, env, interpolate, skip);
            run.Continue? ==> Lowers(ix.byGav, LevelSightings(levels, env, interpolate), run.index.byGav)
  {
    if levels != [] {
      var init := levels[..|levels| - 1];
      var last := levels[|levels| - 1];
      LevelsLowest(ix, init, env, interpolate, skip);
      LevelsKeepConsistent(ix, init, env, interpolate, skip);
      var mid := RunLevels(ix, init, env, interpolate, skip);
      if mid.Continue? {
        BundlesLowest(mid.index, last.level, last.bundles, env, interpolate, skip);
        var run := RunLevels(ix, levels, env, interpolate, skip);
        if run.Continue? {
          LowersCompose(ix.byGav, LevelSightings(init, env, interpolate), mid.index.byGav,
                        BundleSightings(last.level, last.bundles, env, interpolate), run.index.byGav);
        }
      }
    }
  }

  lemma {:induction false} FilesLowest(ix: Index, files: seq<BundlesInfo.InputFile>,
                                       env: Environment, interpolate: string -> string, skip: bool)
    requires Consistent(ix)
    ensures var run := RunFiles(ix, files, env, interpolate, skip);
            run.Continue? ==> Lowers(ix.byGav, FileSightings(files, env, interpolate), run.index.byGav)
  {
    if files != [] {
      var init := files[..|files| - 1];
      var last := files[|files| - 1];
      FilesLowest(ix, init, env, interpolate, skip);
      FilesKeepConsistent(ix, init, env, interpolate, skip);
      var mid := RunFiles(ix, init, env, interpolate, skip);
      if mid.Continue? && BundlesInfo.ReadSpec(last).Ok? {
        var levels := BundlesInfo.ReadSpec(last).value;
        assert SightingsIn(last, env, interpolate) == LevelSightings(levels, env, interpolate);
        LevelsLowest(mid.index, levels, env, interpolate, skip);
        var run := RunFiles(ix, files, env, interpolate, skip);
        if run.Continue? {
          LowersCompose(ix.byGav, FileSightings(init, env, interpolate), mid.index.byGav,
                        SightingsIn(last, env, interpolate), run.index.byGav);
        }
      }
    }
  }

  /** What `LowestSighting` says, for the record of one identity. */
  lemma LowestMeans(byGav: map<string, BundleSpec>, s: seq<Sighting>, g: string)
    requires LevelOf(byGav, g) == LowestSighting(s, g)
    ensures g in byGav <==> exists i :: 0 <= i < |s| && s[i].gav == g
    ensures g in byGav ==> forall i :: 0 <= i < |s| && s[i].gav == g ==> byGav[g].level <= s[i].level
    ensures g in byGav ==> exists i :: 0 <= i < |s| && s[i].gav == g && s[i].level == byGav[g].level
  {
    LowestSightingIsLowest(s, g);
  }

  /** The minimum-level law over a whole run that gets through: an identity is recorded
      exactly when some bundle of some file resolved to it, and its level is at or below
      every level it was sighted at and equal to one of them. */
  lemma MinimumLevel(files: seq<BundlesInfo.InputFile>, env: Environment, interpolate: string -> string, skip: bool)
    ensures var run := RunFiles(Empty(), files, env, interpolate, skip);
            var s := FileSightings(files, env, interpolate);
            run.Continue? ==>
            forall g :: (g in run.index.byGav <==> exists i :: 0 <= i < |s| && s[i].gav == g) &&
                        (g in run.index.byGav ==>
                          (forall i :: 0 <= i < |s| && s[i].gav == g ==> run.index.byGav[g].level <= s[i].level) &&
                          exists i :: 0 <= i < |s| && s[i].gav == g && s[i].level == run.index.byGav[g].level)
  {
    EmptyIsConsistent();
    FilesLowest(Empty(), files, env, interpolate, skip);
    var run := RunFiles(Empty(), files, env, interpolate, skip);
    if run.Continue? {
      forall g {
        LowestMeans(run.index.byGav, FileSightings(files, env, interpolate), g);
      }
    }
  }

  lemma TwoFileSightings(first: BundlesInfo.InputFile, second: BundlesInfo.InputFile, env: Environment,
                          interpolate: string -> string)
    ensures FileSightings([first, second], env, interpolate) ==
            FileSightings([first], env, interpolate) + FileSightings([second], env, interpolate)
  {
    var a := SightingsIn(first, env, interpolate);
    var b := SightingsIn(second, env, interpolate);
    assert [first, second][..1] == [first];
    assert [first][..0] == [] && [second][..0] == [];
    assert [] + a == a && [] + b == b;
    assert FileSightings([first], env, interpolate) == a;
    assert FileSightings([second], env, interpolate) == b;
    assert FileSightings([first, second], env, interpolate) == FileSightings([first], env, interpolate) + b;
  }

  /** Two documents given in either order: whenever both runs get through, every
      identity ends at the same level. */
  lemma LevelsIndependentOfOrder(first: BundlesInfo.InputFile, second: BundlesInfo.InputFile, env: Environment,
                                 interpolate: string -> string, skip: bool)
    ensures var ab := RunFiles(Empty(), [first, second], env, interpolate, skip);
            var ba := RunFiles(Empty(), [second, first], env, interpolate, skip);
            ab.Continue? && ba.Continue? ==>
            forall g :: LevelOf(ab.index.byGav, g) == LevelOf(ba.index.byGav, g)
  {
    EmptyIsConsistent();
    FilesLowest(Empty(), [first, second], env, interpolate, skip);
    FilesLowest(Empty(), [second, first], env, interpolate, skip);
    TwoFileSightings(first, second, env, interpolate);
    TwoFileSightings(second, first, env, interpolate);
    var sa := FileSightings([first], env, interpolate);
    var sb := FileSightings([second], env, interpolate);
    forall g
      ensures LowestSighting(sa + sb, g) == LowestSighting(sb + sa, g)
    {
      LowestAppend(sa, sb, g);
      LowestAppend(sb, sa, g);
    }
  }

  // ---------------------------------------------------------------------------
  // Reading a document again
  // ---------------------------------------------------------------------------

  /** Every sighting in `s` is of a recorded identity, at or above its recorded level. */
  ghost predicate Covers(byGav: map<string, BundleSpec>, s: seq<Sighting>) {
    forall g :: MinOpt(LevelOf(byGav, g), LowestSighting(s, g)) == LevelOf(byGav, g)
  }

  lemma CoversSplit(byGav: map<string, BundleSpec>, s: seq<Sighting>, t: seq<Sighting>)
    requires Covers(byGav, s + t)
    ensures Covers(byGav, s) && Covers(byGav, t)
  {
    forall g
      ensures MinOpt(LevelOf(byGav, g), LowestSighting(s, g)) == LevelOf(byGav, g) &&
              MinOpt(LevelOf(byGav, g), LowestSighting(t, g)) == LevelOf(byGav, g)
    {
      LowestAppend(s, t, g);
    }
  }

  /** The bundles of a level that got through once (from any state), processed again
      from a consistent state whose recorded levels already cover their sightings:
      every bundle is a repeat at a level no lower, so the recorded specs and the copies
      stay as they are. */
  lemma {:induction false} BundlesRevisit(ix0: Index, ix: Index, level: int, bundles: seq<BundlesInfo.BundleInfo>,
                                          env: Environment, interpolate: string -> string, skip: bool)
    requires Consistent(ix)
    requires RunBundles(ix0, level, bundles, env, interpolate, skip).Continue?
    requires Covers(ix.byGav, BundleSightings(level, bundles, env, interpolate))
    ensures var again := RunBundles(ix, level, bundles, env, interpolate, skip);
            again.Continue? && again.index.byGav == ix.byGav && again.index.copies == ix.copies
  {
    if bundles != [] {
      var init := bundles[..|bundles| - 1];
      var last := bundles[|bundles| - 1];
      var outcome := ArtifactFor(env, interpolate, last);
      CoversSplit(ix.byGav, BundleSightings(level, init, env, interpolate), SightingOf(level, outcome));
      BundlesRevisit(ix0, ix, level, init, env, interpolate, skip);
      BundlesKeepConsistent(ix, level, init, env, interpolate, skip);
      var mid := RunBundles(ix, level, init, env, interpolate, skip).index;
      if outcome.Ok? {
        var gav := GavKey(outcome.value);
        SingleSighting(Sighting(gav, level), gav);
        assert MinOpt(LevelOf(ix.byGav, gav), Some(level)) == LevelOf(ix.byGav, gav);
        RepeatSighting(mid, level, last, outcome.value, skip);
      }
    }
  }

  lemma {:induction false} LevelsRevisit(ix0: Index, ix: Index, levels: seq<BundlesInfo.LevelBundles>,
                                         env: Environment, interpolate: string -> string, skip: bool)
    requires Consistent(ix)
    requires RunLevels(ix0, levels, env, interpolate, skip).Continue?
    requires Covers(ix.byGav, LevelSightings(levels, env, interpolate))
    ensures var again := RunLevels(ix, levels, env, interpolate, skip);
            again.Continue? && again.index.byGav == ix.byGav && again.index.copies == ix.copies
  {
    if levels != [] {
      var init := levels[..|levels| - 1];
      var last := levels[|levels| - 1];
      CoversSplit(ix.byGav, LevelSightings(init, env, interpolate), BundleSightings(last.level, last.bundles, env, interpolate));
      LevelsRevisit(ix0, ix, init, env, interpolate, skip);
      LevelsKeepConsistent(ix, init, env, interpolate, skip);
      var first := RunLevels(ix0, init, env, interpolate, skip).index;
      var mid := RunLevels(ix, init, env, interpolate, skip).index;
      BundlesRevisit(first, mid, last.level, last.bundles, env, interpolate, skip);
    }
  }

  /** The same document given as two input files: the run gets through exactly as often
      as with the document once, records the same specs (identities, levels, start flags
      and file names) and copies nothing more. Only the order within a level's list can
      differ, by the relocation of repeats. */
  lemma ReadTwiceSameSpecs(file: BundlesInfo.InputFile, env: Environment, interpolate: string -> string, skip: bool)
    ensures var once := RunFiles(Empty(), [file], env, interpolate, skip);
            var twice := RunFiles(Empty(), [file, file], env, interpolate, skip);
            once.Continue? ==>
            twice.Continue? && Consistent(twice.index) &&
            twice.index.byGav == once.index.byGav && twice.index.copies == once.index.copies
  {
    var once := RunFiles(Empty(), [file], env, interpolate, skip);
    assert [file, file][..1] == [file] && [file][..0] == [];
    if once.Continue? {
      var levels := BundlesInfo.ReadSpec(file).value;
      assert RunFiles(Empty(), [], env, interpolate, skip) == Continue(Empty());
      assert once == RunLevels(Empty(), levels, env, interpolate, skip);
      EmptyIsConsistent();
      LevelsLowest(Empty(), levels, env, interpolate, skip);
      LevelsKeepConsistent(Empty(), levels, env, interpolate, skip);
      assert Covers(once.index.byGav, LevelSightings(levels, env, interpolate));
      LevelsRevisit(Empty(), once.index, levels, env, interpolate, skip);
      FilesKeepConsistent(Empty(), [file, file], env, interpolate, skip);
    }
  }

  /** No input files at all is refused. */
  lemma NoFilesRefused(env: Environment, interpolate: string -> string, skip: bool)
    ensures Collect([], env, interpolate, skip) == Err(FailureException(NoInputFiles))
  {
  }
}
