/** What both packaging goals see of Maven: artifacts and their files, the exceptions a
    goal may end with, and the lookup `getArtifact` performs before it falls back on the
    artifact resolver (project dependencies first, then the reactor's projects). */
module Maven {
  import opened JavaLang

  // ---------------------------------------------------------------------------
  // Artifacts and their files
  // ---------------------------------------------------------------------------

  /** What the file system reports for an artifact's file. */
  datatype FileKind = RegularFile | Directory | Missing

  /** A jar as `java.util.jar.JarFile` sees it. Manifest attribute names are compared
      without regard to ASCII case, so the map is keyed by lower-cased names. */
  datatype JarContent =
    | NotAZip                                  // the JarFile constructor throws IOException
    | UnreadableManifest                       // getManifest throws IOException
    | NoManifest                               // getManifest returns null
    | Manifest(mainAttributes: map<string, string>)

  datatype ArtifactFile = ArtifactFile(path: string, kind: FileKind, content: JarContent)

  /** `org.apache.maven.artifact.Artifact`; `None` is Java's `null`. */
  datatype Artifact = Artifact(
    groupId: Option<string>,
    artifactId: Option<string>,
    version: Option<string>,
    artifactType: Option<string>,
    classifier: Option<string>,
    file: Option<ArtifactFile>)

  /** A project of the reactor: its main artifact and its attached side artifacts. */
  datatype MavenProject = MavenProject(artifact: Option<Artifact>, attachedArtifacts: seq<Artifact>)

  // ---------------------------------------------------------------------------
  // How a goal ends when it does not end normally
  // ---------------------------------------------------------------------------

  datatype Reason =
    | NoInputFiles
    | UnreadableInput
    | MalformedLevel
    | MalformedLocator
    | NotADependency(groupId: string, artifactId: string)
    | BadVersionRange
    | ArtifactNotResolved
    | NotPackaged
    | CopyFailed
    | JarOpenFailed
    | ManifestReadFailed
    | NotAnOsgiBundle
    | NullReference
    | NotMvnUri
    | InvalidBundleLocation
    | NonJarBundle
    | FeaturesNotFound
    | UnreadableFeatures
    | BadVersion

  /** The exception class the goal throws, with what caused it. */
  datatype Failure =
    | ExecutionException(reason: Reason)   // MojoExecutionException
    | FailureException(reason: Reason)     // MojoFailureException
    | RuntimeException(reason: Reason)     // an unchecked exception

  // ---------------------------------------------------------------------------
  // Reactor lookup
  // ---------------------------------------------------------------------------

  /** The null-safe comparison `equals(Artifact, Artifact)`: both null, or both present
      with equal group, artifact, version, type and classifier. */
  predicate SameArtifact(a: Option<Artifact>, b: Option<Artifact>) {
    (a.None? && b.None?) ||
    (a.Some? && b.Some? &&
     a.value.groupId == b.value.groupId &&
     a.value.artifactId == b.value.artifactId &&
     a.value.version == b.value.version &&
     a.value.artifactType == b.value.artifactType &&
     a.value.classifier == b.value.classifier)
  }

  /** `hasFile`: the artifact is non-null and has a file that is a regular file. */
  predicate HasFile(a: Option<Artifact>) {
    a.Some? && a.value.file.Some? && a.value.file.value.kind == RegularFile
  }

  /** A candidate `getArtifactFomReactor` would return for the wanted artifact. */
  predicate Usable(wanted: Artifact, candidate: Option<Artifact>) {
    SameArtifact(Some(wanted), candidate) && HasFile(candidate)
  }

  function Present(s: seq<Artifact>): (r: seq<Option<Artifact>>)
    ensures |r| == |s| && forall i :: 0 <= i < |s| ==> r[i] == Some(s[i])
  {
    seq(|s|, i requires 0 <= i < |s| => Some(s[i]))
  }

  /** The artifacts of the reactor's projects in the order they are examined: each
      project's main artifact, then its attached artifacts. */
  function ProjectCandidates(projects: seq<MavenProject>): seq<Option<Artifact>> {
    if projects == [] then []
    else
      var last := projects[|projects| - 1];
      ProjectCandidates(projects[..|projects| - 1]) + [last.artifact] + Present(last.attachedArtifacts)
  }

  /** Everything `getArtifactFomReactor` examines, in order: the project's dependencies,
      then the reactor (a null reactor list counts as empty). */
  function Candidates(dependencies: seq<Artifact>, reactor: Option<seq<MavenProject>>): seq<Option<Artifact>> {
    Present(dependencies) + ProjectCandidates(if reactor.Some? then reactor.value else [])
  }

  /** The first usable candidate. */
  function FirstMatch(wanted: Artifact, candidates: seq<Option<Artifact>>): Option<Artifact> {
    if candidates == [] then None
    else if Usable(wanted, candidates[0]) then candidates[0]
    else FirstMatch(wanted, candidates[1..])
  }

  /** `FirstMatch` is the usable candidate with the smallest index, and `None` exactly
      when no candidate is usable. */
  lemma {:induction false} FirstMatchIsFirst(wanted: Artifact, candidates: seq<Option<Artifact>>)
    ensures FirstMatch(wanted, candidates).None? <==>
            forall i :: 0 <= i < |candidates| ==> !Usable(wanted, candidates[i])
    ensures FirstMatch(wanted, candidates).Some? ==>
            exists i :: 0 <= i < |candidates| && Usable(wanted, candidates[i]) &&
                        FirstMatch(wanted, candidates) == candidates[i] &&
                        forall j :: 0 <= j < i ==> !Usable(wanted, candidates[j])
  {
    if candidates != [] && !Usable(wanted, candidates[0]) {
      var tail := candidates[1..];
      FirstMatchIsFirst(wanted, tail);
      assert forall i :: 1 <= i < |candidates| ==> candidates[i] == tail[i - 1];
      if FirstMatch(wanted, tail).Some? {
        var k :| 0 <= k < |tail| && Usable(wanted, tail[k]) &&
                 FirstMatch(wanted, tail) == tail[k] &&
                 forall j :: 0 <= j < k ==> !Usable(wanted, tail[j]);
        assert candidates[k + 1] == tail[k];
        assert forall j :: 0 <= j < k + 1 ==> !Usable(wanted, candidates[j]) by {
          forall j | 0 <= j < k + 1 ensures !Usable(wanted, candidates[j]) {
            if j > 0 { assert candidates[j] == tail[j - 1]; }
          }
        }
      }
    }
  }

  lemma {:induction false} FirstMatchAppend(wanted: Artifact, a: seq<Option<Artifact>>, b: seq<Option<Artifact>>)
    ensures FirstMatch(wanted, a + b) ==
            if FirstMatch(wanted, a).Some? then FirstMatch(wanted, a) else FirstMatch(wanted, b)
  {
    if a != [] {
      assert (a + b)[0] == a[0];
      assert (a + b)[1..] == a[1..] + b;
      FirstMatchAppend(wanted, a[1..], b);
    } else {
      assert a + b == b;
    }
  }

  lemma SingleMatch(wanted: Artifact, x: Option<Artifact>)
    ensures FirstMatch(wanted, [x]) == if Usable(wanted, x) then x else None
  {
    assert [x][1..] == [];
  }

  /** One of the scans of `getArtifactFomReactor`: the first usable artifact of a list. */
  method FindIn(wanted: Artifact, candidates: seq<Option<Artifact>>) returns (found: Option<Artifact>)
    ensures found == FirstMatch(wanted, candidates)
  {
    var i := 0;
    while i < |candidates|
      invariant 0 <= i <= |candidates|
      invariant FirstMatch(wanted, candidates) == FirstMatch(wanted, candidates[i..])
    {
      assert candidates[i..][1..] == candidates[i + 1..];
      var a := candidates[i];
      if SameArtifact(Some(wanted), a) && HasFile(a) {
        return a;
      }
      i := i + 1;
    }
    found := None;
  }

  /** `getArtifactFomReactor`: dependencies first, then for each reactor project its main
      artifact and then its attached artifacts; the first usable one wins. */
  method FindInReactor(wanted: Artifact, dependencies: seq<Artifact>, reactor: Option<seq<MavenProject>>)
    returns (found: Option<Artifact>)
    ensures found == FirstMatch(wanted, Candidates(dependencies, reactor))
  {
    var projects := if reactor.Some? then reactor.value else [];
    assert Candidates(dependencies, reactor) == Present(dependencies) + ProjectCandidates(projects);
    FirstMatchAppend(wanted, Present(dependencies), ProjectCandidates(projects));
    found := FindIn(wanted, Present(dependencies));
    if found.Some? {
      return;
    }
    var j := 0;
    while j < |projects|
      invariant 0 <= j <= |projects|
      invariant FirstMatch(wanted, ProjectCandidates(projects[..j])) == None
      invariant found == None
    {
      var p := projects[j];
      assert projects[..j + 1][..j] == projects[..j];
      var own := [p.artifact] + Present(p.attachedArtifacts);
      assert ProjectCandidates(projects[..j + 1]) == ProjectCandidates(projects[..j]) + own;
      FirstMatchAppend(wanted, ProjectCandidates(projects[..j]), own);
      found := FindIn(wanted, own);
      if found.Some? {
        ProjectCandidatesSplit(projects, j + 1);
        FirstMatchAppend(wanted, ProjectCandidates(projects[..j + 1]), ProjectCandidates(projects[j + 1..]));
        return;
      }
      j := j + 1;
    }
    assert projects[..j] == projects;
  }

  lemma {:induction false} ProjectCandidatesSplit(projects: seq<MavenProject>, n: nat)
    requires n <= |projects|
    ensures ProjectCandidates(projects) ==
            ProjectCandidates(projects[..n]) + ProjectCandidates(projects[n..])
    decreases |projects|
  {
    if n == |projects| {
      assert projects[..n] == projects;
      assert projects[n..] == [];
    } else {
      var m := |projects| - 1;
      var init := projects[..m];
      var last := projects[m];
      ProjectCandidatesSplit(init, n);
      assert init[..n] == projects[..n];
      assert projects[n..] == init[n..] + [last];
      assert (init[n..] + [last])[..|init[n..] + [last]| - 1] == init[n..];
    }
  }

  // ---------------------------------------------------------------------------
  // Dependency version lookup
  // ---------------------------------------------------------------------------

  /** `getArtifactVersionFromDependencies`: the version of the first dependency whose
      group and artifact are the given ones (`None` is the Java `null`). */
  function DependencyVersion(groupId: string, artifactId: string, dependencies: seq<Artifact>): Option<string> {
    if dependencies == [] then None
    else if dependencies[0].groupId == Some(groupId) && dependencies[0].artifactId == Some(artifactId)
    then dependencies[0].version
    else DependencyVersion(groupId, artifactId, dependencies[1..])
  }

  /** The version comes from the first dependency with that group and artifact: a version
      that comes back is that dependency's, the first such dependency's version is what
      comes back, and none comes back when there is no such dependency. */
  lemma {:induction false} DependencyVersionIsFirst(groupId: string, artifactId: string, dependencies: seq<Artifact>)
    ensures DependencyVersion(groupId, artifactId, dependencies).Some? ==>
            exists i :: 0 <= i < |dependencies| &&
              dependencies[i].groupId == Some(groupId) && dependencies[i].artifactId == Some(artifactId) &&
              dependencies[i].version == DependencyVersion(groupId, artifactId, dependencies) &&
              forall j :: 0 <= j < i ==>
                !(dependencies[j].groupId == Some(groupId) && dependencies[j].artifactId == Some(artifactId))
    ensures (forall i :: 0 <= i < |dependencies| ==>
              !(dependencies[i].groupId == Some(groupId) && dependencies[i].artifactId == Some(artifactId)))
            ==> DependencyVersion(groupId, artifactId, dependencies) == None
    ensures forall i :: 0 <= i < |dependencies| &&
                        dependencies[i].groupId == Some(groupId) && dependencies[i].artifactId == Some(artifactId) &&
                        (forall j :: 0 <= j < i ==>
                           !(dependencies[j].groupId == Some(groupId) && dependencies[j].artifactId == Some(artifactId)))
                        ==> DependencyVersion(groupId, artifactId, dependencies) == dependencies[i].version
  {
    if dependencies != [] &&
       !(dependencies[0].groupId == Some(groupId) && dependencies[0].artifactId == Some(artifactId)) {
      var tail := dependencies[1..];
      DependencyVersionIsFirst(groupId, artifactId, tail);
      forall i | 0 <= i < |dependencies| &&
                 dependencies[i].groupId == Some(groupId) && dependencies[i].artifactId == Some(artifactId) &&
                 (forall j :: 0 <= j < i ==>
                    !(dependencies[j].groupId == Some(groupId) && dependencies[j].artifactId == Some(artifactId)))
        ensures DependencyVersion(groupId, artifactId, dependencies) == dependencies[i].version
      {
        assert i > 0 && tail[i - 1] == dependencies[i];
        forall j | 0 <= j < i - 1
          ensures !(tail[j].groupId == Some(groupId) && tail[j].artifactId == Some(artifactId))
        {
          assert tail[j] == dependencies[j + 1];
        }
      }
      if DependencyVersion(groupId, artifactId, tail).Some? {
        var k :| 0 <= k < |tail| &&
                 tail[k].groupId == Some(groupId) && tail[k].artifactId == Some(artifactId) &&
                 tail[k].version == DependencyVersion(groupId, artifactId, tail) &&
                 forall j :: 0 <= j < k ==> !(tail[j].groupId == Some(groupId) && tail[j].artifactId == Some(artifactId));
        assert dependencies[k + 1] == tail[k];
        forall j | 0 <= j < k + 1
          ensures !(dependencies[j].groupId == Some(groupId) && dependencies[j].artifactId == Some(artifactId))
        {
          if j > 0 { assert dependencies[j] == tail[j - 1]; }
        }
      }
      if forall i :: 0 <= i < |dependencies| ==>
           !(dependencies[i].groupId == Some(groupId) && dependencies[i].artifactId == Some(artifactId)) {
        assert forall i :: 0 <= i < |tail| ==> tail[i] == dependencies[i + 1];
      }
    }
  }

  method FindDependencyVersion(groupId: string, artifactId: string, dependencies: seq<Artifact>)
    returns (version: Option<string>)
    ensures version == DependencyVersion(groupId, artifactId, dependencies)
  {
    var i := 0;
    while i < |dependencies|
      invariant 0 <= i <= |dependencies|
      invariant DependencyVersion(groupId, artifactId, dependencies) ==
                DependencyVersion(groupId, artifactId, dependencies[i..])
    {
      var dep := dependencies[i];
      assert dependencies[i..][1..] == dependencies[i + 1..];
      if dep.groupId == Some(groupId) && dep.artifactId == Some(artifactId) {
        return dep.version;
      }
      i := i + 1;
    }
    version := None;
  }

  // ---------------------------------------------------------------------------
  // Resolution
  // ---------------------------------------------------------------------------

  /** What `ArtifactResolver.resolve` leaves on the artifact it is given: the file, and the
      version, which the resolver may replace (a remote snapshot comes back with its
      timestamped version). */
  datatype ResolvedFile = ResolvedFile(version: string, file: ArtifactFile)

  /** The collaborators behind `getArtifact`: the project's dependencies, the reactor,
      the version-range parser and the artifact resolver. */
  datatype Environment = Environment(
    dependencies: seq<Artifact>,
    reactor: Option<seq<MavenProject>>,
    validVersionSpec: string -> bool,            // VersionRange.createFromVersionSpec does not throw
    resolve: Artifact -> Option<ResolvedFile>)   // None when ArtifactResolver.resolve throws

  /** The artifact `factory.createDependencyArtifact(g, a, range, "jar", classifier, ...)`
      creates: no file yet. */
  function Requested(groupId: string, artifactId: string, version: string, classifier: Option<string>): Artifact {
    Artifact(Some(groupId), Some(artifactId), Some(version), Some("jar"), classifier, None)
  }

  datatype Resolution = Resolved(artifact: Artifact) | Unresolved(failure: Failure)

  /** The tail of `getArtifact` shared by both goals: the version range must parse, the
      reactor is searched, and only then is the resolver asked. */
  function ResolveArtifact(groupId: string, artifactId: string, version: string, classifier: Option<string>,
                           env: Environment): Resolution
  {
    if !env.validVersionSpec(version) then Unresolved(ExecutionException(BadVersionRange))
    else
      var wanted := Requested(groupId, artifactId, version, classifier);
      var fromReactor := FirstMatch(wanted, Candidates(env.dependencies, env.reactor));
      if fromReactor.Some? then Resolved(fromReactor.value)
      else match env.resolve(wanted)
        case None => Unresolved(ExecutionException(ArtifactNotResolved))
        case Some(f) => Resolved(wanted.(version := Some(f.version), file := Some(f.file)))
  }

  /** The shared tail as the two `getArtifact` methods run it. */
  method Resolve(groupId: string, artifactId: string, version: string, classifier: Option<string>,
                 env: Environment) returns (r: Resolution)
    ensures r == ResolveArtifact(groupId, artifactId, version, classifier, env)
  {
    if !env.validVersionSpec(version) {
      return Unresolved(ExecutionException(BadVersionRange));
    }
    var wanted := Requested(groupId, artifactId, version, classifier);
    var found := FindInReactor(wanted, env.dependencies, env.reactor);
    if found.Some? {
      return Resolved(found.value);
    }
    var resolved := env.resolve(wanted);
    if resolved.None? {
      return Unresolved(ExecutionException(ArtifactNotResolved));
    }
    r := Resolved(wanted.(version := Some(resolved.value.version), file := Some(resolved.value.file)));
  }

  /** The version the resolver gives the artifact it is asked for, if it succeeds. */
  function ResolverVersion(env: Environment, wanted: Artifact): Option<string> {
    if env.resolve(wanted).Some? then Some(env.resolve(wanted).value.version) else None
  }

  /** Whatever comes back has the group, artifact, type and classifier that were asked
      for, so the identity a caller derives from it depends on the request and on the
      version the resolver reports; the version is the requested one when the reactor
      supplies the artifact. Failures are always `MojoExecutionException`s. */
  lemma ResolvedHasRequestedCoordinates(groupId: string, artifactId: string, version: string,
                                        classifier: Option<string>, env: Environment)
    ensures var r := ResolveArtifact(groupId, artifactId, version, classifier, env);
            var wanted := Requested(groupId, artifactId, version, classifier);
            (r.Resolved? ==>
               r.artifact.groupId == Some(groupId) && r.artifact.artifactId == Some(artifactId) &&
               r.artifact.artifactType == Some("jar") && r.artifact.classifier == classifier &&
               r.artifact.file.Some? &&
               (r.artifact.version == Some(version) || r.artifact.version == ResolverVersion(env, wanted)) &&
               (FirstMatch(wanted, Candidates(env.dependencies, env.reactor)).Some? ==>
                  r.artifact.version == Some(version))) &&
            (r.Unresolved? ==> r.failure.ExecutionException?)
  {
    var wanted := Requested(groupId, artifactId, version, classifier);
    var cs := Candidates(env.dependencies, env.reactor);
    FirstMatchIsFirst(wanted, cs);
  }
}
