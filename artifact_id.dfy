/** `ArtifactId`: five coordinate strings used as an artifact filter, built either from an
    artifact's fields or from a `group:artifact:type:classifier:version` pattern, and
    compared field by field against another id. */
module ArtifactIds {
  import opened JavaLang
  import Maven

  datatype ArtifactId = ArtifactId(groupId: string, artifactId: string, artifactType: string,
                                   classifier: string, version: string)

  /** The five-argument constructor: every null field becomes "". */
  function FromFields(groupId: Option<string>, artifactId: Option<string>, artifactType: Option<string>,
                      classifier: Option<string>, version: Option<string>): (r: ArtifactId)
    ensures r.groupId == (if groupId.Some? then groupId.value else "")
    ensures r.artifactId == (if artifactId.Some? then artifactId.value else "")
    ensures r.artifactType == (if artifactType.Some? then artifactType.value else "")
    ensures r.classifier == (if classifier.Some? then classifier.value else "")
    ensures r.version == (if version.Some? then version.value else "")
  {
    ArtifactId(OrEmpty(groupId), OrEmpty(artifactId), OrEmpty(artifactType), OrEmpty(classifier), OrEmpty(version))
  }

  /** `ArtifactId(Artifact)`: the artifact's coordinates, with "" for the missing ones. */
  function FromArtifact(a: Maven.Artifact): (r: ArtifactId)
    ensures r.groupId == (if a.groupId.Some? then a.groupId.value else "")
    ensures r.artifactId == (if a.artifactId.Some? then a.artifactId.value else "")
    ensures r.artifactType == (if a.artifactType.Some? then a.artifactType.value else "")
    ensures r.classifier == (if a.classifier.Some? then a.classifier.value else "")
    ensures r.version == (if a.version.Some? then a.version.value else "")
  {
    FromFields(a.groupId, a.artifactId, a.artifactType, a.classifier, a.version)
  }

  /** The pieces of a pattern: none for a null or empty id, otherwise every piece between
      colons, trailing empty ones included (`split(":", -1)`). */
  function Tokens(id: Option<string>): (t: seq<string>)
    ensures id.None? || id.value == [] ==> t == []
    ensures id.Some? && id.value != [] ==> |t| >= 1 && Join(t, ':') == id.value
  {
    if id.None? || id.value == [] then []
    else
      SplitAllJoin(id.value, ':');
      SplitAll(id.value, ':')
  }

  function TokenOr(t: seq<string>, i: nat, default: string): string {
    if i < |t| then t[i] else default
  }

  /** `ArtifactId(String)`: group and artifact are pieces 0 and 1; with exactly three pieces
      the third is the classifier, with four or more the third is the type and the fourth
      the classifier; the version is piece 4; anything missing is "*", except the group,
      which defaults to "". */
  function Parse(id: Option<string>): (r: ArtifactId)
    ensures var t := Tokens(id);
            r.groupId == (if |t| > 0 then t[0] else "") &&
            r.artifactId == (if |t| > 1 then t[1] else "*") &&
            r.artifactType == (if |t| > 3 then t[2] else "*") &&
            r.classifier == (if |t| > 3 then t[3] else if |t| > 2 then t[2] else "*") &&
            r.version == (if |t| > 4 then t[4] else "*")
  {
    var t := Tokens(id);
    ArtifactId(TokenOr(t, 0, ""), TokenOr(t, 1, "*"),
               if |t| > 3 then t[2] else "*",
               if |t| > 3 then t[3] else TokenOr(t, 2, "*"),
               TokenOr(t, 4, "*"))
  }

  /** The full five-piece pattern naming exactly the given id. */
  function ToPattern(x: ArtifactId): string {
    Join([x.groupId, x.artifactId, x.artifactType, x.classifier, x.version], ':')
  }

  predicate ColonFree(x: ArtifactId) {
    ':' !in x.groupId && ':' !in x.artifactId && ':' !in x.artifactType &&
    ':' !in x.classifier && ':' !in x.version
  }

  lemma TokensOfJoin(parts: seq<string>)
    requires |parts| >= 2
    requires forall i :: 0 <= i < |parts| ==> ':' !in parts[i]
    ensures Tokens(Some(Join(parts, ':'))) == parts
  {
    SeparatorInJoin(parts, ':');
    JoinSplitAll(parts, ':');
  }

  /** The five-piece pattern parses back to the same id, empty fields included. */
  lemma ParseToPattern(x: ArtifactId)
    requires ColonFree(x)
    ensures Parse(Some(ToPattern(x))) == x
  {
    TokensOfJoin([x.groupId, x.artifactId, x.artifactType, x.classifier, x.version]);
  }

  /** Pieces beyond the fifth are ignored: a pattern of five pieces or more names
      exactly its first five. */
  lemma ParseIgnoresExtraPieces(parts: seq<string>)
    requires |parts| >= 5
    requires forall i :: 0 <= i < |parts| ==> ':' !in parts[i]
    ensures Parse(Some(Join(parts, ':'))) == ArtifactId(parts[0], parts[1], parts[2], parts[3], parts[4])
  {
    TokensOfJoin(parts);
  }

  lemma JoinThree(g: string, a: string, c: string)
    ensures Join([g, a, c], ':') == g + ":" + a + ":" + c
  {
    assert [g, a, c][1..] == [a, c] && [a, c][1..] == [c];
    assert Join([a, c], ':') == a + ":" + c;
  }

  /** With three pieces the third is the classifier, not the type. */
  lemma ParseThreePieces(g: string, a: string, c: string)
    requires ':' !in g && ':' !in a && ':' !in c
    ensures Parse(Some(g + ":" + a + ":" + c)) == ArtifactId(g, a, "*", c, "*")
  {
    JoinThree(g, a, c);
    TokensOfJoin([g, a, c]);
  }

  lemma ParseTwoPieces(g: string, a: string)
    requires ':' !in g && ':' !in a
    ensures Parse(Some(g + ":" + a)) == ArtifactId(g, a, "*", "*", "*")
  {
    assert [g, a][1..] == [a];
    assert Join([g, a], ':') == g + ":" + a;
    TokensOfJoin([g, a]);
  }

  /** A bare group constrains only the group. */
  lemma ParseGroupOnly(g: string)
    requires g != [] && ':' !in g
    ensures Parse(Some(g)) == ArtifactId(g, "*", "*", "*", "*")
  {
    SplitAllNoSeparator(g, ':');
  }

  lemma ParseNullOrEmpty(id: Option<string>)
    requires id.None? || id.value == []
    ensures Parse(id) == ArtifactId("", "*", "*", "*", "*")
  {
  }

  /** `matches`: false for a null pattern; otherwise every field must match its pattern
      field, `fieldMatch(pattern, value)` standing for `SelectorUtils.match`. */
  function Matches(x: ArtifactId, pattern: Option<ArtifactId>, fieldMatch: (string, string) -> bool): (r: bool)
    ensures pattern.None? ==> !r
    ensures pattern.Some? ==>
              (r <==> fieldMatch(pattern.value.groupId, x.groupId) &&
                      fieldMatch(pattern.value.artifactId, x.artifactId) &&
                      fieldMatch(pattern.value.artifactType, x.artifactType) &&
                      fieldMatch(pattern.value.classifier, x.classifier) &&
                      fieldMatch(pattern.value.version, x.version))
  {
    if pattern.None? then false
    else if !fieldMatch(pattern.value.groupId, x.groupId) then false
    else if !fieldMatch(pattern.value.artifactId, x.artifactId) then false
    else if !fieldMatch(pattern.value.artifactType, x.artifactType) then false
    else if !fieldMatch(pattern.value.classifier, x.classifier) then false
    else fieldMatch(pattern.value.version, x.version)
  }

  /** With a matcher under which "*" matches anything and any other pattern field matches
      only itself, the full pattern of `x` matches `y` exactly when every field of `x` is
      "*" or equal to `y`'s; so with no "*" field it matches `x` alone. */
  lemma MatchesOwnPattern(x: ArtifactId, y: ArtifactId, fieldMatch: (string, string) -> bool)
    requires ColonFree(x)
    requires forall p, s :: fieldMatch(p, s) <==> p == "*" || p == s
    ensures Matches(y, Some(Parse(Some(ToPattern(x)))), fieldMatch) <==>
            (x.groupId == "*" || x.groupId == y.groupId) &&
            (x.artifactId == "*" || x.artifactId == y.artifactId) &&
            (x.artifactType == "*" || x.artifactType == y.artifactType) &&
            (x.classifier == "*" || x.classifier == y.classifier) &&
            (x.version == "*" || x.version == y.version)
  {
    ParseToPattern(x);
  }

  /** A `group:artifact` pattern leaves type, classifier and version unconstrained. */
  lemma MatchesGroupArtifact(g: string, a: string, y: ArtifactId, fieldMatch: (string, string) -> bool)
    requires ':' !in g && ':' !in a
    requires forall p, s :: fieldMatch(p, s) <==> p == "*" || p == s
    ensures Matches(y, Some(Parse(Some(g + ":" + a))), fieldMatch) <==>
            (g == "*" || y.groupId == g) && (a == "*" || y.artifactId == a)
  {
    ParseTwoPieces(g, a);
  }
}
