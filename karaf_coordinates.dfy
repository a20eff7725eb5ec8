/** `KarafBundleCoordinates`: the coordinates named by a Karaf bundle location of the form
    `mvn:group/artifact/version[/type[/classifier]]`. */
module KarafCoordinates {
  import opened JavaLang
  import opened Maven

  /** The four getters are the fields; `classifier` is `None` for Java's `null`. */
  datatype Coordinates = Coordinates(groupId: string, artifactId: string, version: string,
                                     classifier: Option<string>)

  const PREFIX: string := "mvn:"

  /** The constructor. A location that is not an `mvn:` URI is an `IllegalArgumentException`;
      fewer than three `/`-pieces after the prefix (trailing empty pieces dropped, as
      `String.split` does) or a fifth piece whose type is not `jar` is a
      `MojoFailureException`. */
  function Parse(uri: string): (r: Result<Coordinates, Failure>)
    ensures !StartsWith(uri, PREFIX) ==> r == Err(RuntimeException(NotMvnUri))
    ensures StartsWith(uri, PREFIX) ==>
              var pieces := Split(uri[4..], '/');
              (|pieces| < 3 ==> r == Err(FailureException(InvalidBundleLocation))) &&
              (|pieces| >= 5 && pieces[3] != "jar" ==> r == Err(FailureException(NonJarBundle))) &&
              (r.Ok? <==> |pieces| >= 3 && (|pieces| < 5 || pieces[3] == "jar")) &&
              (r.Ok? ==> r.value.groupId == pieces[0] && r.value.artifactId == pieces[1] &&
                         r.value.version == pieces[2] &&
                         r.value.classifier == (if |pieces| >= 5 then Some(pieces[4]) else None))
  {
    if !StartsWith(uri, PREFIX) then Err(RuntimeException(NotMvnUri))
    else
      var pieces := Split(uri[4..], '/');
      if |pieces| < 3 then Err(FailureException(InvalidBundleLocation))
      else if |pieces| >= 5 then
        if pieces[3] != "jar" then Err(FailureException(NonJarBundle))
        else Ok(Coordinates(pieces[0], pieces[1], pieces[2], Some(pieces[4])))
      else Ok(Coordinates(pieces[0], pieces[1], pieces[2], None))
  }

  /** The location naming `c`: three pieces without a classifier, five with type `jar`
      and the classifier otherwise. */
  function ToUri(c: Coordinates): string {
    PREFIX + Join(Pieces(c), '/')
  }

  function Pieces(c: Coordinates): seq<string> {
    if c.classifier.None? then [c.groupId, c.artifactId, c.version]
    else [c.groupId, c.artifactId, c.version, "jar", c.classifier.value]
  }

  /** Coordinates a location can carry: no `/` inside a piece, and a non-empty last piece
      (an empty one would be dropped by `split`). */
  predicate Representable(c: Coordinates) {
    '/' !in c.groupId && '/' !in c.artifactId && '/' !in c.version &&
    (c.classifier.None? ==> c.version != "") &&
    (c.classifier.Some? ==> c.classifier.value != "" && '/' !in c.classifier.value)
  }

  lemma ParseToUri(c: Coordinates)
    requires Representable(c)
    ensures Parse(ToUri(c)) == Ok(c)
  {
    var p := Pieces(c);
    assert forall i :: 0 <= i < |p| ==> '/' !in p[i];
    JoinSplit(p, '/');
    DropPrefix(PREFIX, Join(p, '/'));
  }

  /** A fourth piece is not checked when there is no fifth. */
  lemma FourPiecesIgnoreType(g: string, a: string, v: string, t: string)
    requires '/' !in g && '/' !in a && '/' !in v && '/' !in t && t != ""
    ensures Parse(PREFIX + Join([g, a, v, t], '/')) == Ok(Coordinates(g, a, v, None))
  {
    JoinSplit([g, a, v, t], '/');
    DropPrefix(PREFIX, Join([g, a, v, t], '/'));
  }

  /** A five-piece location whose type is not `jar` is refused. */
  lemma NonJarRefused(g: string, a: string, v: string, t: string, cl: string)
    requires '/' !in g && '/' !in a && '/' !in v && '/' !in t && '/' !in cl && cl != ""
    requires t != "jar"
    ensures Parse(PREFIX + Join([g, a, v, t, cl], '/')) == Err(FailureException(NonJarBundle))
  {
    JoinSplit([g, a, v, t, cl], '/');
    DropPrefix(PREFIX, Join([g, a, v, t, cl], '/'));
  }

  /** Trailing empty pieces do not count: `mvn:g/a/` has only two. */
  lemma TrailingEmptyPiecesDropped(g: string, a: string)
    requires '/' !in g && '/' !in a && a != ""
    ensures Parse(PREFIX + g + "/" + a + "/") == Err(FailureException(InvalidBundleLocation))
  {
    var body := g + "/" + a + "/";
    assert PREFIX + g + "/" + a + "/" == PREFIX + body;
    DropPrefix(PREFIX, body);
    assert body == g + ['/'] + (a + ['/'] + []);
    SplitAllAtSeparator(g, '/', a + ['/'] + []);
    SplitAllAtSeparator(a, '/', []);
    assert body[|g|] == '/';
  }
}
