/** `BundlesInfo.read`: the input file of the bundle collector,
    `<bundles><level level="N"><bundle noStart="...">locator</bundle>...</level>...</bundles>`,
    read with a StAX pull reader. The reader is modelled as the sequence of events it
    still has to report; its position is the suffix not yet consumed. */
module BundlesInfo {
  import opened JavaLang

  /** What `XMLStreamReader` reports, with coalescing on (adjacent text arrives as one
      `Characters` event). `OtherEvent` is any other kind (DTD, entity reference, ...). */
  datatype Event =
    | StartElement(name: string, attributes: map<string, string>)
    | EndElement(name: string)
    | Characters(text: string)
    | Comment
    | ProcessingInstruction
    | OtherEvent

  /** `BundleInfo`: the locator text of one `<bundle>` and whether it is to be started. */
  datatype BundleInfo = BundleInfo(start: bool, gav: string)

  /** `LevelBundles`: one `<level>` element, its bundles in document order. */
  datatype LevelBundles = LevelBundles(level: int, bundles: seq<BundleInfo>)

  /** How `read` ends abnormally: `CannotOpen`, `XmlError` (an `XMLStreamException`,
      rethrown as `IOException`) and `NoBundleText` are `IOException`s;
      `BadLevelNumber` is the unchecked `NumberFormatException` of `Integer.parseInt`. */
  datatype ReadError = CannotOpen | XmlError | NoBundleText | BadLevelNumber

  /** The file: one that cannot be opened, or the events of its document. */
  datatype InputFile = Unopenable | Document(events: seq<Event>)

  function Lookup(attributes: map<string, string>, name: string): (r: Option<string>)
    ensures r.Some? <==> name in attributes
    ensures r.Some? ==> r.value == attributes[name]
  {
    if name in attributes then Some(attributes[name]) else None
  }

  predicate IsXmlWhitespace(c: char) { c == ' ' || c == '\t' || c == '\n' || c == '\r' }

  /** The events `nextTag` passes over: whitespace-only text, comments and processing
      instructions. */
  predicate Skippable(e: Event) {
    e.Comment? || e.ProcessingInstruction? ||
    (e.Characters? && forall i :: 0 <= i < |e.text| ==> IsXmlWhitespace(e.text[i]))
  }

  predicate IsTag(e: Event) { e.StartElement? || e.EndElement? }

  // ---------------------------------------------------------------------------
  // The grammar, as functions of the unread events
  // ---------------------------------------------------------------------------

  /** How many skippable events lead `ev`. */
  function SkipCount(ev: seq<Event>): (k: nat)
    ensures k <= |ev|
    ensures forall j :: 0 <= j < k ==> Skippable(ev[j])
    ensures k < |ev| ==> !Skippable(ev[k])
  {
    if ev == [] || !Skippable(ev[0]) then 0 else 1 + SkipCount(ev[1..])
  }

  /** `nextTag`: the first event that is not skippable, which must be a start or end tag,
      and the events after it; `None` (an `XMLStreamException`) when that event is anything
      else or the document ends first. */
  function NextTag(ev: seq<Event>): (r: Option<(Event, seq<Event>)>)
    ensures r.Some? ==> IsTag(r.value.0) && |r.value.1| < |ev|
    ensures r.Some? <==> SkipCount(ev) < |ev| && IsTag(ev[SkipCount(ev)])
    ensures r.Some? ==> r.value == (ev[SkipCount(ev)], ev[SkipCount(ev) + 1..])
  {
    var k := SkipCount(ev);
    if k < |ev| && IsTag(ev[k]) then Some((ev[k], ev[k + 1..])) else None
  }

  /** A tag right at the reader's position is the next tag. */
  lemma NextTagAtTag(e: Event, ev: seq<Event>)
    requires IsTag(e)
    ensures NextTag([e] + ev) == Some((e, ev))
  {
    assert ([e] + ev)[0] == e;
    assert ([e] + ev)[1..] == ev;
  }

  /** Puts already-read items in front of a successful result. */
  function PrependBundles(done: seq<BundleInfo>, r: Result<(seq<BundleInfo>, seq<Event>), ReadError>)
    : Result<(seq<BundleInfo>, seq<Event>), ReadError>
  {
    match r
    case Ok(pair) => Ok((done + pair.0, pair.1))
    case Err(e) => Err(e)
  }

  function PrependLevels(done: seq<LevelBundles>, r: Result<(seq<LevelBundles>, seq<Event>), ReadError>)
    : Result<(seq<LevelBundles>, seq<Event>), ReadError>
  {
    match r
    case Ok(pair) => Ok((done + pair.0, pair.1))
    case Err(e) => Err(e)
  }

  /** One bundle after its `bundle` start tag: the very next event must be its text, and
      the next tag `</bundle>`; the start flag is the negation of
      `Boolean.parseBoolean(noStart)`. */
  function ReadOneBundle(attributes: map<string, string>, rest: seq<Event>): (r: Result<(BundleInfo, seq<Event>), ReadError>)
    ensures r.Ok? ==> |r.value.1| < |rest|
  {
    if rest == [] then Err(XmlError)
    else if !rest[0].Characters? then Err(NoBundleText)
    else match NextTag(rest[1..])
      case None => Err(XmlError)
      case Some(close) =>
        if !(close.0.EndElement? && close.0.name == "bundle") then Err(XmlError)
        else Ok((BundleInfo(!ParseBoolean(Lookup(attributes, "noStart")), rest[0].text), close.1))
  }

  /** The `<bundle>` children of one `<level>`, in document order, up to and including
      `</level>`. */
  function ReadBundles(ev: seq<Event>): (r: Result<(seq<BundleInfo>, seq<Event>), ReadError>)
    ensures r.Ok? ==> |r.value.1| < |ev|
    decreases |ev|
  {
    match NextTag(ev)
    case None => Err(XmlError)
    case Some(next) =>
      var tag := next.0;
      if tag.EndElement? then
        if tag.name == "level" then Ok(([], next.1)) else Err(XmlError)
      else if tag.name != "bundle" then Err(XmlError)
      else match ReadOneBundle(tag.attributes, next.1)
        case Err(e) => Err(e)
        case Ok(one) => PrependBundles([one.0], ReadBundles(one.1))
  }

  /** The `<level>` children of `<bundles>`, up to and including `</bundles>`, in document
      order; the `level` attribute goes through `Integer.parseInt` before any bundle of
      that level is read. */
  function ReadLevels(ev: seq<Event>): (r: Result<(seq<LevelBundles>, seq<Event>), ReadError>)
    ensures r.Ok? ==> |r.value.1| < |ev|
    decreases |ev|
  {
    match NextTag(ev)
    case None => Err(XmlError)
    case Some(next) =>
      var tag := next.0;
      if tag.EndElement? then
        if tag.name == "bundles" then Ok(([], next.1)) else Err(XmlError)
      else if tag.name != "level" then Err(XmlError)
      else
        var level := ParseInt(Lookup(tag.attributes, "level"));
        if level.None? then Err(BadLevelNumber)
        else match ReadBundles(next.1)
          case Err(e) => Err(e)
          case Ok(group) => PrependLevels([LevelBundles(level.value, group.0)], ReadLevels(group.1))
  }

  /** `read`: the root must be `<bundles>`; the levels come back sorted by level, equal
      levels in document order. Events after `</bundles>` are never looked at. */
  function ReadSpec(file: InputFile): Result<seq<LevelBundles>, ReadError> {
    match file
    case Unopenable => Err(CannotOpen)
    case Document(ev) =>
      match NextTag(ev)
      case None => Err(XmlError)
      case Some(first) =>
        if !(first.0.StartElement? && first.0.name == "bundles") then Err(XmlError)
        else match ReadLevels(first.1)
          case Err(e) => Err(e)
          case Ok(levels) => Ok(StableSort(levels.0))
  }

  // ---------------------------------------------------------------------------
  // The reader loops
  // ---------------------------------------------------------------------------

  /** The inner loop of `read`: bundles are appended to `bundleInfos` until `</level>`. */
  method ReadLevelBundles(events: seq<Event>) returns (r: Result<(seq<BundleInfo>, seq<Event>), ReadError>)
    ensures r == ReadBundles(events)
  {
    var cursor := events;
    var bundleInfos: seq<BundleInfo> := [];
    PrependNoBundles(ReadBundles(events));
    while true
      invariant ReadBundles(events) == PrependBundles(bundleInfos, ReadBundles(cursor))
      decreases |cursor|
    {
      var next := NextTag(cursor);
      if next.None? {
        return Err(XmlError);
      }
      var tag := next.value.0;
      var rest := next.value.1;
      if !tag.StartElement? {
        if tag.name != "level" {
          return Err(XmlError);
        }
        assert bundleInfos + [] == bundleInfos;
        return Ok((bundleInfos, rest));
      }
      if tag.name != "bundle" {
        return Err(XmlError);
      }
      var start := !ParseBoolean(Lookup(tag.attributes, "noStart"));
      if rest == [] {
        return Err(XmlError);
      }
      if !rest[0].Characters? {
        return Err(NoBundleText);
      }
      var filename := rest[0].text;
      var close := NextTag(rest[1..]);
      if close.None? || !(close.value.0.EndElement? && close.value.0.name == "bundle") {
        return Err(XmlError);
      }
      assert ReadOneBundle(tag.attributes, rest) == Ok((BundleInfo(start, filename), close.value.1));
      assert ReadBundles(cursor) == PrependBundles([BundleInfo(start, filename)], ReadBundles(close.value.1));
      PrependTwice(bundleInfos, [BundleInfo(start, filename)], ReadBundles(close.value.1));
      bundleInfos := bundleInfos + [BundleInfo(start, filename)];
      cursor := close.value.1;
    }
  }

  lemma PrependNoBundles(r: Result<(seq<BundleInfo>, seq<Event>), ReadError>)
    ensures PrependBundles([], r) == r
  {
    if r.Ok? {
      assert [] + r.value.0 == r.value.0;
    }
  }

  lemma PrependNoLevels(r: Result<(seq<LevelBundles>, seq<Event>), ReadError>)
    ensures PrependLevels([], r) == r
  {
    if r.Ok? {
      assert [] + r.value.0 == r.value.0;
    }
  }

  lemma PrependTwice(a: seq<BundleInfo>, b: seq<BundleInfo>, r: Result<(seq<BundleInfo>, seq<Event>), ReadError>)
    ensures PrependBundles(a, PrependBundles(b, r)) == PrependBundles(a + b, r)
  {
    if r.Ok? {
      assert a + (b + r.value.0) == (a + b) + r.value.0;
    }
  }

  lemma PrependLevelsTwice(a: seq<LevelBundles>, b: seq<LevelBundles>,
                           r: Result<(seq<LevelBundles>, seq<Event>), ReadError>)
    ensures PrependLevels(a, PrependLevels(b, r)) == PrependLevels(a + b, r)
  {
    if r.Ok? {
      assert a + (b + r.value.0) == (a + b) + r.value.0;
    }
  }

  /** `read`: the outer loop appends one `LevelBundles` per `<level>` to `levels`; after
      `</bundles>` the list is sorted by level. */
  method Read(file: InputFile) returns (r: Result<seq<LevelBundles>, ReadError>)
    ensures r == ReadSpec(file)
  {
    if file.Unopenable? {
      return Err(CannotOpen);
    }
    var first := NextTag(file.events);
    if first.None? || !(first.value.0.StartElement? && first.value.0.name == "bundles") {
      return Err(XmlError);
    }
    var body := first.value.1;
    var cursor := body;
    var levels: seq<LevelBundles> := [];
    PrependNoLevels(ReadLevels(body));
    while true
      invariant ReadLevels(body) == PrependLevels(levels, ReadLevels(cursor))
      decreases |cursor|
    {
      var next := NextTag(cursor);
      if next.None? {
        return Err(XmlError);
      }
      var tag := next.value.0;
      if !tag.StartElement? {
        if tag.name != "bundles" {
          return Err(XmlError);
        }
        assert levels + [] == levels;
        return Ok(StableSort(levels));
      }
      if tag.name != "level" {
        return Err(XmlError);
      }
      var level := ParseInt(Lookup(tag.attributes, "level"));
      if level.None? {
        return Err(BadLevelNumber);
      }
      var inner := ReadLevelBundles(next.value.1);
      if inner.Err? {
        return Err(inner.error);
      }
      var group := LevelBundles(level.value, inner.value.0);
      PrependLevelsTwice(levels, [group], ReadLevels(inner.value.1));
      levels := levels + [group];
      cursor := inner.value.1;
    }
  }

  // ---------------------------------------------------------------------------
  // Collections.sort by level
  // ---------------------------------------------------------------------------

  predicate SortedByLevel(s: seq<LevelBundles>) {
    forall i, j :: 0 <= i < j < |s| ==> s[i].level <= s[j].level
  }

  /** The groups of `s` with the given level, in their order in `s`. */
  function WithLevel(s: seq<LevelBundles>, k: int): seq<LevelBundles> {
    if s == [] then []
    else WithLevel(s[..|s| - 1], k) + (if s[|s| - 1].level == k then [s[|s| - 1]] else [])
  }

  /** Inserts `x` after every group whose level is not above its own. */
  function InsertByLevel(x: LevelBundles, s: seq<LevelBundles>): (r: seq<LevelBundles>)
    ensures |r| == |s| + 1
  {
    if s == [] || s[|s| - 1].level <= x.level then s + [x]
    else InsertByLevel(x, s[..|s| - 1]) + [s[|s| - 1]]
  }

  /** A stable sort by level, as `Collections.sort` with `Integer.compare` on the levels
      performs it. */
  function StableSort(s: seq<LevelBundles>): (r: seq<LevelBundles>)
    ensures |r| == |s|
  {
    if s == [] then [] else InsertByLevel(s[|s| - 1], StableSort(s[..|s| - 1]))
  }

  lemma WithLevelSnoc(s: seq<LevelBundles>, e: LevelBundles, k: int)
    ensures WithLevel(s + [e], k) == WithLevel(s, k) + (if e.level == k then [e] else [])
  {
    assert (s + [e])[..|s|] == s;
  }

  lemma {:induction false} InsertByLevelMultiset(x: LevelBundles, s: seq<LevelBundles>)
    ensures multiset(InsertByLevel(x, s)) == multiset(s) + multiset{x}
  {
    if s != [] && s[|s| - 1].level > x.level {
      InsertByLevelMultiset(x, s[..|s| - 1]);
      assert s == s[..|s| - 1] + [s[|s| - 1]];
    }
  }

  lemma {:induction false} InsertByLevelSorted(x: LevelBundles, s: seq<LevelBundles>)
    requires SortedByLevel(s)
    ensures SortedByLevel(InsertByLevel(x, s))
  {
    if s != [] && s[|s| - 1].level > x.level {
      var init := s[..|s| - 1];
      var last := s[|s| - 1];
      InsertByLevelSorted(x, init);
      InsertByLevelMultiset(x, init);
      var t := InsertByLevel(x, init);
      forall i | 0 <= i < |t| ensures t[i].level <= last.level {
        assert t[i] in multiset(t);
        if t[i] != x {
          assert t[i] in multiset(init);
          var j :| 0 <= j < |init| && init[j] == t[i];
          assert s[j] == init[j];
        }
      }
    }
  }

  lemma {:induction false} InsertByLevelStable(x: LevelBundles, s: seq<LevelBundles>, k: int)
    ensures WithLevel(InsertByLevel(x, s), k) == WithLevel(s + [x], k)
  {
    if s != [] && s[|s| - 1].level > x.level {
      var init := s[..|s| - 1];
      var last := s[|s| - 1];
      InsertByLevelStable(x, init, k);
      WithLevelSnoc(InsertByLevel(x, init), last, k);
      WithLevelSnoc(init, x, k);
      WithLevelSnoc(s, x, k);
      WithLevelSnoc(init, last, k);
      assert init + [last] == s;
    }
  }

  /** `StableSort` sorts, permutes, and keeps each level's groups in their input order. */
  lemma {:induction false} StableSortFacts(s: seq<LevelBundles>)
    ensures SortedByLevel(StableSort(s))
    ensures multiset(StableSort(s)) == multiset(s)
    ensures forall k :: WithLevel(StableSort(s), k) == WithLevel(s, k)
  {
    if s != [] {
      var init := s[..|s| - 1];
      var last := s[|s| - 1];
      StableSortFacts(init);
      InsertByLevelSorted(last, StableSort(init));
      InsertByLevelMultiset(last, StableSort(init));
      assert s == init + [last];
      forall k ensures WithLevel(StableSort(s), k) == WithLevel(s, k) {
        InsertByLevelStable(last, StableSort(init), k);
        WithLevelSnoc(StableSort(init), last, k);
        WithLevelSnoc(init, last, k);
      }
    }
  }

  lemma {:induction false} InWithLevel(s: seq<LevelBundles>, k: int, x: LevelBundles)
    ensures x in WithLevel(s, k) <==> x in s && x.level == k
  {
    if s != [] {
      InWithLevel(s[..|s| - 1], k, x);
      assert s == s[..|s| - 1] + [s[|s| - 1]];
    }
  }

  lemma NonEmptyHasLevel(s: seq<LevelBundles>)
    ensures s != [] ==> WithLevel(s, s[|s| - 1].level) != []
  {
    if s != [] {
      WithLevelSnoc(s[..|s| - 1], s[|s| - 1], s[|s| - 1].level);
      assert s == s[..|s| - 1] + [s[|s| - 1]];
    }
  }

  lemma SortedInit(s: seq<LevelBundles>)
    requires s != [] && SortedByLevel(s)
    ensures SortedByLevel(s[..|s| - 1])
    ensures forall x :: x in s ==> x.level <= s[|s| - 1].level
  {
    forall x | x in s ensures x.level <= s[|s| - 1].level {
      var i :| 0 <= i < |s| && s[i] == x;
    }
  }

  /** A sorted sequence is determined by its per-level subsequences, so every stable sort
      by level (the merge sort of `Collections.sort` included) gives `StableSort`. */
  lemma {:induction false} SortedDeterminedByLevels(a: seq<LevelBundles>, b: seq<LevelBundles>)
    requires SortedByLevel(a) && SortedByLevel(b)
    requires forall k :: WithLevel(a, k) == WithLevel(b, k)
    ensures a == b
    decreases |a| + |b|
  {
    if a == [] || b == [] {
      NonEmptyHasLevel(a);
      NonEmptyHasLevel(b);
    } else {
      var ai := a[..|a| - 1];
      var bi := b[..|b| - 1];
      var x := a[|a| - 1];
      var y := b[|b| - 1];
      assert a == ai + [x];
      assert b == bi + [y];
      SortedInit(a);
      SortedInit(b);
      // the top levels agree: each top group occurs in the other sequence's filter
      InWithLevel(b, y.level, y);
      InWithLevel(a, y.level, y);
      InWithLevel(a, x.level, x);
      InWithLevel(b, x.level, x);
      assert y.level <= x.level && x.level <= y.level;
      var m := x.level;
      WithLevelSnoc(ai, x, m);
      WithLevelSnoc(bi, y, m);
      assert WithLevel(a, m)[|WithLevel(a, m)| - 1] == x;
      assert WithLevel(b, m)[|WithLevel(b, m)| - 1] == y;
      assert x == y;
      forall k ensures WithLevel(ai, k) == WithLevel(bi, k) {
        WithLevelSnoc(ai, x, k);
        WithLevelSnoc(bi, x, k);
        var p := WithLevel(ai, k);
        var q := WithLevel(bi, k);
        if m == k {
          assert p + [x] == q + [x];
          assert (p + [x])[..|p|] == p;
          assert (q + [x])[..|q|] == q;
        } else {
          assert p + [] == p && q + [] == q;
        }
      }
      SortedDeterminedByLevels(ai, bi);
    }
  }

  lemma AnyStableSortIsStableSort(s: seq<LevelBundles>, t: seq<LevelBundles>)
    requires SortedByLevel(t)
    requires forall k :: WithLevel(t, k) == WithLevel(s, k)
    ensures t == StableSort(s)
  {
    StableSortFacts(s);
    SortedDeterminedByLevels(t, StableSort(s));
  }

  // ---------------------------------------------------------------------------
  // Documents that read back
  // ---------------------------------------------------------------------------

  function BundleAttributes(start: bool): map<string, string> {
    if start then map[] else map["noStart" := "true"]
  }

  function BundleEvents(b: BundleInfo): seq<Event> {
    [StartElement("bundle", BundleAttributes(b.start)), Characters(b.gav), EndElement("bundle")]
  }

  function BundlesEvents(bs: seq<BundleInfo>): seq<Event> {
    if bs == [] then [] else BundleEvents(bs[0]) + BundlesEvents(bs[1..])
  }

  function LevelEvents(g: LevelBundles): seq<Event> {
    [StartElement("level", map["level" := IntToString(g.level)])] + BundlesEvents(g.bundles) + [EndElement("level")]
  }

  function LevelsEvents(gs: seq<LevelBundles>): seq<Event> {
    if gs == [] then [] else LevelEvents(gs[0]) + LevelsEvents(gs[1..])
  }

  /** The document listing `gs` in order, `noStart="true"` on the bundles not to start. */
  function DocumentOf(gs: seq<LevelBundles>): seq<Event> {
    [StartElement("bundles", map[])] + LevelsEvents(gs) + [EndElement("bundles")]
  }

  lemma ReadOneBundleEvents(attributes: map<string, string>, text: string, after: seq<Event>)
    ensures ReadOneBundle(attributes, [Characters(text), EndElement("bundle")] + after) ==
            Ok((BundleInfo(!ParseBoolean(Lookup(attributes, "noStart")), text), after))
  {
    var rest := [Characters(text), EndElement("bundle")] + after;
    assert rest[1..] == [EndElement("bundle")] + after;
    NextTagAtTag(EndElement("bundle"), after);
  }

  lemma ReadBundlesOne(attributes: map<string, string>, text: string, after: seq<Event>)
    ensures ReadBundles([StartElement("bundle", attributes), Characters(text), EndElement("bundle")] + after) ==
            PrependBundles([BundleInfo(!ParseBoolean(Lookup(attributes, "noStart")), text)], ReadBundles(after))
  {
    var tail := [Characters(text), EndElement("bundle")] + after;
    assert [StartElement("bundle", attributes), Characters(text), EndElement("bundle")] + after ==
           [StartElement("bundle", attributes)] + tail;
    NextTagAtTag(StartElement("bundle", attributes), tail);
    ReadOneBundleEvents(attributes, text, after);
  }

  lemma ReadBundlesStep(b: BundleInfo, after: seq<Event>)
    ensures ReadBundles(BundleEvents(b) + after) == PrependBundles([b], ReadBundles(after))
  {
    ReadBundlesOne(BundleAttributes(b.start), b.gav, after);
    assert ParseBoolean(Lookup(BundleAttributes(b.start), "noStart")) == !b.start;
  }

  lemma {:induction false} ReadBundlesEvents(bs: seq<BundleInfo>, rest: seq<Event>)
    ensures ReadBundles(BundlesEvents(bs) + [EndElement("level")] + rest) == Ok((bs, rest))
  {
    if bs == [] {
      assert BundlesEvents(bs) + [EndElement("level")] + rest == [EndElement("level")] + rest;
      NextTagAtTag(EndElement("level"), rest);
    } else {
      var after := BundlesEvents(bs[1..]) + [EndElement("level")] + rest;
      assert BundlesEvents(bs) + [EndElement("level")] + rest == BundleEvents(bs[0]) + after;
      ReadBundlesStep(bs[0], after);
      ReadBundlesEvents(bs[1..], rest);
      assert [bs[0]] + bs[1..] == bs;
    }
  }

  lemma ReadLevelsStep(g: LevelBundles, after: seq<Event>)
    requires IsInt32(g.level)
    ensures ReadLevels(LevelEvents(g) + after) == PrependLevels([g], ReadLevels(after))
  {
    var open := StartElement("level", map["level" := IntToString(g.level)]);
    var tail := BundlesEvents(g.bundles) + [EndElement("level")] + after;
    assert LevelEvents(g) + after == [open] + tail;
    NextTagAtTag(open, tail);
    ParseIntToString(g.level);
    ReadBundlesEvents(g.bundles, after);
  }

  lemma {:induction false} ReadLevelsEvents(gs: seq<LevelBundles>, rest: seq<Event>)
    requires forall i :: 0 <= i < |gs| ==> IsInt32(gs[i].level)
    ensures ReadLevels(LevelsEvents(gs) + [EndElement("bundles")] + rest) == Ok((gs, rest))
  {
    if gs == [] {
      assert LevelsEvents(gs) + [EndElement("bundles")] + rest == [EndElement("bundles")] + rest;
      NextTagAtTag(EndElement("bundles"), rest);
    } else {
      var after := LevelsEvents(gs[1..]) + [EndElement("bundles")] + rest;
      assert LevelsEvents(gs) + [EndElement("bundles")] + rest == LevelEvents(gs[0]) + after;
      ReadLevelsStep(gs[0], after);
      ReadLevelsEvents(gs[1..], rest);
      assert [gs[0]] + gs[1..] == gs;
    }
  }

  /** Reading the document of any groups with `int` levels gives those groups, stably
      sorted by level: bundle order, start flags and repeated levels all survive. */
  lemma {:induction false} ReadDocumentOf(gs: seq<LevelBundles>)
    requires forall i :: 0 <= i < |gs| ==> IsInt32(gs[i].level)
    ensures ReadSpec(Document(DocumentOf(gs))) == Ok(StableSort(gs))
  {
    var tail := LevelsEvents(gs) + [EndElement("bundles")] + [];
    assert DocumentOf(gs) == [StartElement("bundles", map[])] + tail;
    NextTagAtTag(StartElement("bundles", map[]), tail);
    ReadLevelsEvents(gs, []);
  }

  // ---------------------------------------------------------------------------
  // Properties of the grammar
  // ---------------------------------------------------------------------------

  /** Comments, processing instructions and whitespace-only text between tags are
      ignored. */
  lemma SkippedBeforeTag(e: Event, ev: seq<Event>)
    requires Skippable(e)
    ensures NextTag([e] + ev) == NextTag(ev)
  {
    assert ([e] + ev)[1..] == ev;
  }

  /** The first tag must open `bundles`. */
  lemma RootMustBeBundles(ev: seq<Event>)
    requires NextTag(ev).Some?
    requires !(NextTag(ev).value.0.StartElement? && NextTag(ev).value.0.name == "bundles")
    ensures ReadSpec(Document(ev)) == Err(XmlError)
  {
  }

  /** The one-bundle document: its start flag is the negation of `parseBoolean(noStart)`,
      whatever the attribute holds (absent, "TRUE", "yes", ...), and its text is kept
      verbatim. */
  lemma OneBundle(level: int, attributes: map<string, string>, text: string)
    requires IsInt32(level)
    ensures ReadSpec(Document([StartElement("bundles", map[]),
                               StartElement("level", map["level" := IntToString(level)]),
                               StartElement("bundle", attributes), Characters(text), EndElement("bundle"),
                               EndElement("level"), EndElement("bundles")])) ==
            Ok([LevelBundles(level, [BundleInfo(!ParseBoolean(Lookup(attributes, "noStart")), text)])])
  {
    var t1 := [StartElement("level", map["level" := IntToString(level)]),
               StartElement("bundle", attributes), Characters(text), EndElement("bundle"),
               EndElement("level"), EndElement("bundles")];
    assert [StartElement("bundles", map[]),
            StartElement("level", map["level" := IntToString(level)]),
            StartElement("bundle", attributes), Characters(text), EndElement("bundle"),
            EndElement("level"), EndElement("bundles")] == [StartElement("bundles", map[])] + t1;
    NextTagAtTag(StartElement("bundles", map[]), t1);
    OneBundleLevels(level, attributes, text);
    var g := LevelBundles(level, [BundleInfo(!ParseBoolean(Lookup(attributes, "noStart")), text)]);
    assert [g][..0] == [];
    assert StableSort([g]) == [g];
  }

  lemma OneBundleRead(attributes: map<string, string>, text: string, t5: seq<Event>)
    ensures ReadBundles([StartElement("bundle", attributes), Characters(text), EndElement("bundle"),
                         EndElement("level")] + t5) ==
            Ok(([BundleInfo(!ParseBoolean(Lookup(attributes, "noStart")), text)], t5))
  {
    var t4 := [EndElement("level")] + t5;
    var info := BundleInfo(!ParseBoolean(Lookup(attributes, "noStart")), text);
    assert [StartElement("bundle", attributes), Characters(text), EndElement("bundle"), EndElement("level")] + t5 ==
           [StartElement("bundle", attributes), Characters(text), EndElement("bundle")] + t4;
    ReadBundlesOne(attributes, text, t4);
    ReadBundlesEvents([], t5);
    assert BundlesEvents([]) + [EndElement("level")] + t5 == t4;
    assert [info] + [] == [info];
  }

  lemma OneBundleLevels(level: int, attributes: map<string, string>, text: string)
    requires IsInt32(level)
    ensures ReadLevels([StartElement("level", map["level" := IntToString(level)]),
                        StartElement("bundle", attributes), Characters(text), EndElement("bundle"),
                        EndElement("level"), EndElement("bundles")]) ==
            Ok(([LevelBundles(level, [BundleInfo(!ParseBoolean(Lookup(attributes, "noStart")), text)])], []))
  {
    var t5: seq<Event> := [EndElement("bundles")];
    var t2 := [StartElement("bundle", attributes), Characters(text), EndElement("bundle"), EndElement("level")] + t5;
    var t1 := [StartElement("level", map["level" := IntToString(level)])] + t2;
    assert t1 == [StartElement("level", map["level" := IntToString(level)]),
                  StartElement("bundle", attributes), Characters(text), EndElement("bundle"),
                  EndElement("level"), EndElement("bundles")];
    NextTagAtTag(StartElement("level", map["level" := IntToString(level)]), t2);
    ParseIntToString(level);
    var info := BundleInfo(!ParseBoolean(Lookup(attributes, "noStart")), text);
    OneBundleRead(attributes, text, t5);
    ReadLevelsEvents([], []);
    assert LevelsEvents([]) + [EndElement("bundles")] + [] == t5;
    assert [LevelBundles(level, [info])] + [] == [LevelBundles(level, [info])];
  }

  /** A `<bundle>` whose next event is not text (an empty element, a comment or a nested
      element) is the "No bundle filename text" `IOException`. */
  lemma BundleWithoutText(level: int, attributes: map<string, string>, e: Event, tail: seq<Event>)
    requires IsInt32(level)
    requires !e.Characters?
    ensures ReadSpec(Document([StartElement("bundles", map[]),
                               StartElement("level", map["level" := IntToString(level)]),
                               StartElement("bundle", attributes), e] + tail)) == Err(NoBundleText)
  {
    var t3 := [e] + tail;
    var t2 := [StartElement("bundle", attributes)] + t3;
    var t1 := [StartElement("level", map["level" := IntToString(level)])] + t2;
    assert [StartElement("bundles", map[]),
            StartElement("level", map["level" := IntToString(level)]),
            StartElement("bundle", attributes), e] + tail == [StartElement("bundles", map[])] + t1;
    NextTagAtTag(StartElement("bundles", map[]), t1);
    NextTagAtTag(StartElement("level", map["level" := IntToString(level)]), t2);
    ParseIntToString(level);
    NextTagAtTag(StartElement("bundle", attributes), t3);
  }

  /** A `level` attribute that is missing or not an `int` is a `NumberFormatException`. */
  lemma LevelNotANumber(attributes: map<string, string>, tail: seq<Event>)
    requires ParseInt(Lookup(attributes, "level")).None?
    ensures ReadSpec(Document([StartElement("bundles", map[]), StartElement("level", attributes)] + tail)) ==
            Err(BadLevelNumber)
  {
    var t1 := [StartElement("level", attributes)] + tail;
    assert [StartElement("bundles", map[]), StartElement("level", attributes)] + tail ==
           [StartElement("bundles", map[])] + t1;
    NextTagAtTag(StartElement("bundles", map[]), t1);
    NextTagAtTag(StartElement("level", attributes), tail);
  }

  /** Only `level` elements may appear inside `bundles`. */
  lemma OnlyLevelsInBundles(name: string, attributes: map<string, string>, tail: seq<Event>)
    requires name != "level"
    ensures ReadSpec(Document([StartElement("bundles", map[]), StartElement(name, attributes)] + tail)) ==
            Err(XmlError)
  {
    var t1 := [StartElement(name, attributes)] + tail;
    assert [StartElement("bundles", map[]), StartElement(name, attributes)] + tail ==
           [StartElement("bundles", map[])] + t1;
    NextTagAtTag(StartElement("bundles", map[]), t1);
    NextTagAtTag(StartElement(name, attributes), tail);
  }

  /** Only `bundle` elements may appear inside `level`. */
  lemma OnlyBundlesInLevel(level: int, name: string, attributes: map<string, string>, tail: seq<Event>)
    requires IsInt32(level)
    requires name != "bundle"
    ensures ReadSpec(Document([StartElement("bundles", map[]),
                               StartElement("level", map["level" := IntToString(level)]),
                               StartElement(name, attributes)] + tail)) == Err(XmlError)
  {
    var t2 := [StartElement(name, attributes)] + tail;
    var t1 := [StartElement("level", map["level" := IntToString(level)])] + t2;
    assert [StartElement("bundles", map[]),
            StartElement("level", map["level" := IntToString(level)]),
            StartElement(name, attributes)] + tail == [StartElement("bundles", map[])] + t1;
    NextTagAtTag(StartElement("bundles", map[]), t1);
    NextTagAtTag(StartElement("level", map["level" := IntToString(level)]), t2);
    ParseIntToString(level);
    NextTagAtTag(StartElement(name, attributes), tail);
  }
}
