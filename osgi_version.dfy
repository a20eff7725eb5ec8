/** `OsgiVersionMojo` (goal `osgi-version`): turns the project's Maven version into an OSGi
    version and stores it in a project property.

    Two forms are recognised, each by a regular expression matched against the whole
    version: the Basis form `x.y.z.cXX.Y<rest>` and the plain form
    `x[.y[.z[.qualifier]]][-SNAPSHOT]`. They are written out below as recognisers that peel
    the parts off the front of the version, each with the text it reads back and lemmas
    for both directions of that round trip. */
module OsgiVersion {
  import opened JavaLang
  import opened Maven

  const SNAPSHOT: string := "-SNAPSHOT"

  /** `\p{Alnum}`: the ASCII letters and digits. */
  predicate IsAlnum(c: char) {
    IsDigit(c) || 'a' <= c <= 'z' || 'A' <= c <= 'Z'
  }

  /** `[\p{Alnum}._-]` */
  predicate IsQualifierChar(c: char) {
    IsAlnum(c) || c == '.' || c == '_' || c == '-'
  }

  predicate QualifierChars(s: string) {
    forall i :: 0 <= i < |s| ==> IsQualifierChar(s[i])
  }

  /** `[0-9]+` */
  predicate Number(s: string) {
    |s| > 0 && AllDigits(s)
  }

  /** The leading run of digits of `s` and what follows it; the run is the longest
      one, so what follows does not start with a digit. */
  function SplitNumber(s: string): (r: (string, string))
    ensures r.0 + r.1 == s && AllDigits(r.0)
    ensures r.1 == [] || !IsDigit(r.1[0])
  {
    if s != [] && IsDigit(s[0]) then
      var (d, t) := SplitNumber(s[1..]);
      assert [s[0]] + (d + t) == s;
      ([s[0]] + d, t)
    else ([], s)
  }

  lemma {:induction false} SplitNumberOf(d: string, t: string)
    requires AllDigits(d) && (t == [] || !IsDigit(t[0]))
    ensures SplitNumber(d + t) == (d, t)
  {
    if d != [] {
      assert (d + t)[0] == d[0] && IsDigit(d[0]);
      assert (d + t)[1..] == d[1..] + t;
      assert AllDigits(d[1..]) by {
        forall i | 0 <= i < |d[1..]| ensures IsDigit(d[1..][i]) {
          assert d[1..][i] == d[i + 1];
        }
      }
      SplitNumberOf(d[1..], t);
      assert [d[0]] + d[1..] == d;
      assert SplitNumber(d + t) == ([d[0]] + SplitNumber((d + t)[1..]).0, SplitNumber((d + t)[1..]).1);
    } else {
      assert d + t == t;
    }
  }

  // ---------------------------------------------------------------------------
  // CXX_PATTERN: ([0-9]+\.[0-9]+\.[0-9]+\.c[0-9]+)\.([0-9]+[\p{Alnum}._-]*)
  // ---------------------------------------------------------------------------

  /** The parts of a Basis version `major.minor.patch.cNUMBER.rest`. */
  datatype CxxVersion = CxxVersion(major: string, minor: string, patch: string, cNumber: string, rest: string)

  /** Group 1 of the pattern. */
  function Group1(v: CxxVersion): string {
    v.major + ("." + (v.minor + ("." + (v.patch + (".c" + v.cNumber)))))
  }

  /** The whole version: group 1, a period, group 2. */
  function CxxText(v: CxxVersion): string {
    v.major + ("." + (v.minor + ("." + (v.patch + (".c" + (v.cNumber + ("." + v.rest)))))))
  }

  predicate WellFormedCxx(v: CxxVersion) {
    Number(v.major) && Number(v.minor) && Number(v.patch) && Number(v.cNumber) &&
    |v.rest| > 0 && IsDigit(v.rest[0]) && QualifierChars(v.rest)
  }

  /** `CXX_PATTERN.matcher(s).matches()` with its two groups. Every digit run of the
      pattern is followed by a character that is not a digit, so each run is the longest
      one and the match, when there is one, is unique. */
  function MatchCxx(s: string): Option<CxxVersion> {
    var (major, r1) := SplitNumber(s);
    if major == [] || r1 == [] || r1[0] != '.' then None
    else
      var (minor, r2) := SplitNumber(r1[1..]);
      if minor == [] || r2 == [] || r2[0] != '.' then None
      else
        var (patch, r3) := SplitNumber(r2[1..]);
        if patch == [] || |r3| < 2 || r3[0] != '.' || r3[1] != 'c' then None
        else
          var (cNumber, r4) := SplitNumber(r3[2..]);
          if cNumber == [] || r4 == [] || r4[0] != '.' then None
          else
            var rest := r4[1..];
            if rest == [] || !IsDigit(rest[0]) || !QualifierChars(rest) then None
            else Some(CxxVersion(major, minor, patch, cNumber, rest))
  }

  /** What is recognised is a well-formed Basis version, and its text is the input. */
  lemma MatchCxxSound(s: string)
    ensures MatchCxx(s).Some? ==> WellFormedCxx(MatchCxx(s).value) && CxxText(MatchCxx(s).value) == s
  {
    if MatchCxx(s).Some? {
      var (major, r1) := SplitNumber(s);
      var (minor, r2) := SplitNumber(r1[1..]);
      var (patch, r3) := SplitNumber(r2[1..]);
      var (cNumber, r4) := SplitNumber(r3[2..]);
      assert r4 == "." + r4[1..];
      assert r3 == ".c" + r3[2..];
      assert r2 == "." + r2[1..];
      assert r1 == "." + r1[1..];
    }
  }

  /** Every well-formed Basis version is recognised, with its own parts. */
  lemma MatchCxxText(v: CxxVersion)
    requires WellFormedCxx(v)
    ensures MatchCxx(CxxText(v)) == Some(v)
  {
    var r4 := "." + v.rest;
    var r3 := ".c" + (v.cNumber + r4);
    var r2 := "." + (v.patch + r3);
    var r1 := "." + (v.minor + r2);
    SplitNumberOf(v.major, r1);
    assert r1[1..] == v.minor + r2;
    SplitNumberOf(v.minor, r2);
    assert r2[1..] == v.patch + r3;
    SplitNumberOf(v.patch, r3);
    assert r3[2..] == v.cNumber + r4;
    SplitNumberOf(v.cNumber, r4);
    assert r4[1..] == v.rest;
  }

  // ---------------------------------------------------------------------------
  // PLAIN_PATTERN:
  //   (?<major>[0-9]+)(\.(?<minor>[0-9]+)(\.(?<patch>[0-9]+)(?<qualifier>\.[\p{Alnum}._-]+?)?)?)?(-SNAPSHOT)?
  // ---------------------------------------------------------------------------

  /** The groups of a plain version; `qualifier` keeps its leading period, and `snapshot`
      says whether the trailing `(-SNAPSHOT)?` matched. */
  datatype PlainVersion = PlainVersion(
    major: string,
    minor: Option<string>,
    patch: Option<string>,
    qualifier: Option<string>,
    snapshot: bool)

  function SnapshotText(snapshot: bool): string {
    if snapshot then SNAPSHOT else ""
  }

  function PlainText(v: PlainVersion): string {
    v.major + AfterMajor(v)
  }

  function AfterMajor(v: PlainVersion): string {
    if v.minor.Some? then "." + (v.minor.value + AfterMinor(v)) else SnapshotText(v.snapshot)
  }

  function AfterMinor(v: PlainVersion): string {
    if v.patch.Some? then "." + (v.patch.value + AfterPatch(v)) else SnapshotText(v.snapshot)
  }

  function AfterPatch(v: PlainVersion): string {
    if v.qualifier.Some? then v.qualifier.value + SnapshotText(v.snapshot) else SnapshotText(v.snapshot)
  }

  /** Groups the pattern can produce. The qualifier is reluctant, so it never takes a
      trailing `-SNAPSHOT` it could leave to the last group. */
  predicate WellFormedPlain(v: PlainVersion) {
    Number(v.major) &&
    (v.minor.Some? ==> Number(v.minor.value)) &&
    (v.patch.Some? ==> v.minor.Some? && Number(v.patch.value)) &&
    (v.qualifier.Some? ==>
       v.patch.Some? && |v.qualifier.value| >= 2 && v.qualifier.value[0] == '.' &&
       QualifierChars(v.qualifier.value[1..]) &&
       (!v.snapshot ==> !(|v.qualifier.value| >= 11 && EndsWith(v.qualifier.value, SNAPSHOT))))
  }

  /** `(-SNAPSHOT)?` followed by the end of the input. */
  function Ending(r: string): (e: Option<bool>)
    ensures e.Some? ==> r == SnapshotText(e.value)
    ensures (r == "" || r == SNAPSHOT) ==> e.Some?
  {
    if r == "" then Some(false) else if r == SNAPSHOT then Some(true) else None
  }

  /** `PLAIN_PATTERN.matcher(s).matches()` with its groups. A part followed by a period
      must match, since the period could not be consumed otherwise. */
  function MatchPlain(s: string): Option<PlainVersion> {
    var (major, r1) := SplitNumber(s);
    if major == [] then None
    else if r1 != [] && r1[0] == '.' then
      var (minor, r2) := SplitNumber(r1[1..]);
      if minor == [] then None
      else if r2 != [] && r2[0] == '.' then
        var (patch, r3) := SplitNumber(r2[1..]);
        if patch == [] then None
        else if r3 != [] && r3[0] == '.' then
          match MatchQualifier(r3)
          case None => None
          case Some((q, snapshot)) => Some(PlainVersion(major, Some(minor), Some(patch), Some(q), snapshot))
        else
          match Ending(r3)
          case None => None
          case Some(snapshot) => Some(PlainVersion(major, Some(minor), Some(patch), None, snapshot))
      else
        match Ending(r2)
        case None => None
        case Some(snapshot) => Some(PlainVersion(major, Some(minor), None, None, snapshot))
    else
      match Ending(r1)
      case None => None
      case Some(snapshot) => Some(PlainVersion(major, None, None, None, snapshot))
  }

  /** `(?<qualifier>\.[\p{Alnum}._-]+?)(-SNAPSHOT)?` to the end of `r`, which starts with
      the period: the reluctant qualifier stops before a trailing `-SNAPSHOT` when at
      least one character is left to it. */
  function MatchQualifier(r: string): (m: Option<(string, bool)>)
    requires r != [] && r[0] == '.'
  {
    var x := r[1..];
    if x == [] || !QualifierChars(x) then None
    else if |x| >= 10 && EndsWith(x, SNAPSHOT) then Some((r[..|r| - 9], true))
    else Some((r, false))
  }

  lemma MatchQualifierSound(r: string)
    requires r != [] && r[0] == '.' && MatchQualifier(r).Some?
    ensures var (q, snapshot) := MatchQualifier(r).value;
            q + SnapshotText(snapshot) == r && |q| >= 2 && q[0] == '.' && QualifierChars(q[1..]) &&
            (!snapshot ==> !(|q| >= 11 && EndsWith(q, SNAPSHOT)))
  {
    var x := r[1..];
    var (q, snapshot) := MatchQualifier(r).value;
    if snapshot {
      assert q[1..] == x[..|x| - 9];
      assert r[|r| - 9..] == x[|x| - 9..];
      assert q + SNAPSHOT == r;
    } else {
      assert q[1..] == x;
      assert |q| >= 11 ==> q[|q| - 9..] == x[|x| - 9..];
    }
  }

  lemma SnapshotIsQualifierText()
    ensures QualifierChars(SNAPSHOT)
  {
    assert SNAPSHOT == ['-', 'S', 'N', 'A', 'P', 'S', 'H', 'O', 'T'];
  }

  lemma QualifierCharsAppend(x: string, y: string)
    requires QualifierChars(x) && QualifierChars(y)
    ensures QualifierChars(x + y)
  {
    forall i | 0 <= i < |x + y| ensures IsQualifierChar((x + y)[i]) {
      if i < |x| { assert (x + y)[i] == x[i]; } else { assert (x + y)[i] == y[i - |x|]; }
    }
  }

  lemma MatchQualifierOf(q: string, snapshot: bool)
    requires |q| >= 2 && q[0] == '.' && QualifierChars(q[1..])
    requires !snapshot ==> !(|q| >= 11 && EndsWith(q, SNAPSHOT))
    ensures MatchQualifier(q + SnapshotText(snapshot)) == Some((q, snapshot))
  {
    var r := q + SnapshotText(snapshot);
    var x := r[1..];
    if snapshot {
      assert x == q[1..] + SNAPSHOT;
      assert x[|x| - 9..] == SNAPSHOT;
      SnapshotIsQualifierText();
      QualifierCharsAppend(q[1..], SNAPSHOT);
      assert r[..|r| - 9] == q;
    } else {
      assert r == q;
      assert x == q[1..];
      assert |x| >= 10 ==> x[|x| - 9..] == q[|q| - 9..];
    }
  }

  /** What is recognised is a group assignment the pattern can produce, and its text is
      the input. */
  lemma MatchPlainSound(s: string)
    ensures MatchPlain(s).Some? ==> WellFormedPlain(MatchPlain(s).value) && PlainText(MatchPlain(s).value) == s
  {
    if MatchPlain(s).Some? {
      var v := MatchPlain(s).value;
      var (major, r1) := SplitNumber(s);
      if r1 != [] && r1[0] == '.' {
        assert r1 == "." + r1[1..];
        var (minor, r2) := SplitNumber(r1[1..]);
        if r2 != [] && r2[0] == '.' {
          assert r2 == "." + r2[1..];
          var (patch, r3) := SplitNumber(r2[1..]);
          if r3 != [] && r3[0] == '.' {
            MatchQualifierSound(r3);
            assert AfterPatch(v) == r3;
          }
          assert AfterMinor(v) == r2;
        }
        assert AfterMajor(v) == r1;
      }
    }
  }

  /** Every group assignment the pattern can produce is recognised from its text. */
  lemma MatchPlainText(v: PlainVersion)
    requires WellFormedPlain(v)
    ensures MatchPlain(PlainText(v)) == Some(v)
  {
    var snap := SnapshotText(v.snapshot);
    assert snap == [] || snap[0] == '-';
    var r1 := AfterMajor(v);
    SplitNumberOf(v.major, r1);
    if v.minor.Some? {
      var r2 := AfterMinor(v);
      assert r1[1..] == v.minor.value + r2;
      SplitNumberOf(v.minor.value, r2);
      if v.patch.Some? {
        var r3 := AfterPatch(v);
        assert r2[1..] == v.patch.value + r3;
        SplitNumberOf(v.patch.value, r3);
        if v.qualifier.Some? {
          MatchQualifierOf(v.qualifier.value, v.snapshot);
        }
      }
    }
  }

  // ---------------------------------------------------------------------------
  // execute
  // ---------------------------------------------------------------------------

  function OrZero(part: Option<string>): string {
    if part.Some? then part.value else "0"
  }

  /** The qualifier is added or extended with the formatted timestamp when `stamped`. */
  function Stamp(base: string, hasQualifier: bool, stamped: bool, timestamp: string): string {
    if stamped then base + (if hasQualifier then "-" else ".") + timestamp else base
  }

  /** The OSGi version of `version`: the Basis form joins its two groups with `_` and
      always counts as qualified; the plain form fills a missing minor or patch with `0`
      and drops a `-SNAPSHOT` the last group took; anything else is a
      `MojoExecutionException`. A snapshot version (one ending in `-SNAPSHOT`) or the
      `timestampQualifier` switch adds the timestamp. */
  function Convert(version: string, timestampQualifier: bool, timestamp: string): (r: Result<string, Failure>)
    ensures r.Err? <==> MatchCxx(version).None? && MatchPlain(version).None?
    ensures r.Err? ==> r.error == ExecutionException(BadVersion)
  {
    var stamped := EndsWith(version, SNAPSHOT) || timestampQualifier;
    match MatchCxx(version)
    case Some(v) => Ok(Stamp(Group1(v) + "_" + v.rest, true, stamped, timestamp))
    case None =>
      match MatchPlain(version)
      case Some(v) =>
        var q := if v.qualifier.Some? then v.qualifier.value else "";
        Ok(Stamp(v.major + "." + OrZero(v.minor) + "." + OrZero(v.patch) + q, v.qualifier.Some?, stamped, timestamp))
      case None => Err(ExecutionException(BadVersion))
  }

  lemma EndsWithAppend(x: string, y: string, suffix: string)
    requires EndsWith(y, suffix)
    ensures EndsWith(x + y, suffix)
  {
    assert (x + y)[|x + y| - |suffix|..] == y[|y| - |suffix|..];
  }

  /** A Basis version becomes `x.y.z.cXX_Y<rest>` and always counts as qualified, so a
      timestamp is joined with `-`. */
  lemma CxxConversion(v: CxxVersion, timestampQualifier: bool, timestamp: string)
    requires WellFormedCxx(v)
    ensures Convert(CxxText(v), timestampQualifier, timestamp) ==
            Ok(Stamp(Group1(v) + "_" + v.rest, true, EndsWith(CxxText(v), SNAPSHOT) || timestampQualifier, timestamp))
  {
    MatchCxxText(v);
  }

  /** The `-SNAPSHOT` of a Basis version is part of group 2 and is kept. */
  lemma CxxSnapshotKept(v: CxxVersion, timestamp: string)
    requires WellFormedCxx(v) && EndsWith(v.rest, SNAPSHOT)
    ensures Convert(CxxText(v), false, timestamp) == Ok(Group1(v) + "_" + v.rest + "-" + timestamp)
  {
    CxxConversion(v, false, timestamp);
    EndsWithAppend(".", v.rest, SNAPSHOT);
    EndsWithAppend(v.cNumber, "." + v.rest, SNAPSHOT);
    EndsWithAppend(".c", v.cNumber + ("." + v.rest), SNAPSHOT);
    EndsWithAppend(v.patch, ".c" + (v.cNumber + ("." + v.rest)), SNAPSHOT);
    EndsWithAppend(".", v.patch + (".c" + (v.cNumber + ("." + v.rest))), SNAPSHOT);
    EndsWithAppend(v.minor, "." + (v.patch + (".c" + (v.cNumber + ("." + v.rest)))), SNAPSHOT);
    EndsWithAppend(".", v.minor + ("." + (v.patch + (".c" + (v.cNumber + ("." + v.rest))))), SNAPSHOT);
    EndsWithAppend(v.major, "." + (v.minor + ("." + (v.patch + (".c" + (v.cNumber + ("." + v.rest)))))), SNAPSHOT);
  }

  /** A plain version that is not also a Basis version becomes
      `major.minor.patch<qualifier>` with the missing parts `0`. */
  lemma PlainConversion(s: string, v: PlainVersion, timestampQualifier: bool, timestamp: string)
    requires WellFormedPlain(v) && PlainText(v) == s && MatchCxx(s).None?
    ensures var q := if v.qualifier.Some? then v.qualifier.value else "";
            Convert(s, timestampQualifier, timestamp) ==
            Ok(Stamp(v.major + "." + OrZero(v.minor) + "." + OrZero(v.patch) + q, v.qualifier.Some?,
                     EndsWith(s, SNAPSHOT) || timestampQualifier, timestamp))
  {
    MatchPlainText(v);
  }

  /** Without a qualifier a plain version has too few parts to be a Basis version. */
  lemma UnqualifiedIsNotCxx(v: PlainVersion)
    requires WellFormedPlain(v) && v.qualifier.None?
    ensures MatchCxx(PlainText(v)).None?
  {
    var snap := SnapshotText(v.snapshot);
    assert snap == [] || (|snap| >= 2 && snap[0] == '-');
    var r1 := AfterMajor(v);
    SplitNumberOf(v.major, r1);
    if v.minor.Some? {
      var r2 := AfterMinor(v);
      assert r1[1..] == v.minor.value + r2;
      SplitNumberOf(v.minor.value, r2);
      if v.patch.Some? {
        var r3 := AfterPatch(v);
        assert r2[1..] == v.patch.value + r3;
        SplitNumberOf(v.patch.value, r3);
      }
    }
  }

  /** A version ending in a digit does not end with `-SNAPSHOT`. */
  lemma EndsInDigit(x: string, d: string)
    requires Number(d)
    ensures !EndsWith(x + d, SNAPSHOT)
  {
    var s := x + d;
    if |s| >= 9 {
      assert s[|s| - 9..][8] == d[|d| - 1];
    }
  }

  /** `x.y.z-SNAPSHOT` becomes `x.y.z.<timestamp>`: the suffix goes, the stamp comes. */
  lemma SnapshotReplacedByTimestamp(major: string, minor: string, patch: string, timestamp: string)
    requires Number(major) && Number(minor) && Number(patch)
    ensures Convert(PlainText(PlainVersion(major, Some(minor), Some(patch), None, true)), false, timestamp) ==
            Ok(major + "." + minor + "." + patch + "." + timestamp)
  {
    var v := PlainVersion(major, Some(minor), Some(patch), None, true);
    UnqualifiedIsNotCxx(v);
    assert EndsWith(SNAPSHOT, SNAPSHOT);
    EndsWithAppend(patch, SNAPSHOT, SNAPSHOT);
    EndsWithAppend(".", patch + SNAPSHOT, SNAPSHOT);
    EndsWithAppend(minor, "." + (patch + SNAPSHOT), SNAPSHOT);
    EndsWithAppend(".", minor + ("." + (patch + SNAPSHOT)), SNAPSHOT);
    EndsWithAppend(major, "." + (minor + ("." + (patch + SNAPSHOT))), SNAPSHOT);
    PlainConversion(PlainText(v), v, false, timestamp);
    var base := major + "." + minor + "." + patch;
    assert Convert(PlainText(v), false, timestamp) == Ok(Stamp(base + "", false, true, timestamp));
    assert base + "" == base;
  }

  /** A missing minor and patch are filled with `0`: `x` becomes `x.0.0`. */
  lemma MajorOnlyPadded(major: string, timestamp: string)
    requires Number(major)
    ensures Convert(major, false, timestamp) == Ok(major + "." + "0" + "." + "0")
  {
    var v := PlainVersion(major, None, None, None, false);
    assert PlainText(v) == major;
    UnqualifiedIsNotCxx(v);
    EndsInDigit([], major);
    assert [] + major == major;
    PlainConversion(major, v, false, timestamp);
    var base := major + "." + "0" + "." + "0";
    assert Convert(major, false, timestamp) == Ok(Stamp(base + "", false, false, timestamp));
    assert base + "" == base;
  }

  /** A missing patch is filled with `0`: `x.y` becomes `x.y.0`. */
  lemma MajorMinorPadded(major: string, minor: string, timestamp: string)
    requires Number(major) && Number(minor)
    ensures Convert(PlainText(PlainVersion(major, Some(minor), None, None, false)), false, timestamp) ==
            Ok(major + "." + minor + "." + "0")
  {
    var v := PlainVersion(major, Some(minor), None, None, false);
    UnqualifiedIsNotCxx(v);
    assert minor + "" == minor;
    EndsInDigit(major + ".", minor);
    assert PlainText(v) == major + ("." + minor);
    assert major + ("." + minor) == major + "." + minor;
    PlainConversion(PlainText(v), v, false, timestamp);
    var base := major + "." + minor + "." + "0";
    assert Convert(PlainText(v), false, timestamp) == Ok(Stamp(base + "", false, false, timestamp));
    assert base + "" == base;
  }

  /** The project properties `execute` writes to. */
  class Project {
    var version: string
    var properties: map<string, string>

    constructor (version: string, properties: map<string, string>)
      ensures this.version == version && this.properties == properties
    {
      this.version := version;
      this.properties := properties;
    }

    /** `defineProperty`: the entry for `name` is set, every other entry is kept. */
    method DefineProperty(name: string, value: string)
      modifies this
      ensures properties == old(properties)[name := value]
      ensures version == old(version)
    {
      properties := properties[name := value];
    }
  }

  /** `execute`: the OSGi version goes into the property `propertyName`; a version of
      neither form leaves the properties as they were. `now` is the GMT clock reading,
      stamped as the goal formats it (`TimestampAsWritten`, the `hh` pattern). */
  method Execute(project: Project, timestampQualifier: bool, propertyName: string, now: Instant)
    returns (failure: Option<Failure>)
    modifies project
    ensures project.version == old(project.version)
    ensures match Convert(old(project.version), timestampQualifier, TimestampAsWritten(now))
            case Ok(value) => failure.None? && project.properties == old(project.properties)[propertyName := value]
            case Err(f) => failure == Some(f) && project.properties == old(project.properties)
  {
    var version := project.version;
    var snapshot := EndsWith(version, SNAPSHOT);
    var hasQualifier := false;
    var result: string;
    var cxx := MatchCxx(version);
    if cxx.Some? {
      result := Group1(cxx.value) + "_" + cxx.value.rest;
      hasQualifier := true;
    } else {
      var plain := MatchPlain(version);
      if plain.None? {
        return Some(ExecutionException(BadVersion));
      }
      var v := plain.value;
      hasQualifier := v.qualifier.Some?;
      result := v.major + "." + OrZero(v.minor) + "." + OrZero(v.patch) + (if hasQualifier then v.qualifier.value else "");
    }
    if snapshot || timestampQualifier {
      result := result + (if hasQualifier then "-" else ".") + TimestampAsWritten(now);
    }
    project.DefineProperty(propertyName, result);
    failure := None;
  }

  // ---------------------------------------------------------------------------
  // The timestamp qualifier
  // ---------------------------------------------------------------------------

  /** A moment as the GMT calendar gives it. */
  datatype Instant = Instant(year: nat, month: nat, day: nat, hour: nat, minute: nat, second: nat)

  predicate ValidInstant(t: Instant) {
    1 <= t.year <= 9999 && 1 <= t.month <= 12 && 1 <= t.day <= 31 &&
    t.hour <= 23 && t.minute <= 59 && t.second <= 59
  }

  /** Chronological order. */
  predicate Before(t: Instant, u: Instant) {
    t.year < u.year || (t.year == u.year &&
    (t.month < u.month || (t.month == u.month &&
    (t.day < u.day || (t.day == u.day &&
    (t.hour < u.hour || (t.hour == u.hour &&
    (t.minute < u.minute || (t.minute == u.minute && t.second < u.second)))))))))
  }

  /** `String.compareTo(a, b) < 0`, the order OSGi puts qualifiers in. */
  predicate StringLess(a: string, b: string) {
    if a == [] then b != []
    else if b == [] then false
    else a[0] < b[0] || (a[0] == b[0] && StringLess(a[1..], b[1..]))
  }

  function Pow10(w: nat): (p: nat)
    ensures p >= 1
  {
    if w == 0 then 1 else 10 * Pow10(w - 1)
  }

  /** `n` in decimal, zero-padded to `width` digits (`n < 10^width`). */
  function Padded(n: nat, width: nat): (r: string)
    ensures |r| == width
  {
    if width == 0 then [] else Padded(n / 10, width - 1) + [('0' as int + n % 10) as char]
  }

  /** The hour field `hh`: the hour of the half day, 1 to 12. */
  function ClockHour(hour: nat): (h: nat)
    ensures 1 <= h <= 12
  {
    if hour % 12 == 0 then 12 else hour % 12
  }

  /** The fields in order, each zero-padded to its width, after a literal `v`. */
  function Formatted(t: Instant): string {
    "v" + Padded(t.year, 4) + Padded(t.month, 2) + Padded(t.day, 2) + Padded(t.hour, 2) +
    Padded(t.minute, 2) + Padded(t.second, 2)
  }

  /** `'v'yyyyMMddhhmmss` as the goal formats it. */
  function TimestampAsWritten(t: Instant): string {
    Formatted(t.(hour := ClockHour(t.hour)))
  }

  /** `'v'yyyyMMddHHmmss`: the same with the hour of the day, 0 to 23. */
  function Timestamp(t: Instant): string {
    Formatted(t)
  }

  /** Comparing two strings that share the length of their first parts. */
  lemma {:induction false} StringLessConcat(p: string, q: string, p': string, q': string)
    requires |p| == |p'|
    ensures StringLess(p + q, p' + q') <==> StringLess(p, p') || (p == p' && StringLess(q, q'))
  {
    if p != [] {
      assert (p + q)[1..] == p[1..] + q;
      assert (p' + q')[1..] == p'[1..] + q';
      StringLessConcat(p[1..], q, p'[1..], q');
      if p[0] == p'[0] {
        assert p == p' <==> p[1..] == p'[1..] by {
          if p[1..] == p'[1..] {
            assert p == [p[0]] + p[1..] && p' == [p'[0]] + p'[1..];
          }
        }
      }
    } else {
      assert p + q == q && p' + q' == q';
    }
  }

  lemma {:induction false} PaddedOrder(x: nat, y: nat, width: nat)
    requires x < Pow10(width) && y < Pow10(width)
    ensures StringLess(Padded(x, width), Padded(y, width)) <==> x < y
    ensures Padded(x, width) == Padded(y, width) <==> x == y
  {
    if width > 0 {
      PaddedOrder(x / 10, y / 10, width - 1);
      var cx := ('0' as int + x % 10) as char;
      var cy := ('0' as int + y % 10) as char;
      var px := Padded(x / 10, width - 1);
      var py := Padded(y / 10, width - 1);
      StringLessConcat(px, [cx], py, [cy]);
      assert StringLess([cx], [cy]) <==> x % 10 < y % 10 by {
        assert [cx][1..] == [] && [cy][1..] == [];
      }
      assert Padded(x, width) == Padded(y, width) <==> px == py && cx == cy by {
        if Padded(x, width) == Padded(y, width) {
          assert Padded(x, width)[..width - 1] == px && Padded(y, width)[..width - 1] == py;
          assert Padded(x, width)[width - 1] == cx && Padded(y, width)[width - 1] == cy;
        }
      }
    }
  }

  /** One more field of a fixed-width stamp. */
  lemma FieldStep(p: string, p': string, x: nat, y: nat, width: nat)
    requires |p| == |p'| && x < Pow10(width) && y < Pow10(width)
    ensures StringLess(p + Padded(x, width), p' + Padded(y, width)) <==> StringLess(p, p') || (p == p' && x < y)
    ensures p + Padded(x, width) == p' + Padded(y, width) <==> p == p' && x == y
  {
    StringLessConcat(p, Padded(x, width), p', Padded(y, width));
    PaddedOrder(x, y, width);
    if p + Padded(x, width) == p' + Padded(y, width) {
      assert (p + Padded(x, width))[..|p|] == p && (p' + Padded(y, width))[..|p|] == p';
      assert (p + Padded(x, width))[|p|..] == Padded(x, width);
      assert (p' + Padded(y, width))[|p|..] == Padded(y, width);
    }
  }

  /** Fields that fit their widths. */
  predicate Fits(t: Instant) {
    t.year < 10000 && t.month < 100 && t.day < 100 && t.hour < 100 && t.minute < 100 && t.second < 100
  }

  /** Fixed-width fields compare as the moments they hold. */
  lemma FormattedOrder(t: Instant, u: Instant)
    requires Fits(t) && Fits(u)
    ensures StringLess(Formatted(t), Formatted(u)) <==> Before(t, u)
    ensures Formatted(t) == Formatted(u) <==> t == u
  {
    assert Pow10(2) == 100 && Pow10(4) == 10000;
    var y, y' := "v" + Padded(t.year, 4), "v" + Padded(u.year, 4);
    FieldStep("v", "v", t.year, u.year, 4);
    assert !StringLess("v", "v");
    var m, m' := y + Padded(t.month, 2), y' + Padded(u.month, 2);
    FieldStep(y, y', t.month, u.month, 2);
    var d, d' := m + Padded(t.day, 2), m' + Padded(u.day, 2);
    FieldStep(m, m', t.day, u.day, 2);
    var h, h' := d + Padded(t.hour, 2), d' + Padded(u.hour, 2);
    FieldStep(d, d', t.hour, u.hour, 2);
    var mi, mi' := h + Padded(t.minute, 2), h' + Padded(u.minute, 2);
    FieldStep(h, h', t.minute, u.minute, 2);
    FieldStep(mi, mi', t.second, u.second, 2);
  }

  /** With `HH` the qualifier orders builds as they happened, and tells apart any two
      moments a second or more apart. */
  lemma TimestampOrdered(t: Instant, u: Instant)
    requires ValidInstant(t) && ValidInstant(u)
    ensures StringLess(Timestamp(t), Timestamp(u)) <==> Before(t, u)
    ensures Timestamp(t) == Timestamp(u) <==> t == u
  {
    FormattedOrder(t, u);
  }

  /** With `hh` 13:00 sorts before 12:30 of the same day, and 01:00 and 13:00 of one day
      get the same qualifier. */
  lemma AsWrittenOutOfOrder()
    ensures var noonThirty := Instant(2026, 10, 14, 12, 30, 0);
            var one := Instant(2026, 10, 14, 13, 0, 0);
            ValidInstant(noonThirty) && ValidInstant(one) && Before(noonThirty, one) &&
            StringLess(TimestampAsWritten(one), TimestampAsWritten(noonThirty))
    ensures var night := Instant(2026, 10, 14, 1, 0, 0);
            var day := Instant(2026, 10, 14, 13, 0, 0);
            Before(night, day) && TimestampAsWritten(night) == TimestampAsWritten(day)
  {
    var noonThirty := Instant(2026, 10, 14, 12, 30, 0);
    var one := Instant(2026, 10, 14, 13, 0, 0);
    FormattedOrder(one.(hour := ClockHour(one.hour)), noonThirty.(hour := ClockHour(noonThirty.hour)));
    var night := Instant(2026, 10, 14, 1, 0, 0);
    assert night.(hour := ClockHour(night.hour)) == one.(hour := ClockHour(one.hour));
  }

  /** The goal's stamp and the corrected one agree exactly from 01:00 to 12:59; in any
      other hour the goal writes the hour of the half day in place of the hour of the day. */
  lemma AsWrittenAgreesInHalfDay(t: Instant)
    requires ValidInstant(t)
    ensures TimestampAsWritten(t) == Timestamp(t) <==> 1 <= t.hour <= 12
    ensures !(1 <= t.hour <= 12) ==> TimestampAsWritten(t) == Timestamp(t.(hour := ClockHour(t.hour)))
  {
    FormattedOrder(t.(hour := ClockHour(t.hour)), t);
  }
}
