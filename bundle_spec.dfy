/** `BundleSpec`: what the collector records about one bundle — its identity string, its
    start level, whether it is started, and the name its jar is copied under. All four
    fields are final, so a changed spec is always a new value. */
module BundleSpecs {
  import opened JavaLang

  datatype BundleSpec = BundleSpec(gav: string, level: int, start: bool, filename: string)

  /** The argument of `equals(Object)`: null, a `BundleSpec`, or an object of another class. */
  datatype JavaObject = NullObject | SpecObject(spec: BundleSpec) | OtherObject

  /** `equals`: the same object, or another `BundleSpec` with equal level, start flag, gav
      and filename; never null or an object of another class. */
  function Equals(self: BundleSpec, o: JavaObject): (r: bool)
    ensures r <==> o.SpecObject? && o.spec == self
    ensures o.NullObject? || o.OtherObject? ==> !r
  {
    match o
    case NullObject => false
    case OtherObject => false
    case SpecObject(that) =>
      self.level == that.level && self.start == that.start &&
      self.gav == that.gav && self.filename == that.filename
  }

  lemma EqualsIsEquivalence(a: BundleSpec, b: BundleSpec, c: BundleSpec)
    ensures Equals(a, SpecObject(a))
    ensures Equals(a, SpecObject(b)) == Equals(b, SpecObject(a))
    ensures Equals(a, SpecObject(b)) && Equals(b, SpecObject(c)) ==> Equals(a, SpecObject(c))
  {
  }

  /** `Boolean.hashCode`. */
  function BooleanHashCode(b: bool): int {
    if b then 1231 else 1237
  }

  /** `hashCode` is `Objects.hash(gav, level, start, filename)`: the base-31 polynomial
      over the four field hashes starting from 1, reduced once to a 32-bit `int`. It reads
      the very fields `equals` compares, so equal specs hash alike. */
  function HashCode(b: BundleSpec): (h: int)
    ensures IsInt32(h)
    ensures h == Wrap32(923521 + 29791 * StringHashCode(b.gav) + 961 * b.level +
                        31 * BooleanHashCode(b.start) + StringHashCode(b.filename))
  {
    var x1 := 31 * 1 + StringHashCode(b.gav);
    var x2 := 31 * x1 + b.level;
    var x3 := 31 * x2 + BooleanHashCode(b.start);
    var h1 := Wrap32(x1);
    var h2 := Wrap32(31 * h1 + b.level);
    var h3 := Wrap32(31 * h2 + BooleanHashCode(b.start));
    var h4 := Wrap32(31 * h3 + StringHashCode(b.filename));
    WrapMulAdd(x1, 31, b.level);
    assert h2 == Wrap32(x2);
    WrapMulAdd(x2, 31, BooleanHashCode(b.start));
    assert h3 == Wrap32(x3);
    WrapMulAdd(x3, 31, StringHashCode(b.filename));
    assert 31 * x3 + StringHashCode(b.filename) == 923521 + 29791 * StringHashCode(b.gav) + 961 * b.level +
                                                   31 * BooleanHashCode(b.start) + StringHashCode(b.filename);
    h4
  }

  lemma EqualSpecsHashAlike(a: BundleSpec, b: BundleSpec)
    requires Equals(a, SpecObject(b))
    ensures HashCode(a) == HashCode(b)
  {
  }

  // ---------------------------------------------------------------------------
  // toString
  // ---------------------------------------------------------------------------

  const HEAD: string := "BundleSpec{gav='"
  const LEVEL_TAG: string := "', level="
  const START_TAG: string := ", start="
  const FILE_TAG: string := ", filename="

  /** `toString`: `BundleSpec{gav='G', level=L, start=S, filename=F}`. */
  function ToString(b: BundleSpec): string {
    HEAD + b.gav + LEVEL_TAG + IntToString(b.level) + START_TAG + BooleanToString(b.start) +
    FILE_TAG + b.filename + "}"
  }

  /** Reads a `toString` image back: the gav runs to the first quote, the level to the
      next comma, and the filename to the closing brace at the very end. */
  function FromString(s: string): Option<BundleSpec> {
    if StartsWith(s, HEAD) then AfterHead(s[|HEAD|..]) else None
  }

  function AfterHead(r: string): Option<BundleSpec> {
    var i := IndexOf(r, '\'');
    if StartsWith(r[i..], LEVEL_TAG) then AfterGav(r[..i], r[i + |LEVEL_TAG|..]) else None
  }

  function AfterGav(gav: string, r: string): Option<BundleSpec> {
    var j := IndexOf(r, ',');
    var level := ParseInt(Some(r[..j]));
    if level.Some? && StartsWith(r[j..], START_TAG) then AfterLevel(gav, level.value, r[j + |START_TAG|..])
    else None
  }

  function AfterLevel(gav: string, level: int, r: string): Option<BundleSpec> {
    if StartsWith(r, "true") then AfterStart(gav, level, true, r[4..])
    else if StartsWith(r, "false") then AfterStart(gav, level, false, r[5..])
    else None
  }

  function AfterStart(gav: string, level: int, start: bool, r: string): Option<BundleSpec> {
    if StartsWith(r, FILE_TAG) && |r| > |FILE_TAG| && r[|r| - 1] == '}'
    then Some(BundleSpec(gav, level, start, r[|FILE_TAG|..|r| - 1]))
    else None
  }

  lemma IntToStringHasNoComma(n: int)
    ensures ',' !in IntToString(n)
  {
    var d := NatToDigits(if n < 0 then -n else n);
    var t := IntToString(n);
    assert t == (if n < 0 then "-" + d else d);
    assert forall k :: 0 <= k < |t| ==> t[k] == '-' || IsDigit(t[k]) by {
      if n < 0 {
        assert forall k :: 1 <= k < |t| ==> t[k] == d[k - 1];
      }
    }
  }

  function FileText(b: BundleSpec): string { FILE_TAG + b.filename + "}" }
  function StartText(b: BundleSpec): string { BooleanToString(b.start) + FileText(b) }
  function LevelText(b: BundleSpec): string { IntToString(b.level) + (START_TAG + StartText(b)) }
  function GavText(b: BundleSpec): string { b.gav + (LEVEL_TAG + LevelText(b)) }

  lemma AfterStartOf(b: BundleSpec)
    ensures AfterStart(b.gav, b.level, b.start, FileText(b)) == Some(b)
  {
    var r := FileText(b);
    DropPrefix(FILE_TAG, b.filename + "}");
    assert r[|FILE_TAG|..|r| - 1] == b.filename;
  }

  lemma AfterLevelOf(b: BundleSpec)
    ensures AfterLevel(b.gav, b.level, StartText(b)) == Some(b)
  {
    var r := StartText(b);
    DropPrefix(BooleanToString(b.start), FileText(b));
    if !b.start {
      assert r[..4][0] == 'f';
    }
    AfterStartOf(b);
  }

  lemma AfterGavOf(b: BundleSpec)
    requires IsInt32(b.level)
    ensures AfterGav(b.gav, LevelText(b)) == Some(b)
  {
    var lv := IntToString(b.level);
    var t3 := START_TAG + StartText(b);
    IntToStringHasNoComma(b.level);
    IndexOfAfter(lv, ',', t3);
    DropPrefix(lv, t3);
    ParseIntToString(b.level);
    DropPrefix(START_TAG, StartText(b));
    assert LevelText(b)[|lv| + |START_TAG|..] == StartText(b);
    AfterLevelOf(b);
  }

  lemma AfterHeadOf(b: BundleSpec)
    requires '\'' !in b.gav
    requires IsInt32(b.level)
    ensures AfterHead(GavText(b)) == Some(b)
  {
    var t1 := LEVEL_TAG + LevelText(b);
    IndexOfAfter(b.gav, '\'', t1);
    DropPrefix(b.gav, t1);
    DropPrefix(LEVEL_TAG, LevelText(b));
    assert GavText(b)[|b.gav| + |LEVEL_TAG|..] == LevelText(b);
    AfterGavOf(b);
  }

  /** The text `toString` produces determines the spec, as long as the gav holds no
      quote (the collector's gav strings are `group:artifact:classifier:version`). */
  lemma FromStringToString(b: BundleSpec)
    requires '\'' !in b.gav
    requires IsInt32(b.level)
    ensures FromString(ToString(b)) == Some(b)
  {
    assert ToString(b) == HEAD + GavText(b);
    DropPrefix(HEAD, GavText(b));
    AfterHeadOf(b);
  }

  /** Hence distinct specs with quote-free gavs and `int` levels print differently. */
  lemma ToStringInjective(a: BundleSpec, b: BundleSpec)
    requires '\'' !in a.gav && '\'' !in b.gav
    requires IsInt32(a.level) && IsInt32(b.level)
    requires ToString(a) == ToString(b)
    ensures a == b
  {
    FromStringToString(a);
    FromStringToString(b);
  }
}
