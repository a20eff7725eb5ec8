/** The pieces of the Java platform that the plugin leans on, stated exactly:
    `String.split`, `Integer.parseInt` and `Integer.toString`, `Boolean.parseBoolean`,
    `equalsIgnoreCase`, 32-bit `hashCode` arithmetic over UTF-16, and the ascending key
    order of a `TreeMap`. */
module JavaLang {

  datatype Option<+T> = None | Some(value: T)

  datatype Result<+T, +E> = Ok(value: T) | Err(error: E)

  /** A Java string that may be null, read with null as the empty string. */
  function OrEmpty(s: Option<string>): (r: string)
    ensures s.Some? ==> r == s.value
    ensures s.None? ==> r == ""
  {
    if s.Some? then s.value else ""
  }

  // ---------------------------------------------------------------------------
  // 32-bit integers
  // ---------------------------------------------------------------------------

  const INT_MIN: int := -0x8000_0000
  const INT_MAX: int := 0x7FFF_FFFF

  predicate IsInt32(n: int) { INT_MIN <= n <= INT_MAX }

  /** Two's-complement wrap-around of Java `int` arithmetic. */
  function Wrap32(n: int): (r: int)
    ensures IsInt32(r)
    ensures (r - n) % 0x1_0000_0000 == 0
    ensures IsInt32(n) ==> r == n
  {
    (n + 0x8000_0000) % 0x1_0000_0000 - 0x8000_0000
  }

  lemma ModShift(a: int, t: int)
    ensures (a - 0x1_0000_0000 * t) % 0x1_0000_0000 == a % 0x1_0000_0000
  {
    var q := a / 0x1_0000_0000;
    var r := a % 0x1_0000_0000;
    assert a == 0x1_0000_0000 * q + r;
    assert a - 0x1_0000_0000 * t == 0x1_0000_0000 * (q - t) + r;
  }

  /** Adding a multiple of 2^32 does not change the wrapped value. */
  lemma WrapShift(a: int, t: int)
    ensures Wrap32(a - 0x1_0000_0000 * t) == Wrap32(a)
  {
    ModShift(a + 0x8000_0000, t);
    assert a - 0x1_0000_0000 * t + 0x8000_0000 == (a + 0x8000_0000) - 0x1_0000_0000 * t;
  }

  /** Wrapping an intermediate result of `m * x + c` does not change the final wrap, so a
      chain of Java `int` steps equals one reduction of the exact polynomial. */
  lemma WrapMulAdd(x: int, m: int, c: int)
    ensures Wrap32(m * Wrap32(x) + c) == Wrap32(m * x + c)
  {
    var q := (x + 0x8000_0000) / 0x1_0000_0000;
    assert Wrap32(x) == x - 0x1_0000_0000 * q;
    assert m * Wrap32(x) + c == (m * x + c) - 0x1_0000_0000 * (m * q);
    WrapShift(m * x + c, m * q);
  }

  // ---------------------------------------------------------------------------
  // String.split with a one-character separator
  // ---------------------------------------------------------------------------

  /** Every piece between separators, empty ones included: `s.split(sep, -1)`. */
  function SplitAll(s: string, sep: char): (r: seq<string>)
    ensures |r| >= 1
    ensures forall i :: 0 <= i < |r| ==> sep !in r[i]
    ensures |r| == 1 <==> sep !in s
  {
    if s == [] then [""]
    else
      var t := SplitAll(s[1..], sep);
      if s[0] == sep then [""] + t
      else [[s[0]] + t[0]] + t[1..]
  }

  /** The pieces glued back together with the separator between them. */
  function Join(parts: seq<string>, sep: char): string
    requires |parts| >= 1
  {
    if |parts| == 1 then parts[0] else parts[0] + [sep] + Join(parts[1..], sep)
  }

  /** Drops empty pieces from the end, as `split` does when no limit is given. */
  function StripTrailingEmpty(r: seq<string>): (t: seq<string>)
    ensures |t| <= |r| && t == r[..|t|]
    ensures |t| > 0 ==> t[|t| - 1] != ""
    ensures forall i :: |t| <= i < |r| ==> r[i] == ""
  {
    if |r| > 0 && r[|r| - 1] == "" then StripTrailingEmpty(r[..|r| - 1]) else r
  }

  /** `s.split(sep)`: no separator gives `[s]` (even for the empty string), otherwise
      all pieces with the trailing empty ones removed. */
  function Split(s: string, sep: char): (r: seq<string>)
    ensures forall i :: 0 <= i < |r| ==> sep !in r[i]
  {
    if sep !in s then [s] else StripTrailingEmpty(SplitAll(s, sep))
  }

  lemma {:induction false} SplitAllJoin(s: string, sep: char)
    ensures Join(SplitAll(s, sep), sep) == s
  {
    if s != [] {
      var t := SplitAll(s[1..], sep);
      SplitAllJoin(s[1..], sep);
      if s[0] == sep {
        assert ([""] + t)[1..] == t;
      } else {
        var r := [[s[0]] + t[0]] + t[1..];
        if |t| > 1 {
          assert r[1..] == t[1..];
          assert Join(t, sep) == t[0] + [sep] + Join(t[1..], sep);
        }
      }
    }
  }

  lemma {:induction false} SplitAllNoSeparator(x: string, sep: char)
    requires sep !in x
    ensures SplitAll(x, sep) == [x]
  {
    if x != [] {
      SplitAllNoSeparator(x[1..], sep);
      assert [x[0]] + x[1..] == x;
    }
  }

  lemma {:induction false} SplitAllAtSeparator(x: string, sep: char, y: string)
    requires sep !in x
    ensures SplitAll(x + [sep] + y, sep) == [x] + SplitAll(y, sep)
  {
    if x == [] {
      assert x + [sep] + y == [sep] + y;
      assert ([sep] + y)[1..] == y;
    } else {
      var s := x + [sep] + y;
      assert s[0] == x[0];
      assert s[1..] == x[1..] + [sep] + y;
      SplitAllAtSeparator(x[1..], sep, y);
      assert [x[0]] + x[1..] == x;
    }
  }

  /** Splitting undoes joining when no piece holds the separator. */
  lemma {:induction false} JoinSplitAll(parts: seq<string>, sep: char)
    requires |parts| >= 1
    requires forall i :: 0 <= i < |parts| ==> sep !in parts[i]
    ensures SplitAll(Join(parts, sep), sep) == parts
  {
    if |parts| == 1 {
      SplitAllNoSeparator(parts[0], sep);
    } else {
      JoinSplitAll(parts[1..], sep);
      SplitAllAtSeparator(parts[0], sep, Join(parts[1..], sep));
      assert [parts[0]] + parts[1..] == parts;
    }
  }

  lemma {:induction false} SeparatorInJoin(parts: seq<string>, sep: char)
    requires |parts| >= 2
    ensures sep in Join(parts, sep)
  {
    var j := Join(parts, sep);
    assert j == parts[0] + [sep] + Join(parts[1..], sep);
    assert j[|parts[0]|] == sep;
  }

  /** `split` without a limit undoes joining when no piece holds the separator, there are
      at least two pieces and the last one is not empty. */
  lemma JoinSplit(parts: seq<string>, sep: char)
    requires |parts| >= 2 && parts[|parts| - 1] != ""
    requires forall i :: 0 <= i < |parts| ==> sep !in parts[i]
    ensures Split(Join(parts, sep), sep) == parts
  {
    JoinSplitAll(parts, sep);
    SeparatorInJoin(parts, sep);
  }

  // ---------------------------------------------------------------------------
  // Prefixes, suffixes, case
  // ---------------------------------------------------------------------------

  predicate StartsWith(s: string, prefix: string) {
    |prefix| <= |s| && s[..|prefix|] == prefix
  }

  predicate EndsWith(s: string, suffix: string) {
    |suffix| <= |s| && s[|s| - |suffix|..] == suffix
  }

  /** `String.indexOf(c)`, with `|s|` standing for -1 (not found). */
  function IndexOf(s: string, c: char): (i: nat)
    ensures i <= |s|
    ensures i < |s| <==> c in s
    ensures i < |s| ==> s[i] == c
    ensures forall k :: 0 <= k < i ==> s[k] != c
  {
    if s == [] then 0 else if s[0] == c then 0 else 1 + IndexOf(s[1..], c)
  }

  /** In `x + y` where `y` starts with `c` and `x` holds no `c`, the first `c` is the one
      after `x`. */
  lemma IndexOfAfter(x: string, c: char, y: string)
    requires c !in x && |y| > 0 && y[0] == c
    ensures IndexOf(x + y, c) == |x|
  {
    var s := x + y;
    assert s[|x|] == c;
    assert forall k :: 0 <= k < |x| ==> s[k] == x[k];
  }

  lemma DropPrefix(p: string, r: string)
    ensures StartsWith(p + r, p)
    ensures (p + r)[|p|..] == r
    ensures (p + r)[..|p|] == p
  {
  }

  function ToUpperAscii(c: char): char {
    if 'a' <= c <= 'z' then (c as int - 32) as char else c
  }

  function ToLowerAscii(c: char): char {
    if 'A' <= c <= 'Z' then (c as int + 32) as char else c
  }

  function LowerAscii(s: string): (r: string)
    ensures |r| == |s|
    ensures forall i :: 0 <= i < |s| ==> r[i] == ToLowerAscii(s[i])
  {
    if s == [] then [] else [ToLowerAscii(s[0])] + LowerAscii(s[1..])
  }

  /** `String.equalsIgnoreCase`, for the ASCII letters. */
  predicate EqualsIgnoreCase(a: string, b: string) {
    |a| == |b| &&
    forall i :: 0 <= i < |a| ==>
      ToUpperAscii(a[i]) == ToUpperAscii(b[i]) ||
      ToLowerAscii(ToUpperAscii(a[i])) == ToLowerAscii(ToUpperAscii(b[i]))
  }

  /** `Boolean.parseBoolean`: true exactly for a non-null "true" in any letter case. */
  predicate ParseBoolean(s: Option<string>) {
    s.Some? && EqualsIgnoreCase(s.value, "true")
  }

  function BooleanToString(b: bool): string {
    if b then "true" else "false"
  }

  // ---------------------------------------------------------------------------
  // Decimal integers
  // ---------------------------------------------------------------------------

  predicate IsDigit(c: char) { '0' <= c <= '9' }

  predicate AllDigits(s: string) { forall i :: 0 <= i < |s| ==> IsDigit(s[i]) }

  function DigitValue(c: char): nat
    requires IsDigit(c)
  {
    c as int - '0' as int
  }

  /** The value of a string of decimal digits. */
  function DigitsValue(s: string): nat
    requires AllDigits(s)
  {
    if s == [] then 0 else DigitsValue(s[..|s| - 1]) * 10 + DigitValue(s[|s| - 1])
  }

  /** The shortest decimal digits of `n`. */
  function NatToDigits(n: nat): (r: string)
    ensures |r| >= 1 && AllDigits(r)
    ensures DigitsValue(r) == n
  {
    if n < 10 then ['0' + n as char]
    else
      var d := NatToDigits(n / 10);
      var r := d + ['0' + (n % 10) as char];
      assert r[..|r| - 1] == d;
      r
  }

  /** `Integer.toString`. */
  function IntToString(n: int): string {
    if n < 0 then "-" + NatToDigits(-n) else NatToDigits(n)
  }

  /** `Integer.parseInt`: an optional sign followed by at least one digit, whose value must
      fit a Java `int`; `None` stands for the `NumberFormatException` (a null argument is
      the caller's `None`). */
  function ParseInt(s: Option<string>): (r: Option<int>)
    ensures r.Some? ==> IsInt32(r.value)
  {
    if s.None? || |s.value| == 0 then None
    else
      var t := s.value;
      var signed := t[0] == '-' || t[0] == '+';
      var digits := if signed then t[1..] else t;
      if |digits| == 0 || !AllDigits(digits) then None
      else
        var v: int := if t[0] == '-' then -(DigitsValue(digits) as int) else DigitsValue(digits);
        if IsInt32(v) then Some(v) else None
  }

  /** `Integer.parseInt(Integer.toString(n)) == n`. */
  lemma ParseIntToString(n: int)
    requires IsInt32(n)
    ensures ParseInt(Some(IntToString(n))) == Some(n)
  {
    if n < 0 {
      var t := IntToString(n);
      assert t[1..] == NatToDigits(-n);
    }
  }

  // ---------------------------------------------------------------------------
  // Hashing
  // ---------------------------------------------------------------------------

  /** The UTF-16 code units Java stores for a string. */
  function Utf16(s: string): (u: seq<int>)
    ensures |u| >= |s|
    ensures forall i :: 0 <= i < |u| ==> 0 <= u[i] < 0x1_0000
  {
    if s == [] then []
    else
      var c := s[0] as int;
      var units :=
        if c < 0x1_0000 then [c]
        else [0xD800 + (c - 0x1_0000) / 0x400, 0xDC00 + (c - 0x1_0000) % 0x400];
      units + Utf16(s[1..])
  }

  /** `h = 31 * h + unit` over the units, in `int` arithmetic. */
  function HashUnits(u: seq<int>): (h: int)
    ensures IsInt32(h)
  {
    if u == [] then 0 else Wrap32(31 * HashUnits(u[..|u| - 1]) + u[|u| - 1])
  }

  /** `String.hashCode`. */
  function StringHashCode(s: string): (h: int)
    ensures IsInt32(h)
    ensures s == [] ==> h == 0
  {
    HashUnits(Utf16(s))
  }

  // ---------------------------------------------------------------------------
  // TreeMap key order
  // ---------------------------------------------------------------------------

  lemma NonEmptyHasElement(s: set<int>)
    requires s != {}
    ensures exists x :: x in s
  {
    assert (forall x :: x !in s) ==> s == {};
  }

  lemma {:induction false} HasMinimum(s: set<int>)
    requires s != {}
    ensures exists m :: m in s && forall k :: k in s ==> m <= k
    decreases |s|
  {
    NonEmptyHasElement(s);
    var x :| x in s;
    var rest := s - {x};
    if rest == {} {
      forall k | k in s ensures x <= k { assert k == x || k in rest; }
    } else {
      HasMinimum(rest);
      var m :| m in rest && forall k :: k in rest ==> m <= k;
      var low := if x < m then x else m;
      forall k | k in s ensures low <= k { if k != x { assert k in rest; } }
    }
  }

  function Minimum(s: set<int>): (m: int)
    requires s != {}
    ensures m in s && forall k :: k in s ==> m <= k
  {
    HasMinimum(s);
    var m :| m in s && forall k :: k in s ==> m <= k;
    m
  }

  predicate StrictlyAscending(s: seq<int>) {
    forall i, j :: 0 <= i < j < |s| ==> s[i] < s[j]
  }

  /** The keys of a `TreeMap<Integer, _>` in the order its `keySet` iterates them. */
  function SortedKeys(s: set<int>): (r: seq<int>)
    ensures StrictlyAscending(r)
    ensures forall k :: k in r <==> k in s
    ensures |r| == |s|
    decreases |s|
  {
    if s == {} then []
    else
      var m := Minimum(s);
      var rest := SortedKeys(s - {m});
      [m] + rest
  }
}
