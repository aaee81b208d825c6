/** JavaScript strings as the server sees them: sequences of UTF-16 code units.
    `split('')`, `charCodeAt`, `trim`, `indexOf` and `join` all work on code units,
    so a character outside the Basic Multilingual Plane is two units here. */
module Utf16 {

  datatype Option<+T> = None | Some(value: T)

  /** One UTF-16 code unit. */
  type CodeUnit = c: int | 0 <= c < 0x1_0000

  /** A JavaScript string value. */
  type JsString = seq<CodeUnit>

  /** The code units of an ASCII literal, so that literals can be written as Dafny strings. */
  function Ascii(s: string): JsString
    requires forall i | 0 <= i < |s| :: s[i] as int < 0x80
  {
    seq(|s|, i requires 0 <= i < |s| => s[i] as int)
  }

  const LF: CodeUnit := 0x0A
  const AMP: CodeUnit := 0x26     // &
  const HASH: CodeUnit := 0x23    // #
  const SEMI: CodeUnit := 0x3B    // ;
  const DOLLAR: CodeUnit := 0x24  // $

  // ---------------------------------------------------------------------------
  // String.prototype.trim
  // ---------------------------------------------------------------------------

  /** The code units `trim` strips: ECMAScript's WhiteSpace (TAB, VT, FF, SP, NBSP,
      ZWNBSP and the Unicode space separators) and LineTerminator (LF, CR, LS, PS). */
  predicate IsWhitespace(c: CodeUnit) {
    c == 0x09 || c == 0x0A || c == 0x0B || c == 0x0C || c == 0x0D || c == 0x20 ||
    c == 0xA0 || c == 0x1680 || (0x2000 <= c <= 0x200A) || c == 0x2028 || c == 0x2029 ||
    c == 0x202F || c == 0x205F || c == 0x3000 || c == 0xFEFF
  }

  /** A string `trim` reduces to the empty string. */
  predicate IsBlank(s: JsString) {
    forall i | 0 <= i < |s| :: IsWhitespace(s[i])
  }

  /** Strips leading whitespace: the result is a suffix of `s` that does not start
      with whitespace, and all that was dropped is whitespace. */
  function TrimStart(s: JsString): (r: JsString)
    ensures |r| <= |s| && r == s[|s| - |r|..]
    ensures r != [] ==> !IsWhitespace(r[0])
    ensures forall i | 0 <= i < |s| - |r| :: IsWhitespace(s[i])
  {
    if s != [] && IsWhitespace(s[0]) then TrimStart(s[1..]) else s
  }

  /** Strips trailing whitespace: the result is a prefix of `s` that does not end
      with whitespace, and all that was dropped is whitespace. */
  function TrimEnd(s: JsString): (r: JsString)
    ensures |r| <= |s| && r == s[..|r|]
    ensures r != [] ==> !IsWhitespace(r[|r| - 1])
    ensures forall i | |r| <= i < |s| :: IsWhitespace(s[i])
  {
    if s != [] && IsWhitespace(s[|s| - 1]) then TrimEnd(s[..|s| - 1]) else s
  }

  /** `s.trim()`. `!s.trim()` holds exactly when `s` is blank. */
  function Trim(s: JsString): (r: JsString)
    ensures exists i, j | 0 <= i <= j <= |s| :: r == s[i..j]
    ensures r != [] ==> !IsWhitespace(r[0]) && !IsWhitespace(r[|r| - 1])
    ensures r == [] <==> IsBlank(s)
  {
    var head := TrimStart(s);
    var r := TrimEnd(head);
    assert r == s[|s| - |head|..|s| - |head| + |r|];
    r
  }

  // ---------------------------------------------------------------------------
  // String.prototype.indexOf
  // ---------------------------------------------------------------------------

  /** `pat` occurs in `s` starting at index `i`. */
  predicate OccursAt(s: JsString, pat: JsString, i: int) {
    0 <= i && i + |pat| <= |s| && s[i..i + |pat|] == pat
  }

  /** `s.indexOf(pat, from)`: the first occurrence of `pat` at or after `from`. */
  function IndexOfFrom(s: JsString, pat: JsString, from: nat): (r: Option<nat>)
    ensures r.Some? ==> from <= r.value && OccursAt(s, pat, r.value)
    ensures r.Some? ==> forall j | from <= j < r.value :: !OccursAt(s, pat, j)
    ensures r.None? ==> forall j | from <= j :: !OccursAt(s, pat, j)
    decreases |s| - from
  {
    if from + |pat| > |s| then None
    else if s[from..from + |pat|] == pat then Some(from)
    else IndexOfFrom(s, pat, from + 1)
  }

  /** `s.indexOf(pat)`. */
  function IndexOf(s: JsString, pat: JsString): (r: Option<nat>)
    ensures r.Some? ==> OccursAt(s, pat, r.value) && forall j | 0 <= j < r.value :: !OccursAt(s, pat, j)
    ensures r.None? ==> forall j :: !OccursAt(s, pat, j)
  {
    IndexOfFrom(s, pat, 0)
  }

  // ---------------------------------------------------------------------------
  // Array.prototype.join and its inverse
  // ---------------------------------------------------------------------------

  /** `parts.join(sep)` for a single-unit separator. */
  function Join(parts: seq<JsString>, sep: CodeUnit): (r: JsString)
    ensures parts == [] ==> r == []
    ensures |parts| == 1 ==> r == parts[0]
  {
    if parts == [] then []
    else if |parts| == 1 then parts[0]
    else parts[0] + [sep] + Join(parts[1..], sep)
  }

  /** `s.split('').map(f).join('')`: each code unit replaced by the string `f` gives
      for it, in order. */
  function MapJoin(f: CodeUnit -> JsString, s: JsString): JsString
    decreases |s|
  {
    if s == [] then [] else f(s[0]) + MapJoin(f, s[1..])
  }

  /** Mapping a concatenation maps each part. */
  lemma {:induction false} MapJoinConcat(f: CodeUnit -> JsString, a: JsString, b: JsString)
    ensures MapJoin(f, a + b) == MapJoin(f, a) + MapJoin(f, b)
    decreases |a|
  {
    if a == [] {
      assert a + b == b;
    } else {
      MapJoinConcat(f, a[1..], b);
      assert (a + b)[1..] == a[1..] + b;
    }
  }

  /** The piece for `s[i]` sits between the pieces for `s[..i]` and for `s[i + 1..]`. */
  lemma {:induction false} MapJoinAt(f: CodeUnit -> JsString, s: JsString, i: nat)
    requires i < |s|
    ensures MapJoin(f, s) == MapJoin(f, s[..i]) + f(s[i]) + MapJoin(f, s[i + 1..])
  {
    assert s == s[..i] + [s[i]] + s[i + 1..];
    MapJoinAround(f, s[..i], s[i], s[i + 1..]);
  }

  lemma {:induction false} MapJoinAround(f: CodeUnit -> JsString, before: JsString, c: CodeUnit, after: JsString)
    ensures MapJoin(f, before + [c] + after) == MapJoin(f, before) + f(c) + MapJoin(f, after)
  {
    assert before + [c] + after == before + ([c] + after);
    MapJoinConcat(f, before, [c] + after);
    assert ([c] + after)[1..] == after;
  }

  /** `s.split(sep)` for a single-unit separator: the pieces between separators. */
  function Split(s: JsString, sep: CodeUnit): (r: seq<JsString>)
    ensures |r| >= 1
    ensures sep !in s ==> r == [s]
    decreases |s|
  {
    match IndexOf(s, [sep])
    case None => [s]
    case Some(i) =>
      assert s[i..i + 1][0] == s[i] == sep;
      [s[..i]] + Split(s[i + 1..], sep)
  }

  lemma {:induction false} SplitPrefix(a: JsString, b: JsString, sep: CodeUnit)
    requires sep !in a
    ensures Split(a + [sep] + b, sep) == [a] + Split(b, sep)
  {
    var s := a + [sep] + b;
    assert OccursAt(s, [sep], |a|);
    var found := IndexOf(s, [sep]);
    assert forall j | 0 <= j < |a| :: !OccursAt(s, [sep], j) by {
      forall j | 0 <= j < |a| ensures !OccursAt(s, [sep], j) {
        assert s[j..j + 1][0] == a[j];
      }
    }
    assert found == Some(|a|);
    assert s[..|a|] == a;
    assert s[|a| + 1..] == b;
  }

  /** Splitting a join recovers the parts, provided no part contains the separator
      and there is at least one part (`[].join(sep)` and `[""].join(sep)` coincide). */
  lemma {:induction false} SplitJoin(parts: seq<JsString>, sep: CodeUnit)
    requires parts != []
    requires forall k | 0 <= k < |parts| :: sep !in parts[k]
    ensures Split(Join(parts, sep), sep) == parts
    decreases |parts|
  {
    if |parts| > 1 {
      SplitJoin(parts[1..], sep);
      SplitPrefix(parts[0], Join(parts[1..], sep), sep);
    }
  }
}
