/** The two forms of `String.prototype.replace` the server uses: a global regular
    expression that matches one code unit (`s.replace(/&/g, "&amp;")`), and a string
    pattern, which replaces only its first occurrence (`t.replace('{{path}}', …)`). */
module Replace {
  import opened Utf16

  // ---------------------------------------------------------------------------
  // s.replace(/c/g, rep)
  // ---------------------------------------------------------------------------

  /** Every occurrence of the code unit `c` replaced by `rep`, everything else kept
      in order. (The replacement texts the server passes hold no `$`.) */
  function ReplaceAll(s: JsString, c: CodeUnit, rep: JsString): JsString
    decreases |s|
  {
    if s == [] then []
    else (if s[0] == c then rep else [s[0]]) + ReplaceAll(s[1..], c, rep)
  }

  /** A string without `c` is returned unchanged. */
  lemma {:induction false} ReplaceAllWithoutMatch(s: JsString, c: CodeUnit, rep: JsString)
    requires c !in s
    ensures ReplaceAll(s, c, rep) == s
    decreases |s|
  {
    if s != [] {
      ReplaceAllWithoutMatch(s[1..], c, rep);
      assert s == [s[0]] + s[1..];
    }
  }

  /** A code unit ends up in the result only if it was in `s` and is not `c`, or it
      comes from `rep`: so `c` itself is gone unless `rep` brings it back. */
  lemma {:induction false} ReplaceAllUnits(s: JsString, c: CodeUnit, rep: JsString, d: CodeUnit)
    requires d in ReplaceAll(s, c, rep)
    ensures (d in s && d != c) || d in rep
    decreases |s|
  {
    if s != [] {
      var head := if s[0] == c then rep else [s[0]];
      if d !in head {
        ReplaceAllUnits(s[1..], c, rep, d);
      }
    }
  }

  /** A global replacement acts on each part of a concatenation separately. */
  lemma {:induction false} ReplaceAllConcat(a: JsString, b: JsString, c: CodeUnit, rep: JsString)
    ensures ReplaceAll(a + b, c, rep) == ReplaceAll(a, c, rep) + ReplaceAll(b, c, rep)
    decreases |a|
  {
    if a == [] {
      assert a + b == b;
    } else {
      ReplaceAllConcat(a[1..], b, c, rep);
      assert (a + b)[1..] == a[1..] + b;
    }
  }

  // ---------------------------------------------------------------------------
  // GetSubstitution (ECMAScript 2024, section 22.1.3.19.1) with no capture groups
  // ---------------------------------------------------------------------------

  const AMPERSAND: CodeUnit := 0x26  // $& inserts the match
  const BACKTICK: CodeUnit := 0x60   // $` inserts what precedes the match
  const QUOTE: CodeUnit := 0x27      // $' inserts what follows the match

  /** The replacement text actually inserted for a match of length `len` at `pos` in
      `str`: `$$` becomes `$`, `$&` the match, `` $` `` the text before it, `$'` the
      text after it; with no capture groups every other `$` is literal. */
  function Expand(template: JsString, str: JsString, pos: nat, len: nat): JsString
    requires pos + len <= |str|
    decreases |template|
  {
    if template == [] then []
    else if template[0] == DOLLAR && |template| >= 2 && template[1] == DOLLAR then
      [DOLLAR] + Expand(template[2..], str, pos, len)
    else if template[0] == DOLLAR && |template| >= 2 && template[1] == AMPERSAND then
      str[pos..pos + len] + Expand(template[2..], str, pos, len)
    else if template[0] == DOLLAR && |template| >= 2 && template[1] == BACKTICK then
      str[..pos] + Expand(template[2..], str, pos, len)
    else if template[0] == DOLLAR && |template| >= 2 && template[1] == QUOTE then
      str[pos + len..] + Expand(template[2..], str, pos, len)
    else
      [template[0]] + Expand(template[1..], str, pos, len)
  }

  /** A replacement text without `$` is inserted literally. */
  lemma {:induction false} ExpandLiteral(template: JsString, str: JsString, pos: nat, len: nat)
    requires pos + len <= |str|
    requires DOLLAR !in template
    ensures Expand(template, str, pos, len) == template
    decreases |template|
  {
    if template != [] {
      ExpandLiteral(template[1..], str, pos, len);
      assert template == [template[0]] + template[1..];
    }
  }

  /** `s.replace(pat, replacement)` with a string pattern: only the FIRST occurrence
      of `pat` is replaced; a string without `pat` is returned unchanged. */
  function ReplaceFirst(s: JsString, pat: JsString, replacement: JsString): JsString {
    match IndexOf(s, pat)
    case None => s
    case Some(i) => s[..i] + Expand(replacement, s, i, |pat|) + s[i + |pat|..]
  }

  /** With a `$`-free replacement: the text before the first occurrence is kept, the
      occurrence becomes the replacement, and everything after it, including every
      later occurrence of `pat`, is kept as it was. Without an occurrence nothing
      changes. */
  lemma {:induction false} ReplaceFirstLiteral(s: JsString, pat: JsString, replacement: JsString)
    requires DOLLAR !in replacement
    ensures IndexOf(s, pat).None? ==> ReplaceFirst(s, pat, replacement) == s
    ensures IndexOf(s, pat).Some? ==>
      var i := IndexOf(s, pat).value;
      ReplaceFirst(s, pat, replacement) == s[..i] + replacement + s[i + |pat|..]
  {
    if IndexOf(s, pat).Some? {
      ExpandLiteral(replacement, s, IndexOf(s, pat).value, |pat|);
    }
  }

  /** A later occurrence of `pat` survives the replacement of the first one, shifted
      by the difference in length. */
  lemma {:induction false} LaterOccurrenceSurvives(s: JsString, pat: JsString, replacement: JsString, k: nat)
    requires DOLLAR !in replacement
    requires IndexOf(s, pat).Some?
    requires OccursAt(s, pat, k) && k >= IndexOf(s, pat).value + |pat|
    ensures OccursAt(ReplaceFirst(s, pat, replacement), pat, k - |pat| + |replacement|)
  {
    var i := IndexOf(s, pat).value;
    var r := ReplaceFirst(s, pat, replacement);
    var shift := k - |pat| + |replacement|;
    ReplaceFirstLiteral(s, pat, replacement);
    assert r == s[..i] + replacement + s[i + |pat|..];
    assert r[shift..shift + |pat|] == s[k..k + |pat|];
  }
}
