/** `encodeHtmlEntities` (httpd.js): five global replacements, `&` first, so that
    the `&` of an inserted reference is never encoded again. */
module HtmlEntities {
  import opened Utf16
  import opened Replace

  const LT: CodeUnit := 0x3C    // <
  const GT: CodeUnit := 0x3E    // >
  const QUOT: CodeUnit := 0x22  // "
  const APOS: CodeUnit := 0x27  // '

  const AmpRef: JsString := [AMP, 0x61, 0x6D, 0x70, SEMI]     // &amp;
  const LtRef: JsString := [AMP, 0x6C, 0x74, SEMI]              // &lt;
  const GtRef: JsString := [AMP, 0x67, 0x74, SEMI]              // &gt;
  const QuotRef: JsString := [AMP, 0x71, 0x75, 0x6F, 0x74, SEMI]  // &quot;
  const AposRef: JsString := [AMP, HASH, 0x78, 0x32, 0x37, SEMI]  // &#x27;

  /** The source's chain of replacements, in its order. */
  function EncodeHtmlEntities(unsafe: JsString): JsString {
    var amp := ReplaceAll(unsafe, AMP, AmpRef);
    var lt := ReplaceAll(amp, LT, LtRef);
    var gt := ReplaceAll(lt, GT, GtRef);
    var quot := ReplaceAll(gt, QUOT, QuotRef);
    ReplaceAll(quot, APOS, AposRef)
  }

  /** The encoder's output holds no `<`, `>`, `"` or `'`: each step removes its own
      unit, and no later reference brings one back. */
  lemma {:induction false} EntitiesOutputSafe(unsafe: JsString, d: CodeUnit)
    requires d in EncodeHtmlEntities(unsafe)
    ensures d != LT && d != GT && d != QUOT && d != APOS
  {
    var amp := ReplaceAll(unsafe, AMP, AmpRef);
    var lt := ReplaceAll(amp, LT, LtRef);
    var gt := ReplaceAll(lt, GT, GtRef);
    var quot := ReplaceAll(gt, QUOT, QuotRef);
    ReplaceAllUnits(quot, APOS, AposRef, d);
    if d in quot {
      ReplaceAllUnits(gt, QUOT, QuotRef, d);
      if d in gt {
        ReplaceAllUnits(lt, GT, GtRef, d);
        if d in lt {
          ReplaceAllUnits(amp, LT, LtRef, d);
        }
      }
    }
  }

  /** What one code unit becomes. */
  function EntityOf(c: CodeUnit): JsString {
    if c == AMP then AmpRef
    else if c == LT then LtRef
    else if c == GT then GtRef
    else if c == QUOT then QuotRef
    else if c == APOS then AposRef
    else [c]
  }

  /** A single left-to-right pass that maps each unit through `EntityOf`. */
  function EncodeEachUnit(s: JsString): JsString {
    MapJoin(EntityOf, s)
  }

  lemma {:induction false} EntitiesConcat(a: JsString, b: JsString)
    ensures EncodeHtmlEntities(a + b) == EncodeHtmlEntities(a) + EncodeHtmlEntities(b)
  {
    var amp, lt, gt, quot :=
      ReplaceAll(a, AMP, AmpRef), ReplaceAll(ReplaceAll(a, AMP, AmpRef), LT, LtRef),
      ReplaceAll(ReplaceAll(ReplaceAll(a, AMP, AmpRef), LT, LtRef), GT, GtRef),
      ReplaceAll(ReplaceAll(ReplaceAll(ReplaceAll(a, AMP, AmpRef), LT, LtRef), GT, GtRef), QUOT, QuotRef);
    var amp', lt', gt', quot' :=
      ReplaceAll(b, AMP, AmpRef), ReplaceAll(ReplaceAll(b, AMP, AmpRef), LT, LtRef),
      ReplaceAll(ReplaceAll(ReplaceAll(b, AMP, AmpRef), LT, LtRef), GT, GtRef),
      ReplaceAll(ReplaceAll(ReplaceAll(ReplaceAll(b, AMP, AmpRef), LT, LtRef), GT, GtRef), QUOT, QuotRef);
    ReplaceAllConcat(a, b, AMP, AmpRef);
    ReplaceAllConcat(amp, amp', LT, LtRef);
    ReplaceAllConcat(lt, lt', GT, GtRef);
    ReplaceAllConcat(gt, gt', QUOT, QuotRef);
    ReplaceAllConcat(quot, quot', APOS, AposRef);
  }

  /** On a single unit the chain gives exactly `EntityOf`: once `&` has been replaced,
      no later step finds anything in the reference it inserted. */
  lemma {:induction false} EntitiesOfUnit(c: CodeUnit)
    ensures EncodeHtmlEntities([c]) == EntityOf(c)
  {
    if c == AMP {
      ReplaceAllOneUnit(c, AmpRef);
      PlainTextUnchangedFromLt(AmpRef);
    } else if c == LT {
      ReplaceAllWithoutMatch([c], AMP, AmpRef);
      ReplaceAllOneUnit(c, LtRef);
      ReplaceAllWithoutMatch(LtRef, GT, GtRef);
      ReplaceAllWithoutMatch(LtRef, QUOT, QuotRef);
      ReplaceAllWithoutMatch(LtRef, APOS, AposRef);
    } else if c == GT {
      ReplaceAllWithoutMatch([c], AMP, AmpRef);
      ReplaceAllWithoutMatch([c], LT, LtRef);
      ReplaceAllOneUnit(c, GtRef);
      ReplaceAllWithoutMatch(GtRef, QUOT, QuotRef);
      ReplaceAllWithoutMatch(GtRef, APOS, AposRef);
    } else if c == QUOT {
      ReplaceAllWithoutMatch([c], AMP, AmpRef);
      ReplaceAllWithoutMatch([c], LT, LtRef);
      ReplaceAllWithoutMatch([c], GT, GtRef);
      ReplaceAllOneUnit(c, QuotRef);
      ReplaceAllWithoutMatch(QuotRef, APOS, AposRef);
    } else if c == APOS {
      ReplaceAllWithoutMatch([c], AMP, AmpRef);
      ReplaceAllWithoutMatch([c], LT, LtRef);
      ReplaceAllWithoutMatch([c], GT, GtRef);
      ReplaceAllWithoutMatch([c], QUOT, QuotRef);
      ReplaceAllOneUnit(c, AposRef);
    } else {
      PlainTextUnchanged([c]);
    }
  }

  lemma {:induction false} ReplaceAllOneUnit(c: CodeUnit, rep: JsString)
    ensures ReplaceAll([c], c, rep) == rep
  {
    assert ReplaceAll([c], c, rep) == rep + ReplaceAll([], c, rep);
  }

  /** The steps after the first leave a string without `<`, `>`, `"` and `'` alone. */
  lemma {:induction false} PlainTextUnchangedFromLt(s: JsString)
    requires LT !in s && GT !in s && QUOT !in s && APOS !in s
    ensures ReplaceAll(ReplaceAll(ReplaceAll(ReplaceAll(s, LT, LtRef), GT, GtRef), QUOT, QuotRef), APOS, AposRef) == s
  {
    ReplaceAllWithoutMatch(s, LT, LtRef);
    ReplaceAllWithoutMatch(s, GT, GtRef);
    ReplaceAllWithoutMatch(s, QUOT, QuotRef);
    ReplaceAllWithoutMatch(s, APOS, AposRef);
  }

  /** The five-step chain equals one per-unit substitution, in order. */
  lemma {:induction false} ChainIsPerUnit(s: JsString)
    ensures EncodeHtmlEntities(s) == EncodeEachUnit(s)
    decreases |s|
  {
    if s != [] {
      assert s == [s[0]] + s[1..];
      EntitiesConcat([s[0]], s[1..]);
      EntitiesOfUnit(s[0]);
      ChainIsPerUnit(s[1..]);
    }
  }

  /** A string without any of the five special units is left as it is. */
  lemma {:induction false} PlainTextUnchanged(s: JsString)
    requires AMP !in s && LT !in s && GT !in s && QUOT !in s && APOS !in s
    ensures EncodeHtmlEntities(s) == s
  {
    ReplaceAllWithoutMatch(s, AMP, AmpRef);
    PlainTextUnchangedFromLt(s);
  }

  /** The code units of the example literals. */
  lemma {:induction false} ScriptLiterals(word: JsString)
    requires word == [0x73, 0x63, 0x72, 0x69, 0x70, 0x74]  // script
    ensures Ascii("<script>") == [LT] + word + [GT]
    ensures Ascii("&lt;script&gt;") == LtRef + word + GtRef
  {
  }

  /** `<script>` becomes `&lt;script&gt;`: `<` is encoded once, never as `&amp;lt;`. */
  lemma {:induction false} ScriptTagExample()
    ensures EncodeHtmlEntities(Ascii("<script>")) == Ascii("&lt;script&gt;")
  {
    var word: JsString := [0x73, 0x63, 0x72, 0x69, 0x70, 0x74];
    ScriptLiterals(word);
    calc {
      EncodeHtmlEntities([LT] + word + [GT]);
      { EntitiesConcat([LT] + word, [GT]); }
      EncodeHtmlEntities([LT] + word) + EncodeHtmlEntities([GT]);
      { EntitiesConcat([LT], word); }
      EncodeHtmlEntities([LT]) + EncodeHtmlEntities(word) + EncodeHtmlEntities([GT]);
      { EntitiesOfUnit(LT); EntitiesOfUnit(GT); PlainTextUnchanged(word); }
      LtRef + word + GtRef;
    }
  }

  // ---------------------------------------------------------------------------
  // Decoding: the encoding loses nothing
  // ---------------------------------------------------------------------------

  predicate StartsWith(t: JsString, prefix: JsString) {
    |prefix| <= |t| && t[..|prefix|] == prefix
  }

  /** Reads the five references back; any other unit stands for itself. */
  function DecodeHtmlEntities(t: JsString): JsString
    decreases |t|
  {
    if t == [] then []
    else if t[0] != AMP then [t[0]] + DecodeHtmlEntities(t[1..])
    else if StartsWith(t, AmpRef) then [AMP] + DecodeHtmlEntities(t[|AmpRef|..])
    else if StartsWith(t, LtRef) then [LT] + DecodeHtmlEntities(t[|LtRef|..])
    else if StartsWith(t, GtRef) then [GT] + DecodeHtmlEntities(t[|GtRef|..])
    else if StartsWith(t, QuotRef) then [QUOT] + DecodeHtmlEntities(t[|QuotRef|..])
    else if StartsWith(t, AposRef) then [APOS] + DecodeHtmlEntities(t[|AposRef|..])
    else [AMP] + DecodeHtmlEntities(t[1..])
  }

  lemma {:induction false} DecodeUnit(c: CodeUnit, rest: JsString)
    ensures DecodeHtmlEntities(EntityOf(c) + rest) == [c] + DecodeHtmlEntities(rest)
  {
    var t := EntityOf(c) + rest;
    assert t[|EntityOf(c)|..] == rest;
    if c == AMP {
      assert t[..5] == AmpRef;
    } else if c == LT {
      assert t[..4] == LtRef;
      assert t[1] != AmpRef[1];
    } else if c == GT {
      assert t[..4] == GtRef;
      assert t[1] != AmpRef[1] && t[1] != LtRef[1];
    } else if c == QUOT {
      assert t[..6] == QuotRef;
      assert t[1] != AmpRef[1] && t[1] != LtRef[1] && t[1] != GtRef[1];
    } else if c == APOS {
      assert t[..6] == AposRef;
      assert t[1] != AmpRef[1] && t[1] != LtRef[1] && t[1] != GtRef[1] && t[1] != QuotRef[1];
    } else {
      assert t[0] == c;
    }
  }

  /** Decoding the encoder's output gives back the original string, so the encoding
      is injective. */
  lemma {:induction false} DecodeEncode(s: JsString)
    ensures DecodeHtmlEntities(EncodeHtmlEntities(s)) == s
    decreases |s|
  {
    ChainIsPerUnit(s);
    if s != [] {
      DecodeUnit(s[0], EncodeEachUnit(s[1..]));
      DecodeEncode(s[1..]);
      ChainIsPerUnit(s[1..]);
    }
  }
}
