/** `informationHandler` (httpd.js): the `/information` page. Only GET is served; the
    query parameters are validated, then sanitised with both encoders, and the page is
    the template with its three placeholders filled in. */
module Information {
  import opened Utf16
  import opened Replace
  import opened Responses
  import HtmlEntities
  import HtmlAttributes

  /** The parsed query string (`url.parse(req.url, true).query`), each parameter
      with a single string value. */
  type Query = map<JsString, JsString>

  const GET: JsString := Ascii("GET")

  // ---------------------------------------------------------------------------
  // Validation
  // ---------------------------------------------------------------------------

  /** A parameter is acceptable when neither its name nor its value is blank. */
  predicate ValidPair(key: JsString, value: JsString) {
    !IsBlank(key) && !IsBlank(value)
  }

  predicate QueryIsValid(query: Query) {
    forall key | key in query :: ValidPair(key, query[key])
  }

  /** The validation loop: visits the parameters in some order and stops at the first
      whose name or value trims to the empty string. The verdict does not depend on
      the order. */
  method ValidateQuery(query: Query) returns (isValid: bool)
    ensures isValid <==> QueryIsValid(query)
  {
    isValid := true;
    var pending := query.Keys;
    while pending != {}
      invariant pending <= query.Keys
      invariant isValid
      invariant forall key | key in query.Keys - pending :: ValidPair(key, query[key])
      decreases pending
    {
      var key :| key in pending;
      if Trim(key) == [] || Trim(query[key]) == [] {
        isValid := false;
        break;
      }
      pending := pending - {key};
    }
  }

  // ---------------------------------------------------------------------------
  // Sanitising
  // ---------------------------------------------------------------------------

  /** A value after both passes: entities first, then attribute encoding. */
  function SanitisedValue(value: JsString): JsString {
    HtmlAttributes.EncodeHtmlAttributes(HtmlEntities.EncodeHtmlEntities(value))
  }

  /** The two sanitising loops. Each rewrites every value of the query in place; the
      names are left exactly as they came. */
  method SanitiseQuery(query: Query) returns (sanitised: Query)
    ensures sanitised.Keys == query.Keys
    ensures forall key | key in query :: sanitised[key] == SanitisedValue(query[key])
  {
    sanitised := query;
    var entries := sanitised;
    var pending := entries.Keys;
    while pending != {}
      invariant pending <= query.Keys && sanitised.Keys == query.Keys
      invariant forall key | key in query ::
        sanitised[key] == if key in pending then query[key] else HtmlEntities.EncodeHtmlEntities(query[key])
      decreases pending
    {
      var key :| key in pending;
      sanitised := sanitised[key := HtmlEntities.EncodeHtmlEntities(entries[key])];
      pending := pending - {key};
    }
    entries := sanitised;
    pending := entries.Keys;
    while pending != {}
      invariant pending <= query.Keys && sanitised.Keys == query.Keys
      invariant forall key | key in query ::
        sanitised[key] == if key in pending then entries[key] else SanitisedValue(query[key])
      decreases pending
    {
      var key :| key in pending;
      sanitised := sanitised[key := HtmlAttributes.EncodeHtmlAttributes(entries[key])];
      pending := pending - {key};
    }
  }

  /** A sanitised value holds only ASCII letters and digits, `&`, `#` and `;` (so no
      `<`, `>`, quote or backslash), and undoing the attribute encoding and then the
      entity encoding gives the original value back. */
  lemma {:induction false} SanitisedValueRoundTrip(value: JsString)
    ensures forall i | 0 <= i < |SanitisedValue(value)| ::
      HtmlAttributes.IsAttributeSafe(SanitisedValue(value)[i])
    ensures HtmlAttributes.DecodeHtmlAttributes(SanitisedValue(value))
      == Some(HtmlEntities.EncodeHtmlEntities(value))
    ensures HtmlEntities.DecodeHtmlEntities(HtmlEntities.EncodeHtmlEntities(value)) == value
  {
    var entities := HtmlEntities.EncodeHtmlEntities(value);
    HtmlAttributes.AttributesOutputSafe(entities);
    HtmlAttributes.DecodeEncode(entities);
    HtmlEntities.DecodeEncode(value);
  }

  /** `<` is encoded twice: first as `&lt;`, then each unit of that reference that
      is not alphanumeric as a hexadecimal reference. */
  lemma {:induction false} LessThanSanitised()
    ensures SanitisedValue(Ascii("<")) == Ascii("&#x26;lt&#x3B;")
  {
    assert Ascii("<") == [HtmlEntities.LT];
    HtmlEntities.EntitiesOfUnit(HtmlEntities.LT);
    AttributesOfLtRef();
  }

  lemma {:induction false} AttributesOfLtRef()
    ensures HtmlAttributes.EncodeHtmlAttributes(HtmlEntities.LtRef)
      == [AMP, HASH, HtmlAttributes.LOWER_X, 0x32, 0x36, SEMI, 0x6C, 0x74, AMP, HASH, HtmlAttributes.LOWER_X, 0x33, 0x42, SEMI]
  {
    var letters: JsString := [0x6C, 0x74];
    assert HtmlEntities.LtRef == [AMP] + letters + [SEMI];
    MapJoinAround(HtmlAttributes.EncodeUnit, [AMP] + letters, SEMI, []);
    MapJoinAround(HtmlAttributes.EncodeUnit, [], AMP, letters);
    assert [AMP] + letters + [SEMI] + [] == [AMP] + letters + [SEMI];
    assert [] + [AMP] + letters == [AMP] + letters;
    HtmlAttributes.AlphanumericUnchanged(letters);
    ReferencesOfAmpAndSemicolon();
  }

  lemma {:induction false} ReferencesOfAmpAndSemicolon()
    ensures HtmlAttributes.EncodeUnit(AMP) == [AMP, HASH, HtmlAttributes.LOWER_X, 0x32, 0x36, SEMI]
    ensures HtmlAttributes.EncodeUnit(SEMI) == [AMP, HASH, HtmlAttributes.LOWER_X, 0x33, 0x42, SEMI]
  {
    assert HtmlAttributes.UpperHex(AMP) == [0x32, 0x36];
    assert HtmlAttributes.UpperHex(SEMI) == [0x33, 0x42];
  }

  // ---------------------------------------------------------------------------
  // The template
  // ---------------------------------------------------------------------------

  const LBRACE: CodeUnit := 0x7B  // {

  const MethodPlaceholder: JsString := Ascii("{{method}}")
  const PathPlaceholder: JsString := Ascii("{{path}}")
  const QueryPlaceholder: JsString := Ascii("{{query}}")
  const InformationPath: JsString := Ascii("/information")

  /** `template.replace('{{method}}', 'GET').replace('{{path}}', '/information')
      .replace('{{query}}', json)`. Each call replaces only the first occurrence. */
  function RenderTemplate(template: JsString, json: JsString): JsString {
    var withMethod := ReplaceFirst(template, MethodPlaceholder, GET);
    var withPath := ReplaceFirst(withMethod, PathPlaceholder, InformationPath);
    ReplaceFirst(withPath, QueryPlaceholder, json)
  }

  /** A placeholder that follows text without `{` is the first occurrence, and it is
      replaced by a `$`-free text literally. */
  lemma {:induction false} ReplaceAfterBraceFree(before: JsString, pat: JsString, after: JsString, replacement: JsString)
    requires pat != [] && pat[0] == LBRACE && LBRACE !in before
    requires DOLLAR !in replacement
    ensures ReplaceFirst(before + pat + after, pat, replacement) == before + replacement + after
  {
    var s := before + pat + after;
    assert OccursAt(s, pat, |before|);
    forall j | 0 <= j < |before| ensures !OccursAt(s, pat, j) {
      assert j + |pat| <= |s| ==> s[j..j + |pat|][0] == before[j];
    }
    assert IndexOf(s, pat) == Some(|before|);
    ReplaceFirstLiteral(s, pat, replacement);
    assert s[..|before|] == before;
    assert s[|before| + |pat|..] == after;
  }

  /** Three first-occurrence replacements in a row, each placeholder starting with
      `{` and found after text that holds none. */
  lemma {:induction false} FillThree(a: JsString, b: JsString, c: JsString, d: JsString,
                                     p1: JsString, p2: JsString, p3: JsString,
                                     r1: JsString, r2: JsString, r3: JsString)
    requires p1 != [] && p1[0] == LBRACE && p2 != [] && p2[0] == LBRACE && p3 != [] && p3[0] == LBRACE
    requires LBRACE !in a && LBRACE !in b && LBRACE !in c && LBRACE !in r1 && LBRACE !in r2
    requires DOLLAR !in r1 && DOLLAR !in r2 && DOLLAR !in r3
    ensures ReplaceFirst(ReplaceFirst(ReplaceFirst(a + p1 + b + p2 + c + p3 + d, p1, r1), p2, r2), p3, r3)
      == a + r1 + b + r2 + c + r3 + d
  {
    var rest1 := b + p2 + c + p3 + d;
    assert a + p1 + b + p2 + c + p3 + d == a + p1 + rest1;
    ReplaceAfterBraceFree(a, p1, rest1, r1);
    var before2 := a + r1 + b;
    var rest2 := c + p3 + d;
    assert a + r1 + rest1 == before2 + p2 + rest2;
    ReplaceAfterBraceFree(before2, p2, rest2, r2);
    var before3 := before2 + r2 + c;
    assert before2 + r2 + rest2 == before3 + p3 + d;
    ReplaceAfterBraceFree(before3, p3, d, r3);
  }

  lemma {:induction false} PlaceholderLiterals()
    ensures MethodPlaceholder[0] == LBRACE && PathPlaceholder[0] == LBRACE && QueryPlaceholder[0] == LBRACE
    ensures LBRACE !in GET && DOLLAR !in GET
    ensures LBRACE !in InformationPath && DOLLAR !in InformationPath
  {
  }

  /** A template holding each placeholder once, in order, with no other `{` before
      the last one, is filled in exactly: the method, the path, and the JSON text of
      the query (taken literally when it holds no `$`). */
  lemma {:induction false} RenderFillsPlaceholders(a: JsString, b: JsString, c: JsString, d: JsString, json: JsString)
    requires LBRACE !in a && LBRACE !in b && LBRACE !in c
    requires DOLLAR !in json
    ensures RenderTemplate(a + MethodPlaceholder + b + PathPlaceholder + c + QueryPlaceholder + d, json)
      == a + GET + b + InformationPath + c + json + d
  {
    PlaceholderLiterals();
    FillThree(a, b, c, d, MethodPlaceholder, PathPlaceholder, QueryPlaceholder, GET, InformationPath, json);
  }

  /** A unit of `pat` that `s` does not contain rules out every occurrence. */
  lemma {:induction false} AbsentUnitNoOccurrence(s: JsString, pat: JsString, k: nat)
    requires k < |pat| && pat[k] !in s
    ensures IndexOf(s, pat) == None
  {
    forall j ensures !OccursAt(s, pat, j) {
      if 0 <= j && j + |pat| <= |s| {
        assert s[j..j + |pat|][k] == s[j + k];
      }
    }
  }

  /** Only the first occurrence of a placeholder is filled: in a template holding
      `{{method}}` twice, the second one is sent as it is. */
  lemma {:induction false} RepeatedPlaceholderExample(json: JsString)
    ensures RenderTemplate(MethodPlaceholder + MethodPlaceholder, json) == GET + MethodPlaceholder
  {
    PlaceholderLiterals();
    assert [] + MethodPlaceholder + MethodPlaceholder == MethodPlaceholder + MethodPlaceholder;
    ReplaceAfterBraceFree([], MethodPlaceholder, MethodPlaceholder, GET);
    MissingLetters();
    AbsentUnitNoOccurrence(GET + MethodPlaceholder, PathPlaceholder, 2);
    AbsentUnitNoOccurrence(GET + MethodPlaceholder, QueryPlaceholder, 2);
    RenderWithoutLaterPlaceholders(MethodPlaceholder + MethodPlaceholder, GET + MethodPlaceholder, json);
  }

  /** When filling `{{method}}` leaves no `{{path}}` and no `{{query}}`, that is the page. */
  lemma {:induction false} RenderWithoutLaterPlaceholders(template: JsString, s: JsString, json: JsString)
    requires ReplaceFirst(template, MethodPlaceholder, GET) == s
    requires IndexOf(s, PathPlaceholder) == None && IndexOf(s, QueryPlaceholder) == None
    ensures RenderTemplate(template, json) == s
  {
  }

  /** A template with none of the three placeholders is sent as it is. */
  lemma {:induction false} RenderWithoutPlaceholders(template: JsString, json: JsString)
    requires IndexOf(template, MethodPlaceholder) == None
    requires IndexOf(template, PathPlaceholder) == None
    requires IndexOf(template, QueryPlaceholder) == None
    ensures RenderTemplate(template, json) == template
  {
    RenderWithoutLaterPlaceholders(template, template, json);
  }

  /** Parameter names are not sanitised, so a `$` pattern in a name reaches the
      replacement text and is expanded: for a page that is just `{{query}}`, a `$&`
      in the JSON text (say from the name in `{"$&":"1"}`) is replaced by the
      placeholder itself rather than sent as it is. */
  lemma {:induction false} DollarInNameExpanded(open: JsString, close: JsString)
    requires DOLLAR !in open && DOLLAR !in close
    ensures RenderTemplate(QueryPlaceholder, open + ([DOLLAR, AMPERSAND] + close)) == open + QueryPlaceholder + close
  {
    assert PathPlaceholder[2] == 0x70 && 0x70 !in QueryPlaceholder;       // p
    assert MethodPlaceholder[2] == 0x6D && 0x6D !in QueryPlaceholder;     // m
    AbsentUnitNoOccurrence(QueryPlaceholder, MethodPlaceholder, 2);
    AbsentUnitNoOccurrence(QueryPlaceholder, PathPlaceholder, 2);
    RenderOnlyQuery(QueryPlaceholder, open + ([DOLLAR, AMPERSAND] + close));
    assert OccursAt(QueryPlaceholder, QueryPlaceholder, 0);
    assert QueryPlaceholder[..0] == [] && QueryPlaceholder[|QueryPlaceholder|..] == [];
    ExpandMatchBetweenLiterals(open, close, QueryPlaceholder, 0, |QueryPlaceholder|);
  }

  /** With no `{{method}}` and no `{{path}}`, only the query placeholder is filled. */
  lemma {:induction false} RenderOnlyQuery(template: JsString, json: JsString)
    requires IndexOf(template, MethodPlaceholder) == None && IndexOf(template, PathPlaceholder) == None
    ensures RenderTemplate(template, json) == ReplaceFirst(template, QueryPlaceholder, json)
  {
  }

  /** `$&` between two `$`-free texts inserts the match between them. */
  lemma {:induction false} ExpandMatchBetweenLiterals(open: JsString, close: JsString, str: JsString, pos: nat, len: nat)
    requires pos + len <= |str|
    requires DOLLAR !in open && DOLLAR !in close
    ensures Expand(open + ([DOLLAR, AMPERSAND] + close), str, pos, len) == open + str[pos..pos + len] + close
  {
    var tail := [DOLLAR, AMPERSAND] + close;
    ExpandAfterLiteral(open, tail, str, pos, len);
    assert tail[2..] == close;
    ExpandLiteral(close, str, pos, len);
  }

  lemma {:induction false} ExpandAfterLiteral(prefix: JsString, rest: JsString, str: JsString, pos: nat, len: nat)
    requires pos + len <= |str|
    requires DOLLAR !in prefix
    ensures Expand(prefix + rest, str, pos, len) == prefix + Expand(rest, str, pos, len)
    decreases |prefix|
  {
    if prefix == [] {
      assert prefix + rest == rest;
    } else {
      ExpandAfterLiteral(prefix[1..], rest, str, pos, len);
      assert (prefix + rest)[1..] == prefix[1..] + rest;
    }
  }

  /** `GET{{method}}` has no `p` and no `q`. */
  lemma {:induction false} MissingLetters()
    ensures PathPlaceholder[2] !in GET + MethodPlaceholder
    ensures QueryPlaceholder[2] !in GET + MethodPlaceholder
  {
    assert GET + MethodPlaceholder == Ascii("GET{{method}}");
  }

  // ---------------------------------------------------------------------------
  // The handler
  // ---------------------------------------------------------------------------

  /** The values sanitised, the names kept. */
  function SanitisedQuery(query: Query): Query {
    map key | key in query :: SanitisedValue(query[key])
  }

  /** The response `informationHandler` sends, given the request method, the query,
      the outcome of reading the template (`None` when the read fails) and the
      serialiser the source calls (`JSON.stringify`). */
  function InformationResponse(verb: JsString, query: Query, template: Option<JsString>,
                               stringify: Query -> JsString): Response
  {
    if verb != GET then MethodNotAllowed
    else if !QueryIsValid(query) then BadRequest
    else match template
      case None => InternalServerError
      case Some(t) => Response(200, TextHtml, Text(RenderTemplate(t, stringify(SanitisedQuery(query)))))
  }

  /** The handler: rejects other methods, validates, reads the template, sanitises
      and fills in. */
  method InformationHandler(verb: JsString, query: Query, template: Option<JsString>,
                            stringify: Query -> JsString) returns (response: Response)
    ensures response == InformationResponse(verb, query, template, stringify)
  {
    if verb == GET {
      var isValid := ValidateQuery(query);
      if !isValid {
        return BadRequest;
      }
      match template {
        case None =>
          response := InternalServerError;
        case Some(t) =>
          var sanitised := SanitiseQuery(query);
          assert sanitised == SanitisedQuery(query);
          response := Response(200, TextHtml, Text(RenderTemplate(t, stringify(sanitised))));
      }
    } else {
      response := MethodNotAllowed;
    }
  }

  /** The verdicts: anything but GET gets 405 whatever the query; a GET gets 400
      exactly when some parameter name or value trims to the empty string, even if
      every other parameter is fine; otherwise 500 when the template cannot be read
      and 200 with HTML when it can. */
  lemma {:induction false} InformationVerdicts(verb: JsString, query: Query, template: Option<JsString>,
                            stringify: Query -> JsString)
    ensures verb != GET ==> InformationResponse(verb, query, template, stringify).status == 405
    ensures verb == GET ==>
      (InformationResponse(verb, query, template, stringify).status == 400 <==>
       exists key | key in query :: Trim(key) == [] || Trim(query[key]) == [])
    ensures verb == GET && QueryIsValid(query) ==>
      InformationResponse(verb, query, template, stringify)
        == (if template.None? then InternalServerError
            else Response(200, TextHtml, Text(RenderTemplate(template.value, stringify(SanitisedQuery(query))))))
  {
  }

  /** What reaches the serialiser: the same parameter names, and for each one a value
      made only of safe units from which the original value can be recovered. */
  lemma {:induction false} SanitisedQueryFaithful(query: Query)
    ensures SanitisedQuery(query).Keys == query.Keys
    ensures forall key | key in query ::
      (forall i | 0 <= i < |SanitisedQuery(query)[key]| ::
         HtmlAttributes.IsAttributeSafe(SanitisedQuery(query)[key][i])) &&
      HtmlAttributes.DecodeHtmlAttributes(SanitisedQuery(query)[key]).Some? &&
      HtmlEntities.DecodeHtmlEntities(HtmlAttributes.DecodeHtmlAttributes(SanitisedQuery(query)[key]).value)
        == query[key]
  {
    forall key | key in query
      ensures (forall i | 0 <= i < |SanitisedQuery(query)[key]| ::
                 HtmlAttributes.IsAttributeSafe(SanitisedQuery(query)[key][i])) &&
              HtmlAttributes.DecodeHtmlAttributes(SanitisedQuery(query)[key]).Some? &&
              HtmlEntities.DecodeHtmlEntities(HtmlAttributes.DecodeHtmlAttributes(SanitisedQuery(query)[key]).value)
                == query[key]
    {
      SanitisedValueRoundTrip(query[key]);
    }
  }
}
