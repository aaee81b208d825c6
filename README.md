# httpd.js in Dafny

httpd.js is a small Node.js web server. It serves a main page at `/` and an
information page at `/information`. The information page echoes the request's
query parameters into an HTML template. Every other path is a static file under
`public/`: a missing path is a 404, a directory is served through its
`index.html` or listed, and a file is streamed with a `Content-Type` chosen from
its extension.

This project models the server's string and decision logic and proves what that
logic guarantees:

- the two XSS encoders, `encodeHtmlEntities` and `encodeHtmlAttributes`;
- query validation and in-place sanitisation in `informationHandler`;
- placeholder substitution in the template;
- the routing branch;
- content-type selection in `serveFile`;
- the directory-listing body.

JavaScript strings are modelled as sequences of UTF-16 code units
(`Utf16.JsString`), because `split('')`, `charCodeAt`, `trim` and `indexOf` work
on code units.

Modules, one per file:

- `Utf16` (`utf16.dfy`): code units and the string built-ins the server uses.
  - `trim`, with the full ECMAScript whitespace and line-terminator set.
  - `indexOf` and `join`.
  - `split('').map(f).join('')`.
  - `split` for one separator, used only to read a listing back.
- `Replace` (`replace.dfy`): the two forms of `String.prototype.replace`.
  - A global one-unit regular expression replaces every occurrence.
  - A string pattern replaces only the first occurrence. Its replacement text
    goes through ECMAScript's GetSubstitution: `$$`, `$&`, `` $` `` and `$'` are
    expanded, as JavaScript does with no capture groups.
- `HtmlEntities` (`html_entities.dfy`): the five-step replacement chain, its
  equivalence to a per-unit map, and a decoder that inverts it.
- `HtmlAttributes` (`html_attributes.dfy`): the `&#xHH;` encoder. It uses
  upper-case unpadded hex, written as character references in the sense of
  section 13.1.4 of the WHATWG HTML Living Standard. Also a decoder that inverts
  it.
- `Responses` (`responses.dfy`): status, content type and body, and the server's
  fixed error responses.
- `Information` (`information.dfy`): the `/information` handler.
  - The validation loop and the two sanitising loops are methods with loop
    invariants.
  - The template is filled through a reference function.
- `StaticFiles` (`static_files.dfy`): `staticFileHandler`, `serveFile` (a method
  whose if/else chain is proved equal to a lookup table) and
  `serveDirectoryListing`.
- `Server` (`server.dfy`): the request listener's routing.

File-system outcomes are inputs to the model:

- stat result;
- whether `index.html` exists;
- directory entries or a read failure;
- page and template contents or a read failure.

`path.extname`'s result is an input, and so is `JSON.stringify`, as a function
parameter.

Some behaviour of the code as written is proved and kept rather than corrected:

- The static handler joins the raw URL, query string included, under `public/`
  (`Server.StaticLookupKeepsQueryString`).
- Parameter names are neither validated for content nor encoded. So a `$&` in a
  name is expanded by `replace` when the JSON text is inserted
  (`Information.DollarInNameExpanded`).
- Values are encoded twice, so `<` reaches the page as `&#x26;lt&#x3B;`
  (`Information.LessThanSanitised`).

## Model

| member | source | states |
|---|---|---|
| Utf16.Trim | httpd.js:94 | `trim` returns a contiguous slice of its input that neither starts nor ends with whitespace. It is empty exactly when every unit is whitespace, which is the test `!key.trim()` makes. |
| Utf16.IndexOf | httpd.js:122-125 | The index `replace` acts on is an occurrence of the pattern, and no occurrence lies before it. With no occurrence, there is no index. |
| Utf16.MapJoinAt | httpd.js:157-173 | `split('').map(f).join('')` puts the piece for unit `i` between the pieces for the units before it and the units after it, in input order. |
| Utf16.SplitJoin | httpd.js:204 | `join` with a separator that no part contains is undone by splitting on that separator, for at least one part. |
| Replace.ReplaceAllWithoutMatch | httpd.js:145-149 | A global replacement leaves a string without the matched unit unchanged. |
| Replace.ReplaceAllUnits | httpd.js:145-149 | After a global replacement of `c` by `rep`, every unit in the result was either in the input and not `c`, or comes from `rep`. |
| Replace.ReplaceAllConcat | httpd.js:145-149 | A global one-unit replacement distributes over concatenation. |
| Replace.ExpandLiteral | httpd.js:122-125 | A replacement text without `$` is inserted literally by `replace`. |
| Replace.ReplaceFirstLiteral | httpd.js:122-125 | With a string pattern, only the first occurrence is replaced and the text on either side is kept. A string without the pattern is returned unchanged. |
| Replace.LaterOccurrenceSurvives | httpd.js:122-125 | An occurrence after the first survives the replacement, shifted by the change in length. |
| HtmlEntities.ChainIsPerUnit | httpd.js:143-150 | The five chained replacements equal one left-to-right per-unit substitution: `&` becomes `&amp;`, `<` becomes `&lt;`, `>` becomes `&gt;`, `"` becomes `&quot;`, `'` becomes `&#x27;`, and other units are unchanged. |
| HtmlEntities.EntitiesOfUnit | httpd.js:143-150 | On a single unit the chain produces exactly that unit's reference. The reference inserted for `&` is not encoded again by the later steps. |
| HtmlEntities.EntitiesConcat | httpd.js:143-150 | The entity encoder distributes over concatenation. |
| HtmlEntities.EntitiesOutputSafe | httpd.js:143-150 | The output contains no `<`, `>`, `"` or `'`. |
| HtmlEntities.PlainTextUnchanged | httpd.js:143-150 | A string without any of the five special units is returned unchanged. |
| HtmlEntities.ScriptTagExample | httpd.js:143-150 | `<script>` becomes `&lt;script&gt;`, so `<` is encoded once and never as `&amp;lt;`. |
| HtmlEntities.DecodeEncode | httpd.js:143-150 | Decoding the five references gives back the original string, so the encoding loses nothing. |
| HtmlAttributes.HexDigit | httpd.js:170 | Each digit is an upper-case hex digit that denotes its value. |
| HtmlAttributes.UpperHexRoundTrip | httpd.js:170 | `toString(16).toUpperCase()` yields only upper-case hex digits, and those digits denote the original number. |
| HtmlAttributes.UpperHexShape | httpd.js:170 | There is no zero padding: the leading digit is `0` only for 0. A code unit takes 1 to 4 digits, according to its magnitude. |
| HtmlAttributes.AttributesAt | httpd.js:157-173 | Each input unit is encoded in place and in order. An alphanumeric unit is kept as it is; any other unit becomes `&#x` followed by its upper-case hex and `;`. |
| HtmlAttributes.AlphanumericUnchanged | httpd.js:161-167 | A string made only of units in 48-57, 65-90 and 97-122 is returned unchanged. |
| HtmlAttributes.AttributesOutputSafe | httpd.js:168-173 | Every unit of the output is an ASCII letter or digit, `&`, `#` or `;`. |
| HtmlAttributes.SpaceExample | httpd.js:168-173 | `a b` becomes `a&#x20;b`. |
| HtmlAttributes.DecodeEncode | httpd.js:156-174 | A decoder reads alphanumerics as themselves and `&#xH…;` as the unit the hex denotes. Applied to the encoder's output, it recovers the input. |
| HtmlAttributes.EncodingInjective | httpd.js:156-174 | Two different strings never have the same attribute encoding. |
| Information.ValidateQuery | httpd.js:91-98 | The loop with its early `break` returns true exactly when no parameter name or value is blank, whatever order the parameters are visited in. |
| Information.SanitiseQuery | httpd.js:112-119 | After both in-place loops, the query has exactly the same names. Each value is the attribute encoding of the entity encoding of the original value. |
| Information.SanitisedValueRoundTrip | httpd.js:112-119 | A sanitised value holds only letters, digits, `&`, `#` and `;`. Undoing the attribute encoding and then the entity encoding recovers the original value. |
| Information.SanitisedQueryFaithful | httpd.js:112-119 | The query passed to the serialiser has the original names. Every value is safe and decodes back to the original value. |
| Information.LessThanSanitised | httpd.js:112-119 | A value `<` reaches the serialiser as `&#x26;lt&#x3B;`. |
| Information.ReplaceAfterBraceFree | httpd.js:122-125 | A placeholder preceded by text without `{` is the first occurrence, and it is replaced literally by a `$`-free text. |
| Information.FillThree | httpd.js:122-125 | Three successive first-occurrence replacements fill three placeholders in order, each found after text with no `{`. |
| Information.RenderFillsPlaceholders | httpd.js:122-125 | A template with `{{method}}`, `{{path}}` and `{{query}}` once each, in that order and with no other `{` before the last, becomes the template with `GET`, `/information` and the JSON text filled in. |
| Information.RepeatedPlaceholderExample | httpd.js:122-125 | Only the first occurrence is filled: `{{method}}{{method}}` becomes `GET{{method}}`. |
| Information.RenderWithoutLaterPlaceholders | httpd.js:122-125 | If filling `{{method}}` leaves no `{{path}}` and no `{{query}}`, the page is that result. |
| Information.RenderWithoutPlaceholders | httpd.js:122-125 | A template with none of the three placeholders is sent unchanged. |
| Information.RenderOnlyQuery | httpd.js:122-125 | Without `{{method}}` and `{{path}}`, only the query placeholder is filled. |
| Information.ExpandAfterLiteral | httpd.js:125 | A `$`-free prefix of a replacement text is inserted literally, ahead of the expansion of the rest. |
| Information.ExpandMatchBetweenLiterals | httpd.js:125 | A `$&` between two `$`-free texts expands to the matched placeholder. |
| Information.DollarInNameExpanded | httpd.js:112-125 | Parameter names are not encoded. For a page that is just `{{query}}`, a `$&` in the JSON text is replaced by the placeholder instead of being sent. |
| Information.InformationHandler | httpd.js:85-136 | The handler's response equals the reference `InformationResponse`: 405 unless GET, 400 when the query is invalid, 500 when the template cannot be read, otherwise 200 HTML with the filled template. |
| Information.InformationVerdicts | httpd.js:86-110 | A non-GET request gets 405 whatever the query. A GET gets 400 exactly when some name or value trims to empty, regardless of the other pairs. Otherwise it gets 500 without a template, or 200 with the template filled from the sanitised query. |
| StaticFiles.ServeFile | httpd.js:177-195 | The if/else chain sends status 200 and streams the file. Its content type is the one a lookup table gives: `.jpg` and `.jpeg` give image/jpeg, `.png` image/png, `.css` text/css, `.js` text/javascript, and anything else text/html. |
| StaticFiles.ContentTypeDefaults | httpd.js:179-189 | text/html is chosen exactly for extensions outside the table. Matching is exact and case-sensitive, so `.JPG`, `.svg`, `.html` and the empty extension all give text/html. |
| StaticFiles.ListingLines | httpd.js:204 | Read line by line, the listing body is `Directory Listing:` followed by one entry name per line. With no entries it is the heading and an empty line. |
| StaticFiles.StaticFileHandler | httpd.js:43-66 | The handler's response equals the reference `StaticResponse`. |
| StaticFiles.StaticOutcomes | httpd.js:43-66 | 404 comes exactly when the path is missing. A streamed body is the requested regular file, or the requested directory's `index.html` sent as text/html, and never a directory. A text 200 is that directory's listing. The status is always 200, 404 or 500. |
| Server.RouteOf | httpd.js:30-40 | `/` and only `/` goes to the main page. `/information` and only `/information` goes to the information handler. Every other path name goes to the static handler. |
| Server.HandleRequest | httpd.js:26-40 | The listener's response equals the reference `Respond`, which routes on the path name. |
| Server.ResponseStatuses | httpd.js:30-40 | Every response is 200, 400, 404, 405 or 500. 400 and 405 come only from `/information`, and 405 exactly for a non-GET request there. 404 comes exactly from a missing static path. |
| Server.StaticLookupKeepsQueryString | httpd.js:44 | The static handler looks up the raw URL: a request for `/style.css?v=1` streams `public/style.css?v=1`. |

## Left out

- The request timeout (httpd.js:11-23) and `server.listen` (httpd.js:209) are left out. The 408 timer races the response's `finish` event, which is event-loop concurrency with no value to state here.
- File-system calls (`fs.stat`, `fs.access`, `fs.readFile`, `fs.readdir`, `fs.createReadStream().pipe`) are not performed. Their outcomes are inputs (`StaticFiles.FileSystemView`, `Server.Environment`), and a streamed body is named by its path.
- `url.parse` is foreign. The path name and the query are inputs beside the raw URL (`Server.Request`), and the model does not relate them.
- `path.join` is foreign, and a path is named by what it was built from (`Responses.FsPath`). So `..` normalisation is not modelled, and the path-traversal exposure of joining the raw URL under `public/` is not analysed.
- `path.extname` is foreign, and the extension is an input. For `index.html` it is `.html`.
- Repeated query keys are not modelled. `url.parse(..., true)` turns them into an array, on which `value.trim()` throws, and the model's query maps names to single strings.
- `JSON.stringify` is a function parameter, so its escaping is not modelled.
- The model does not claim anything about units of `EncodeHtmlAttributes` output that HTML parsers treat specially. A lone surrogate or a C1 control becomes `&#xD800;` or `&#x80;`-style references, and browsers map or replace those references.
