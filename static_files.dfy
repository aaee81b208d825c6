/** `staticFileHandler`, `serveFile` and `serveDirectoryListing` (httpd.js): anything
    that is not `/` or `/information` is looked up under `public/`. A missing path is
    a 404, a directory is served through its `index.html` or listed, a file is
    streamed with a `Content-Type` chosen from its extension. */
module StaticFiles {
  import opened Utf16
  import opened Responses

  /** What `fs.stat` reports for the requested path. */
  datatype Stat = Missing | Directory | RegularFile

  /** The answers the file system gives the handler for one request:
      `fs.stat(filePath)`, whether `fs.access(indexFilePath, F_OK)` succeeds,
      what `fs.readdir(filePath)` returns (`None` when it fails), and
      `path.extname(filePath)`. */
  datatype FileSystemView = FileSystemView(
    stat: Stat,
    indexExists: bool,
    listing: Option<seq<JsString>>,
    extension: JsString)

  // ---------------------------------------------------------------------------
  // serveFile
  // ---------------------------------------------------------------------------

  const Jpg: JsString := Ascii(".jpg")
  const Jpeg: JsString := Ascii(".jpeg")
  const Png: JsString := Ascii(".png")
  const Css: JsString := Ascii(".css")
  const Js: JsString := Ascii(".js")

  const ImageJpeg: JsString := Ascii("image/jpeg")
  const ImagePng: JsString := Ascii("image/png")
  const TextCss: JsString := Ascii("text/css")
  const TextJavascript: JsString := Ascii("text/javascript")

  /** The extensions `serveFile` recognises and their media types; every other
      extension, including none, is sent as `text/html`. */
  const ContentTypes: map<JsString, JsString> := map[
    Jpg := ImageJpeg, Jpeg := ImageJpeg, Png := ImagePng, Css := TextCss, Js := TextJavascript]

  function ContentTypeFor(extension: JsString): JsString {
    if extension in ContentTypes then ContentTypes[extension] else TextHtml
  }

  /** The five extensions are different strings, and `text/html` is none of the
      four other media types. */
  lemma {:induction false} LiteralsDistinct()
    ensures Jpg != Jpeg && Jpg != Png && Jpg != Css && Jpg != Js
    ensures Jpeg != Png && Jpeg != Css && Jpeg != Js && Png != Css && Png != Js && Css != Js
    ensures TextHtml != ImageJpeg && TextHtml != ImagePng && TextHtml != TextCss && TextHtml != TextJavascript
  {
    assert Jpg[1] != Png[1] && Jpg[1] != Css[1] && Png[1] != Css[1];
    assert TextHtml[0] != ImageJpeg[0] && TextHtml[0] != ImagePng[0];
    assert TextHtml[5] != TextCss[5] && TextHtml[5] != TextJavascript[5];
  }

  /** `serveFile`: starts from `text/html`, overrides it in an if/else chain on the
      extension, then streams the file with status 200. */
  method ServeFile(path: FsPath, extension: JsString) returns (response: Response)
    ensures response == Response(200, ContentTypeFor(extension), FileStream(path))
  {
    LiteralsDistinct();
    var contentType := TextHtml;
    if extension == Jpg || extension == Jpeg {
      contentType := ImageJpeg;
    } else if extension == Png {
      contentType := ImagePng;
    } else if extension == Css {
      contentType := TextCss;
    } else if extension == Js {
      contentType := TextJavascript;
    }
    response := Response(200, contentType, FileStream(path));
  }

  /** The comparison is exact and case-sensitive: `.JPG`, `.svg`, `.html` and no
      extension at all are sent as `text/html`, and `text/html` is chosen exactly
      for the extensions outside the table. */
  lemma {:induction false} ContentTypeDefaults(extension: JsString)
    ensures ContentTypeFor(extension) == TextHtml <==> extension !in ContentTypes
    ensures ContentTypeFor(Ascii(".JPG")) == TextHtml
    ensures ContentTypeFor(Ascii(".svg")) == TextHtml
    ensures ContentTypeFor(Ascii(".html")) == TextHtml
    ensures ContentTypeFor([]) == TextHtml
  {
    LiteralsDistinct();
    assert Ascii(".JPG")[1] != Jpg[1] && Ascii(".JPG")[1] != Png[1] && Ascii(".JPG")[1] != Css[1];
    assert Ascii(".svg")[1] != Jpg[1] && Ascii(".svg")[1] != Png[1] && Ascii(".svg")[1] != Css[1];
    assert Ascii(".html")[1] != Jpeg[1];
  }

  // ---------------------------------------------------------------------------
  // serveDirectoryListing
  // ---------------------------------------------------------------------------

  const ListingHeading: JsString := Ascii("Directory Listing:")

  /** `'Directory Listing:\n' + files.join('\n')`. */
  function ListingBody(names: seq<JsString>): JsString {
    Ascii("Directory Listing:\n") + Join(names, LF)
  }

  /** The body read line by line is the heading followed by the entry names, one per
      line, provided no name holds a line feed; with no entries it is the heading
      and an empty line. */
  lemma {:induction false} ListingLines(names: seq<JsString>)
    requires forall k | 0 <= k < |names| :: LF !in names[k]
    ensures names != [] ==> Split(ListingBody(names), LF) == [ListingHeading] + names
    ensures names == [] ==> Split(ListingBody(names), LF) == [ListingHeading, []]
  {
    assert Ascii("Directory Listing:\n") == ListingHeading + [LF];
    assert LF !in ListingHeading;
    SplitPrefix(ListingHeading, Join(names, LF), LF);
    if names != [] {
      SplitJoin(names, LF);
    } else {
      assert ListingHeading + [LF] + Join(names, LF) == ListingHeading + [LF] + [];
    }
  }

  /** `serveDirectoryListing`: 500 when the directory cannot be read, otherwise the
      listing as plain text. */
  function ListingResponse(listing: Option<seq<JsString>>): Response {
    match listing
    case None => InternalServerError
    case Some(names) => Response(200, TextPlain, Text(ListingBody(names)))
  }

  // ---------------------------------------------------------------------------
  // staticFileHandler
  // ---------------------------------------------------------------------------

  /** The response for the raw request URL `url` (joined under `public/` as it is,
      query string included). */
  function StaticResponse(url: JsString, view: FileSystemView): Response {
    match view.stat
    case Missing => NotFound
    case Directory =>
      if view.indexExists then
        Response(200, ContentTypeFor(Ascii(".html")), FileStream(IndexHtmlIn(PublicFile(url))))
      else ListingResponse(view.listing)
    case RegularFile => Response(200, ContentTypeFor(view.extension), FileStream(PublicFile(url)))
  }

  /** The handler's callbacks, run in order. */
  method StaticFileHandler(url: JsString, view: FileSystemView) returns (response: Response)
    ensures response == StaticResponse(url, view)
  {
    var filePath := PublicFile(url);
    if view.stat == Missing {
      response := NotFound;
    } else if view.stat == Directory {
      var indexFilePath := IndexHtmlIn(filePath);
      if view.indexExists {
        response := ServeFile(indexFilePath, Ascii(".html"));
      } else {
        response := ListingResponse(view.listing);
      }
    } else {
      response := ServeFile(filePath, view.extension);
    }
  }

  /** What a static request can come to: 404 exactly when the path is missing;
      a streamed file is always the requested regular file or the `index.html` of
      the requested directory (sent as `text/html`), never a directory itself; a
      text 200 is always a listing of the requested directory; and otherwise 500. */
  lemma {:induction false} StaticOutcomes(url: JsString, view: FileSystemView)
    ensures StaticResponse(url, view).status == 404 <==> view.stat == Missing
    ensures StaticResponse(url, view).body.FileStream? ==>
      (view.stat == RegularFile && StaticResponse(url, view).body.path == PublicFile(url)) ||
      (view.stat == Directory && view.indexExists &&
       StaticResponse(url, view).body.path == IndexHtmlIn(PublicFile(url)) &&
       StaticResponse(url, view).contentType == TextHtml)
    ensures StaticResponse(url, view).status == 200 && StaticResponse(url, view).body.Text? ==>
      view.stat == Directory && !view.indexExists && view.listing.Some? &&
      StaticResponse(url, view).body.text == ListingBody(view.listing.value)
    ensures StaticResponse(url, view).status in {200, 404, 500}
  {
    ContentTypeDefaults(Ascii(".html"));
  }
}
