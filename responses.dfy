/** What a handler writes back: a status code, a `Content-Type` and a body. The body
    is either text passed to `res.end` or a file streamed with `createReadStream().pipe`. */
module Responses {
  import opened Utf16

  /** The file-system paths the server touches, as `path.join` would build them.
      The joining itself (and its `..` handling) is not modelled: a path is named
      by what it was built from. */
  datatype FsPath =
    | PublicFile(name: JsString)      // path.join(__dirname, 'public', name)
    | IndexHtmlIn(dir: FsPath)        // path.join(dir, 'index.html')

  datatype Body = Text(text: JsString) | FileStream(path: FsPath)

  datatype Response = Response(status: nat, contentType: JsString, body: Body)

  const TextPlain: JsString := Ascii("text/plain")
  const TextHtml: JsString := Ascii("text/html")

  const NotFound := Response(404, TextPlain, Text(Ascii("File not found")))
  const InternalServerError := Response(500, TextPlain, Text(Ascii("Internal Server Error")))
  const BadRequest := Response(400, TextPlain, Text(Ascii("Bad Request: Invalid query parameters")))
  const MethodNotAllowed := Response(405, TextPlain, Text(Ascii("Method Not Allowed")))
}
