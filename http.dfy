/**
 * The parts of hyper's request and response that the server reads and
 * writes: the method, the path, the body stream; and the status, the
 * `Content-Length` and `Content-Type` headers and the body.
 */
module Http {
  import opened Results
  import opened Utf8

  /** hyper's `Method`: the nine standard methods and any other as an extension. */
  datatype Method = Options | Get | Post | Put | Delete | Head | Trace | Connect | Patch
                  | Extension(name: string)

  /** One event of a request body stream: a chunk of bytes, or a transport error with its text. */
  datatype BodyItem = Chunk(data: seq<byte>) | Broken(text: string)

  /** An inbound request; `verb` is its method (`method` is a Dafny keyword). */
  datatype Request = Request(verb: Method, path: string, body: seq<BodyItem>)

  /** The status codes this server sends. */
  datatype StatusCode = Ok | BadRequest | NotFound | InternalServerError {
    function Code(): nat {
      match this
      case Ok => 200
      case BadRequest => 400
      case NotFound => 404
      case InternalServerError => 500
    }
  }

  /** `ContentType::json()`. */
  const ApplicationJson: string := "application/json"

  datatype Response = Response(status: StatusCode, contentLength: nat, contentType: string, body: seq<byte>)

  /**
   * `Response::new().with_body(body).with_header(ContentLength(len))
   * .with_header(ContentType::json()).with_status(status)` with `len` the
   * byte length of `body`: the builder both response paths use.
   */
  function JsonResponse(status: StatusCode, body: seq<byte>): (r: Response)
    ensures r.status == status && r.body == body
    ensures r.contentLength == |r.body| && r.contentType == ApplicationJson
  {
    Response(status, |body|, ApplicationJson, body)
  }

  /**
   * `concat2` on a body stream: the chunks joined in order, or the text of
   * the first transport error, at which the stream stops.
   */
  function Concat2(items: seq<BodyItem>): (r: Result<seq<byte>, string>)
    ensures r.Ok? <==> forall i :: 0 <= i < |items| ==> items[i].Chunk?
    ensures r.Err? ==> exists i :: 0 <= i < |items| && items[i] == Broken(r.error)
                                   && forall j :: 0 <= j < i ==> items[j].Chunk?
  {
    if items == [] then Result.Ok([])
    else match items[0]
      case Broken(text) => Err(text)
      case Chunk(data) =>
        match Concat2(items[1..])
        case Ok(rest) => Result.Ok(data + rest)
        case Err(text) => Err(text)
  }

  /** The data of a stream made only of chunks, joined in order. */
  function Join(items: seq<BodyItem>): seq<byte>
    requires forall i :: 0 <= i < |items| ==> items[i].Chunk?
  {
    if items == [] then [] else items[0].data + Join(items[1..])
  }

  /** When no transport error occurs, `concat2` yields exactly the chunks joined in order. */
  lemma {:induction false} Concat2Joins(items: seq<BodyItem>)
    requires forall i :: 0 <= i < |items| ==> items[i].Chunk?
    ensures Concat2(items) == Result.Ok(Join(items))
  {
    if items != [] {
      Concat2Joins(items[1..]);
    }
  }
}
