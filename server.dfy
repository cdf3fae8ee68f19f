/**
 * The JSON-over-HTTP adapter: the error kinds of the `error_chain!` block,
 * `error_to_response`, the `JsonService` codec glue with its blanket
 * implementation, and `JsonServer::call`, the request pipeline.
 *
 * The handler, serde_json's `from_slice` and `to_vec`, and the handler
 * error's `Into<Error>` are parameters (function values); the futures
 * plumbing is replaced by plain function composition in the same order.
 */
module Server {
  import opened Results
  import Utf8
  import JsonText
  import Http

  type byte = Utf8.byte

  /** The error kinds: `Msg` is the one `error_chain!` adds, the other four are declared. */
  datatype ErrorKind =
    | Msg(text: string)
    | NotFound(obj: string)
    | InternalError(detail: string)
    | BadRequest(detail: string)
    | MethodNotAllowed
  {
    /** The `Display` text of the error. */
    function Display(): (s: string)
      ensures Msg? ==> s == text
      ensures NotFound? ==> |s| == |obj| + 17 && s[..7] == "object " && s[7..|s| - 10] == obj
                            && s[|s| - 10..] == " not found"
      ensures InternalError? ==> |s| == |detail| + 22 && s[..22] == "internal server error " && s[22..] == detail
      ensures BadRequest? ==> |s| == |detail| + 12 && s[..12] == "bad request " && s[12..] == detail
      ensures MethodNotAllowed? ==> s == "method not allowed"
    {
      match this
      case Msg(text) => text
      case NotFound(obj) => "object " + obj + " not found"
      case InternalError(detail) => "internal server error " + detail
      case BadRequest(detail) => "bad request " + detail
      case MethodNotAllowed => "method not allowed"
    }
  }

  /** An error is its kind; the backtrace and cause chain error_chain keeps beside it are not modelled. */
  type Error = ErrorKind

  /** The `error` member of an error response body, if the body is UTF-8 text of the form `{"error":"…"}`. */
  function ErrorMessage(body: seq<byte>): Option<string> {
    match Utf8.Decode(body)
    case Some(text) => JsonText.ErrorField(text)
    case None => None
  }

  /**
   * `error_to_response`: the status from the kind (no arm for
   * `MethodNotAllowed` or `Msg`, which both take the fallback 500), and a
   * JSON body whose `error` member is the error's display text.
   */
  function ErrorToResponse(error: Error): (r: Http.Response)
    ensures r.contentType == Http.ApplicationJson && r.contentLength == |r.body|
    ensures r.status.Code() == (if error.NotFound? then 404 else if error.BadRequest? then 400 else 500)
    ensures r.status != Http.Ok
    ensures ErrorMessage(r.body) == Some(error.Display())
  {
    var status := match error
      case NotFound(_) => Http.NotFound
      case BadRequest(_) => Http.BadRequest
      case InternalError(_) => Http.InternalServerError
      case _ => Http.InternalServerError;
    var text := JsonText.Envelope(error.Display());
    Utf8.DecodeEncode(text);
    JsonText.EnvelopeRoundTrip(error.Display());
    Http.JsonResponse(status, Utf8.Encode(text))
  }

  /** The two display texts of errors of the same declared kind are equal only if their details are. */
  lemma DisplayKeepsDetail(a: Error, b: Error)
    requires (a.NotFound? && b.NotFound?) || (a.InternalError? && b.InternalError?) || (a.BadRequest? && b.BadRequest?)
    requires a.Display() == b.Display()
    ensures a == b
  {
    match a
    case NotFound(x) =>
      var y := b.obj;
      assert |x| == |y|;
      assert x == a.Display()[7..7 + |x|] == b.Display()[7..7 + |y|] == y;
    case InternalError(x) =>
      assert x == a.Display()[22..] == b.Display()[22..] == b.detail;
    case BadRequest(x) =>
      assert x == a.Display()[12..] == b.Display()[12..] == b.detail;
  }

  /**
   * The `JsonService` capability of a handler: `deserialize` picks a decoder
   * for a path and method, `call` is the handler itself, `serialize` turns
   * its result into body bytes or an error.
   */
  datatype JsonService<!Req, !Resp, !HErr> = JsonService(
    deserialize: (string, Http.Method) -> Result<seq<byte> -> Result<Req, Error>, Error>,
    call: Req -> Result<Resp, HErr>,
    serialize: Result<Resp, HErr> -> Result<seq<byte>, Error>)

  /**
   * The blanket `deserialize`: whatever the path and method, a decoder that
   * runs `fromSlice` and turns its failure text into `BadRequest`.
   */
  function Deserialize<Req>(fromSlice: seq<byte> -> Result<Req, string>, path: string, verb: Http.Method)
    : (r: Result<seq<byte> -> Result<Req, Error>, Error>)
    ensures r.Ok?
    ensures forall body :: fromSlice(body).Ok? ==> r.value(body) == Result.Ok(fromSlice(body).value)
    ensures forall body :: fromSlice(body).Err? ==> r.value(body) == Err(BadRequest(fromSlice(body).error))
  {
    Result.Ok(body =>
      match fromSlice(body)
      case Ok(value) => Result.Ok(value)
      case Err(text) => Err(BadRequest(text)))
  }

  /** The blanket `serialize`: a result is encoded by `toVec`, a handler error converted by `into`. */
  function Serialize<Resp, HErr>(toVec: Resp -> seq<byte>, into: HErr -> Error, res: Result<Resp, HErr>)
    : (r: Result<seq<byte>, Error>)
    ensures r.Ok? <==> res.Ok?
    ensures res.Ok? ==> r.value == toVec(res.value)
    ensures res.Err? ==> r.error == into(res.error)
  {
    match res
    case Ok(value) => Result.Ok(toVec(value))
    case Err(e) => Err(into(e))
  }

  /** The `JsonService` every handler gets from the blanket implementation. */
  function Blanket<Req(!new), Resp(!new), HErr(!new)>(
    handler: Req -> Result<Resp, HErr>,
    fromSlice: seq<byte> -> Result<Req, string>,
    toVec: Resp -> seq<byte>,
    into: HErr -> Error): (svc: JsonService<Req, Resp, HErr>)
    ensures forall path, verb :: svc.deserialize(path, verb).Ok?
    ensures forall path, verb, body :: svc.deserialize(path, verb).value(body) == Deserialize(fromSlice, path, verb).value(body)
    ensures forall request :: svc.call(request) == handler(request)
    ensures forall res :: svc.serialize(res) == Serialize(toVec, into, res)
  {
    JsonService((path, verb) => Deserialize(fromSlice, path, verb), handler, res => Serialize(toVec, into, res))
  }

  /** The stages of `call`, in the order they run. */
  datatype Stage = CheckMethod | SelectDecoder | ReadBody | DecodeBody | InvokeHandler | SerializeResult {
    /** The position of the stage in the pipeline. */
    function Rank(): nat {
      match this
      case CheckMethod => 0
      case SelectDecoder => 1
      case ReadBody => 2
      case DecodeBody => 3
      case InvokeHandler => 4
      case SerializeResult => 5
    }
  }

  const Pipeline: seq<Stage> := [CheckMethod, SelectDecoder, ReadBody, DecodeBody, InvokeHandler, SerializeResult]

  /** The pipeline starts with the method check. */
  lemma PipelineStart()
    ensures Pipeline[..1] == [CheckMethod]
  {
    assert Pipeline[0] == CheckMethod;
  }

  /** The stages of the pipeline are listed in rank order. */
  lemma PipelineRanks()
    ensures forall k :: 0 <= k < |Pipeline| ==> Pipeline[k].Rank() == k
  {
  }

  /** The response to a request, with the stages that ran to produce it. */
  datatype Outcome = Outcome(response: Http.Response, trace: seq<Stage>)

  /** The closure after the handler: a 200 response with the serialised body, or the error's response. */
  function Respond(serialized: Result<seq<byte>, Error>): (r: Http.Response)
    ensures r.contentType == Http.ApplicationJson && r.contentLength == |r.body|
    ensures r.status == Http.Ok <==> serialized.Ok?
    ensures serialized.Ok? ==> r.body == serialized.value
    ensures serialized.Err? ==> r == ErrorToResponse(serialized.error)
  {
    match serialized
    case Ok(body) => Http.JsonResponse(Http.Ok, body)
    case Err(e) => ErrorToResponse(e)
  }

  /**
   * `JsonServer::call`: gate on POST, select the decoder, read the whole
   * body, decode it, invoke the handler once, serialise; every failure
   * leaves through `error_to_response`.
   */
  function Call<Req, Resp, HErr>(svc: JsonService<Req, Resp, HErr>, req: Http.Request): (out: Outcome)
    ensures out.response.contentType == Http.ApplicationJson
    ensures out.response.contentLength == |out.response.body|
    ensures 1 <= |out.trace| <= |Pipeline| && out.trace == Pipeline[..|out.trace|]
    ensures out.response.status == Http.Ok ==> out.trace == Pipeline
    ensures out.response.status != Http.Ok ==> ErrorMessage(out.response.body).Some?
  {
    if !req.verb.Post? then
      Outcome(ErrorToResponse(MethodNotAllowed), Pipeline[..1])
    else match svc.deserialize(req.path, req.verb)
      case Err(e) => Outcome(ErrorToResponse(e), Pipeline[..2])
      case Ok(decode) =>
        match Http.Concat2(req.body)
        case Err(text) => Outcome(ErrorToResponse(InternalError(text)), Pipeline[..3])
        case Ok(bytes) =>
          match decode(bytes)
          case Err(e) => Outcome(ErrorToResponse(e), Pipeline[..4])
          case Ok(request) => Outcome(Respond(svc.serialize(svc.call(request))), Pipeline)
  }

  /** A request whose method is not POST is answered by `MethodNotAllowed`, with status 500, before anything else runs. */
  lemma NonPostRejected<Req, Resp, HErr>(svc: JsonService<Req, Resp, HErr>, req: Http.Request)
    requires !req.verb.Post?
    ensures var out := Call(svc, req);
      && out.trace == [CheckMethod]
      && out.response == ErrorToResponse(MethodNotAllowed)
      && out.response.status == Http.InternalServerError
      && ErrorMessage(out.response.body) == Some("method not allowed")
  {
    PipelineStart();
    MethodNotAllowedResponse(MethodNotAllowed);
  }

  /** The response to `MethodNotAllowed`: the fallback status 500 and the message "method not allowed". */
  lemma MethodNotAllowedResponse(e: Error)
    requires e.MethodNotAllowed?
    ensures ErrorToResponse(e).status == Http.InternalServerError
    ensures ErrorMessage(ErrorToResponse(e).body) == Some("method not allowed")
  {
  }

  /** Every response that is not a 200 is `error_to_response` of one classified error. */
  lemma FailuresAreClassified<Req, Resp, HErr>(svc: JsonService<Req, Resp, HErr>, req: Http.Request)
    ensures Call(svc, req).response.status != Http.Ok ==> exists e :: Call(svc, req).response == ErrorToResponse(e)
  {
    var response := Call(svc, req).response;
    if response.status == Http.Ok {
    } else if !req.verb.Post? {
      assert response == ErrorToResponse(MethodNotAllowed);
    } else if svc.deserialize(req.path, req.verb).Err? {
      assert response == ErrorToResponse(svc.deserialize(req.path, req.verb).error);
    } else if Http.Concat2(req.body).Err? {
      assert response == ErrorToResponse(InternalError(Http.Concat2(req.body).error));
    } else {
      var decode := svc.deserialize(req.path, req.verb).value;
      var bytes := Http.Concat2(req.body).value;
      if decode(bytes).Err? {
        assert response == ErrorToResponse(decode(bytes).error);
      } else {
        var serialized := svc.serialize(svc.call(decode(bytes).value));
        assert response == ErrorToResponse(serialized.error);
      }
    }
  }

  /** A 404 is sent only as `error_to_response` of a `NotFound` error. */
  lemma NotFoundOnlyFromNotFound<Req, Resp, HErr>(svc: JsonService<Req, Resp, HErr>, req: Http.Request)
    ensures Call(svc, req).response.status == Http.NotFound ==>
              exists e: Error :: e.NotFound? && Call(svc, req).response == ErrorToResponse(e)
  {
    var response := Call(svc, req).response;
    if response.status == Http.NotFound {
      FailuresAreClassified(svc, req);
      var e: Error :| response == ErrorToResponse(e);
      assert e.NotFound?;
    }
  }

  /** No stage runs twice; in particular the handler is invoked at most once per request. */
  lemma StagesRunOnce<Req, Resp, HErr>(svc: JsonService<Req, Resp, HErr>, req: Http.Request)
    ensures var trace := Call(svc, req).trace;
      forall i, j :: 0 <= i < j < |trace| ==> trace[i] != trace[j]
  {
    var trace := Call(svc, req).trace;
    PipelineRanks();
    forall i, j | 0 <= i < j < |trace| ensures trace[i] != trace[j] {
      assert trace[i] == Pipeline[i] && trace[j] == Pipeline[j];
    }
  }

  /** The display text of `MethodNotAllowed` holds no character that JSON escapes. */
  lemma MethodNotAllowedPlain(m: string)
    requires m == "method not allowed"
    ensures forall i :: 0 <= i < |m| ==> JsonText.Plain(m[i])
  {
  }

  /** The body text of `MethodNotAllowed`: its display text needs no escaping. */
  lemma MethodNotAllowedText(m: string)
    requires m == "method not allowed"
    ensures JsonText.Envelope(m) == "{\"error\":\"method not allowed\"}"
  {
    MethodNotAllowedPlain(m);
    JsonText.EnvelopePlain(m);
    assert JsonText.ErrorPrefix + m + JsonText.ErrorSuffix == "{\"error\":\"method not allowed\"}";
  }

  /** The body text of `MethodNotAllowed` is ASCII, one byte per character. */
  lemma MethodNotAllowedLength(text: string)
    requires text == "{\"error\":\"method not allowed\"}"
    ensures |Utf8.Encode(text)| == 30
  {
    assert forall i :: 0 <= i < |text| ==> (text[i] as int) < 0x80;
    Utf8.EncodeAscii(text);
  }

  /** The exact bytes of the `MethodNotAllowed` response: `{"error":"method not allowed"}`, 30 of them. */
  lemma MethodNotAllowedBody()
    ensures ErrorToResponse(MethodNotAllowed).body == Utf8.Encode("{\"error\":\"method not allowed\"}")
    ensures ErrorToResponse(MethodNotAllowed).contentLength == 30
  {
    MethodNotAllowedText(MethodNotAllowed.Display());
    MethodNotAllowedLength("{\"error\":\"method not allowed\"}");
  }

  /** The decoder the blanket `deserialize` selects does not depend on the path or the method. */
  lemma DecoderIgnoresRoute<Req>(fromSlice: seq<byte> -> Result<Req, string>,
                                 path1: string, verb1: Http.Method, path2: string, verb2: Http.Method,
                                 body: seq<byte>)
    ensures Deserialize(fromSlice, path1, verb1).value(body) == Deserialize(fromSlice, path2, verb2).value(body)
  {
  }

  /** A POST whose body stream breaks is answered by `InternalError` with the transport's text; the handler is not reached. */
  lemma ReadFailure<Req(!new), Resp(!new), HErr(!new)>(
    handler: Req -> Result<Resp, HErr>, fromSlice: seq<byte> -> Result<Req, string>,
    toVec: Resp -> seq<byte>, into: HErr -> Error, req: Http.Request)
    requires req.verb.Post? && Http.Concat2(req.body).Err?
    ensures var out := Call(Blanket(handler, fromSlice, toVec, into), req);
      && out.trace == [CheckMethod, SelectDecoder, ReadBody]
      && out.response == ErrorToResponse(InternalError(Http.Concat2(req.body).error))
      && out.response.status == Http.InternalServerError
      && ErrorMessage(out.response.body) == Some("internal server error " + Http.Concat2(req.body).error)
  {
  }

  /** A POST whose body does not decode is answered by `BadRequest` with the decoder's text, status 400; the handler is not reached. */
  lemma DecodeFailure<Req(!new), Resp(!new), HErr(!new)>(
    handler: Req -> Result<Resp, HErr>, fromSlice: seq<byte> -> Result<Req, string>,
    toVec: Resp -> seq<byte>, into: HErr -> Error, req: Http.Request)
    requires req.verb.Post? && Http.Concat2(req.body).Ok?
    requires fromSlice(Http.Concat2(req.body).value).Err?
    ensures var out := Call(Blanket(handler, fromSlice, toVec, into), req);
      var text := fromSlice(Http.Concat2(req.body).value).error;
      && out.trace == [CheckMethod, SelectDecoder, ReadBody, DecodeBody]
      && out.response == ErrorToResponse(BadRequest(text))
      && out.response.status == Http.BadRequest
      && ErrorMessage(out.response.body) == Some("bad request " + text)
  {
  }

  /** A handler success is answered 200 with exactly the encoded result as body, after one invocation. */
  lemma HandlerSucceeds<Req(!new), Resp(!new), HErr(!new)>(
    handler: Req -> Result<Resp, HErr>, fromSlice: seq<byte> -> Result<Req, string>,
    toVec: Resp -> seq<byte>, into: HErr -> Error, req: Http.Request)
    requires req.verb.Post? && Http.Concat2(req.body).Ok?
    requires fromSlice(Http.Concat2(req.body).value).Ok?
    requires handler(fromSlice(Http.Concat2(req.body).value).value).Ok?
    ensures var out := Call(Blanket(handler, fromSlice, toVec, into), req);
      var result := handler(fromSlice(Http.Concat2(req.body).value).value).value;
      && out.trace == Pipeline
      && out.response.status == Http.Ok
      && out.response.body == toVec(result)
      && out.response.contentLength == |toVec(result)|
  {
  }

  /** A handler failure is answered by `error_to_response` of its conversion into an `Error`, after one invocation. */
  lemma HandlerFails<Req(!new), Resp(!new), HErr(!new)>(
    handler: Req -> Result<Resp, HErr>, fromSlice: seq<byte> -> Result<Req, string>,
    toVec: Resp -> seq<byte>, into: HErr -> Error, req: Http.Request)
    requires req.verb.Post? && Http.Concat2(req.body).Ok?
    requires fromSlice(Http.Concat2(req.body).value).Ok?
    requires handler(fromSlice(Http.Concat2(req.body).value).value).Err?
    ensures var out := Call(Blanket(handler, fromSlice, toVec, into), req);
      var error := into(handler(fromSlice(Http.Concat2(req.body).value).value).error);
      && out.trace == Pipeline
      && out.response == ErrorToResponse(error)
      && (error.NotFound? ==> out.response.status == Http.NotFound)
  {
  }

  /**
   * When the pipeline stops before the handler, the handler is not used:
   * any other handler gives the same outcome.
   */
  lemma HandlerUnusedOnEarlyExit<Req, Resp, HErr>(
    svc: JsonService<Req, Resp, HErr>, other: Req -> Result<Resp, HErr>, req: Http.Request)
    ensures InvokeHandler !in Call(svc, req).trace ==> Call(svc.(call := other), req) == Call(svc, req)
  {
  }
}
