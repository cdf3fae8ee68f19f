# hyper-json-server: a verified model of the JSON-over-HTTP adapter

`hyper-json-server` wraps a typed hyper `Service` (the handler) as a
JSON-over-HTTP endpoint. `JsonServer::call` only accepts POST. It reads the
whole body, decodes it with serde_json into the handler's request type, and
invokes the handler once. It then answers with either the JSON-encoded result
(status 200) or an error response. Every error goes through
`error_to_response`, which picks a status from the error kind and writes the
body `{"error":"<display text>"}`. Both paths set `Content-Type:
application/json` and a `Content-Length` equal to the body's byte length.

The model is written in the source's pure style: datatypes, functions and
lemmas.

- `results.dfy`: `Option` and `Result` in Rust's shape.
- `utf8.dfy`: the UTF-8 bytes of a `String`, because `String::len` counts
  bytes. It also has a decoder used to state what the bytes hold.
- `json_text.dfy`: serde_json's compact text of `json!({"error": m})`, with
  serde_json's string escaping, and a strict reader for such text.
- `http.dfy`: the parts of hyper's request and response that the adapter
  touches:
  - the method;
  - the body stream and its `concat2`;
  - the four status codes;
  - the `Content-Length` / `Content-Type` response builder.
- `server.dfy`: the adapter itself:
  - the error kinds with their display texts;
  - `error_to_response`;
  - the `JsonService` capability and its blanket implementation
    (`Deserialize`, `Serialize`, `Blanket`);
  - `JsonServer::call` as `Call`.

Some parts of the system are not modelled as code. They become parameters of
the model, as function values:

- the handler (`Service::call`);
- serde_json's `from_slice` and `to_vec`;
- the handler error's `Into<Error>`;
- the text of a hyper transport error.

`Call` returns the response together with the list of pipeline stages that
ran (`CheckMethod`, `SelectDecoder`, `ReadBody`, `DecodeBody`,
`InvokeHandler`, `SerializeResult`). This list is how the model states which
stage decided the response and that the handler was not reached.
`HandlerUnusedOnEarlyExit` states the same thing semantically: when the
handler is not reached, replacing it changes nothing.

The kind's name suggests HTTP 405, but `error_to_response`
(src/server.rs:41-46) has no arm for `MethodNotAllowed`, so it takes the
fallback arm and gets 500. Its body is still `{"error":"method not allowed"}`.
`NonPostRejected` and `ErrorToResponse` state the 500.

## Model

| member | source | states |
|---|---|---|
| Server.ErrorKind.Display | src/server.rs:14-32 | the display text of each kind: `Msg` shows its text; `NotFound(o)` is "object " + o + " not found"; `InternalError(d)` is "internal server error " + d; `BadRequest(d)` is "bad request " + d; `MethodNotAllowed` is "method not allowed" |
| Server.DisplayKeepsDetail | src/server.rs:14-27 | two `NotFound`, `InternalError` or `BadRequest` errors with the same display text carry the same detail: the display text loses nothing |
| Server.ErrorToResponse | src/server.rs:40-57 | status 404 for `NotFound`, 400 for `BadRequest`, 500 for every other kind (never 200); the body, read back as UTF-8 JSON, is an object whose `error` member is the error's display text; content type JSON and `Content-Length` equal to the body's byte length |
| Server.MethodNotAllowedResponse | src/server.rs:41-46 | `MethodNotAllowed` falls to the fallback arm: status 500, `error` member "method not allowed" |
| Server.MethodNotAllowedBody | src/server.rs:29-32 | the `MethodNotAllowed` response body is exactly the bytes of `{"error":"method not allowed"}`, and its `Content-Length` is 30 |
| Server.Deserialize | src/server.rs:124-132 | the blanket `deserialize` always succeeds; its decoder returns the decoded value when `from_slice` succeeds and `BadRequest(<from_slice error text>)` when it fails |
| Server.DecoderIgnoresRoute | src/server.rs:124-128 | the selected decoder gives the same result on the same bytes whatever path and method it was selected for |
| Server.Blanket | src/server.rs:117-123 | the service every handler gets: for every path and method `deserialize` succeeds and its decoder is the blanket one; `call` is the handler; `serialize` is the blanket `serialize` |
| Server.Serialize | src/server.rs:135-143 | a handler result becomes `Ok(to_vec(result))`; a handler error becomes `Err(into(error))`; the result is `Ok` exactly when the handler's was |
| Server.Respond | src/server.rs:77-88 | after the handler: status 200 exactly when serialising succeeded, with exactly the serialised bytes as body; otherwise `error_to_response` of the error; JSON content type and `Content-Length` equal to the body length either way |
| Server.Call | src/server.rs:65-99 | every response has JSON content type and `Content-Length` equal to its body's byte length; the stages that ran are a non-empty prefix of the pipeline in order; a 200 only after every stage ran; every non-200 response carries an `error` member |
| Server.NonPostRejected | src/server.rs:94-97 | a non-POST request gets `error_to_response(MethodNotAllowed)`: status 500, `error` member "method not allowed"; only the method check ran |
| Server.FailuresAreClassified | src/server.rs:87-97 | every non-200 response equals `error_to_response(e)` for some error `e` |
| Server.NotFoundOnlyFromNotFound | src/server.rs:41-42 | a 404 is sent only as `error_to_response` of a `NotFound` error |
| Server.StagesRunOnce | src/server.rs:67-89 | no stage runs twice in one call, so the handler is invoked at most once |
| Server.ReadFailure | src/server.rs:70-72 | a POST whose body stream fails gets `InternalError(<transport error text>)`: status 500, `error` member "internal server error <text>"; the handler is not reached |
| Server.DecodeFailure | src/server.rs:129-131 | a POST whose body does not decode gets `BadRequest(<decode error text>)`: status 400, `error` member "bad request <text>"; the handler is not reached |
| Server.HandlerSucceeds | src/server.rs:74-85 | when the handler returns `Ok(r)`: all stages ran once, status 200, body exactly `to_vec(r)`, `Content-Length` its length |
| Server.HandlerFails | src/server.rs:139-142 | when the handler returns `Err(e)`: the response is `error_to_response(e.into())` (so 404 when that is `NotFound`), after all stages ran once |
| Server.HandlerUnusedOnEarlyExit | src/server.rs:67-92 | when the pipeline stops before the handler, any other handler yields the same outcome |
| Http.Concat2 | src/server.rs:70-72 | the result is `Ok` exactly when no transport error occurs in the stream; otherwise the error text is the one of the first failure, after only chunks |
| Http.Concat2Joins | src/server.rs:70-71 | when no transport error occurs, the result is exactly the chunks' data joined in order |
| Http.JsonResponse | src/server.rs:52-56 | the built response has the given status and body, JSON content type, and `Content-Length` equal to the body length |
| JsonText.Envelope | src/server.rs:47-50 | the text of `json!({"error": m})` starts with `{"error":"` and ends with `"}`, around at least as many characters as `m` has |
| JsonText.EnvelopeRoundTrip | src/server.rs:47-50 | the `error` member read back from the text `{"error":"…"}` written for a message is that message, whatever characters it holds |
| Utf8.Encode | src/server.rs:50-51 | the byte form that `len()` counts: between one and four bytes per character |
| Utf8.DecodeEncode | src/server.rs:50-51 | the bytes counted by `body.len()` decode back to the body text |

## Left out

- Concurrency and sharing are not modelled: the `Arc` around the handler and concurrent calls (src/server.rs:37, 66).
- The futures machinery is not modelled: `Box`, `Either`, and `and_then`/`then`/`or_else`, including cancellation. `Call` keeps only their order.
- hyper's transport types are reduced to the fields the adapter uses. Those are the method, path and body of a request, and the status, two headers and body of a response.
- serde_json's `from_slice` and `to_vec` are parameters. So are the handler and the handler error's `Into<Error>`.
- The `unwrap()` panic when `to_vec` fails (src/server.rs:140) is left out. `Serialize` assumes encoding succeeds.
- error_chain's backtraces, `description()` strings and cause chains are left out. An error is its kind.
- The `as u64` casts of body lengths (src/server.rs:51, 79) are modelled as unbounded naturals. A `usize` length always fits in a `u64` on the targets hyper supports.
- The decoder's determinism ("same bytes, same result") needs no lemma. Decoders are Dafny functions, so this holds by construction. `DecoderIgnoresRoute` states the part that could fail: the decoder does not depend on the path or method.
- JsonText.Unescape does not read `\u` escapes of surrogate halves. serde_json never writes them, so this does not weaken any statement about the writer.
- src/lib.rs is not part of this model. It only re-exports; two of its names (`ErrorInspector`, `IgnoreErrors`) do not exist in src/server.rs.
