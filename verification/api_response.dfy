/** The JSON envelopes of the `ApiResponse` trait that the controllers use. */
module ApiResponse {
  import opened Common

  /** `successResponse($data, $message = null, $code = 200)`. */
  function SuccessResponse(data: PhpValue, message: PhpValue := Null, code: int := 200): (r: Response)
    ensures r.code == code && r.body.Assoc?
    ensures r.body.entries.Keys == {"status", "message", "data"}
    ensures r.body.entries["status"] == Str("success")
  {
    Response(code, Assoc(map["status" := Str("success"), "message" := message, "data" := data]))
  }

  /** `errorResponse($message, $code = 400)`: an array goes under `errors`, anything else under `message`. */
  function ErrorResponse(message: PhpValue, code: int := 400): (r: Response)
    ensures r.code == code && r.body.Assoc?
    ensures r.body.entries.Keys == {"status", if IsArray(message) then "errors" else "message"}
    ensures r.body.entries["status"] == Str("error")
  {
    var response := map["status" := Str("error")];
    if IsArray(message) then
      Response(code, Assoc(response["errors" := message]))
    else
      Response(code, Assoc(response["message" := message]))
  }

  /** `respondWithToken($token)`, with the configured `jwt.ttl` (minutes) as a parameter. */
  function RespondWithToken(token: PhpValue, ttlMinutes: int): (r: Response)
    ensures r.code == 200 && r.body.Assoc? && "data" in r.body.entries
    ensures var d := r.body.entries["data"];
      d.Assoc? && d.entries.Keys == {"access_token", "token_type", "expires_in"}
      && d.entries["access_token"] == token
      && d.entries["token_type"] == Str("bearer")
      && d.entries["expires_in"].Int? && d.entries["expires_in"].i / 60 == ttlMinutes
      && d.entries["expires_in"].i % 60 == 0
  {
    var data := map["access_token" := token, "token_type" := Str("bearer"), "expires_in" := Int(ttlMinutes * 60)];
    Response(200, Assoc(map["status" := Str("success"), "data" := Assoc(data)]))
  }

  /** What a client reads back from an envelope body. */
  datatype Reading =
    | Payload(message: PhpValue, data: PhpValue)
    | Errors(errors: PhpValue)
    | Message(message: PhpValue)
    | Unrecognised

  function Read(body: PhpValue): Reading
  {
    if !body.Assoc? || "status" !in body.entries then Unrecognised
    else if body.entries["status"] == Str("success") && "data" in body.entries then
      Payload(if "message" in body.entries then body.entries["message"] else Null, body.entries["data"])
    else if body.entries["status"] == Str("error") && "errors" in body.entries then
      Errors(body.entries["errors"])
    else if body.entries["status"] == Str("error") && "message" in body.entries then
      Message(body.entries["message"])
    else Unrecognised
  }

  /** A success envelope gives back exactly the payload and message it was built from. */
  lemma SuccessRoundTrip(data: PhpValue, message: PhpValue, code: int)
    ensures Read(SuccessResponse(data, message, code).body) == Payload(message, data)
  {
  }

  /** An error envelope gives back its argument, as `errors` for an array and as `message` otherwise. */
  lemma ErrorRoundTrip(message: PhpValue, code: int)
    ensures Read(ErrorResponse(message, code).body) == if IsArray(message) then Errors(message) else Message(message)
  {
  }

  /** Success and error envelopes are never confused. */
  lemma SuccessIsNotError(data: PhpValue, m: PhpValue, c: int, e: PhpValue, d: int)
    ensures SuccessResponse(data, m, c).body != ErrorResponse(e, d).body
  {
    assert SuccessResponse(data, m, c).body.entries["status"] != ErrorResponse(e, d).body.entries["status"];
  }
}
