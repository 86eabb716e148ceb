/** The `ApiSearchResponse` trait: the envelope variant meant for search results. */
module ApiSearchResponse {
  import opened Common
  import ApiResponse

  /** The payload already has the search shape: `isset($data['data']) && isset($data['paging'])`. */
  predicate IsSearchPayload(data: PhpValue)
  {
    IsSet(data, "data") && IsSet(data, "paging")
  }

  /** `successResponse`: a search-shaped payload is returned as it is, anything else is wrapped. */
  function SuccessResponse(data: PhpValue, message: PhpValue := Null, code: int := 200): (r: Response)
    ensures r.code == code
    ensures IsSearchPayload(data) ==> r.body == data
    ensures !IsSearchPayload(data) ==>
      r.body.Assoc? && r.body.entries.Keys == {"status", "message", "data"}
      && r.body.entries["status"] == Str("success") && r.body.entries["data"] == data
  {
    if IsSearchPayload(data) then
      Response(code, data)
    else
      Response(code, Assoc(map["status" := Str("success"), "message" := message, "data" := data]))
  }

  /** `errorResponse`: starts from `message: 'Validation failed'`; an array is added under
      `errors`, anything else replaces the message. */
  function ErrorResponse(message: PhpValue, code: int := 400): (r: Response)
    ensures r.code == code && r.body.Assoc?
    ensures "status" in r.body.entries && r.body.entries["status"] == Str("error")
    ensures IsArray(message) ==>
      r.body.entries.Keys == {"status", "message", "errors"}
      && r.body.entries["message"] == Str("Validation failed") && r.body.entries["errors"] == message
    ensures !IsArray(message) ==>
      r.body.entries.Keys == {"status", "message"} && r.body.entries["message"] == message
  {
    var response := map["status" := Str("error"), "message" := Str("Validation failed")];
    if IsArray(message) then
      Response(code, Assoc(response["errors" := message]))
    else
      Response(code, Assoc(response["message" := message]))
  }

  /** `respondWithToken` is the same as in `ApiResponse`. */
  function RespondWithToken(token: PhpValue, ttlMinutes: int): (r: Response)
    ensures r == ApiResponse.RespondWithToken(token, ttlMinutes)
  {
    var data := map["access_token" := token, "token_type" := Str("bearer"), "expires_in" := Int(ttlMinutes * 60)];
    Response(200, Assoc(map["status" := Str("success"), "data" := Assoc(data)]))
  }

  /** Outside the pass-through case the two traits build the same success envelope. */
  lemma SuccessAgreesWithApiResponse(data: PhpValue, message: PhpValue, code: int)
    requires !IsSearchPayload(data)
    ensures SuccessResponse(data, message, code) == ApiResponse.SuccessResponse(data, message, code)
  {
  }

  /** The two traits build the same error envelope for a non-array message; for an array
      this one also carries `message: 'Validation failed'`, and a client reads the same errors. */
  lemma ErrorAgreesWithApiResponse(message: PhpValue, code: int)
    ensures !IsArray(message) ==> ErrorResponse(message, code) == ApiResponse.ErrorResponse(message, code)
    ensures ApiResponse.Read(ErrorResponse(message, code).body) == ApiResponse.Read(ApiResponse.ErrorResponse(message, code).body)
  {
  }

  /** A search result read through the pass-through envelope keeps `data` and `paging` at the top level. */
  lemma PassThroughKeepsPaging(items: PhpValue, paging: PhpValue, code: int)
    requires !items.Null? && !paging.Null?
    ensures var r := SuccessResponse(Assoc(map["data" := items, "paging" := paging]), Null, code);
      r.body.entries["data"] == items && r.body.entries["paging"] == paging
  {
    assert IsSearchPayload(Assoc(map["data" := items, "paging" := paging]));
  }
}
