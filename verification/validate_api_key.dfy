/** The `api.key` middleware: the `Authorization` header, with every "Bearer "
    removed, must equal the configured `app.api_key`. */
module ValidateApiKey {
  import opened Common

  const Bearer: string := "Bearer "

  /** `str_replace('Bearer ', '', $s)`: one left-to-right scan that drops each
      non-overlapping occurrence and keeps every other character. */
  function StripBearer(s: string): (r: string)
    ensures |r| <= |s|
    decreases |s|
  {
    if Bearer <= s then StripBearer(s[|Bearer|..])
    else if s == [] then []
    else [s[0]] + StripBearer(s[1..])
  }

  /** Text without an occurrence of "Bearer " is left as it is. */
  lemma {:induction false} StripWithoutOccurrence(s: string)
    requires !Contains(s, Bearer)
    ensures StripBearer(s) == s
    decreases |s|
  {
    if s != [] {
      StripWithoutOccurrence(s[1..]);
    }
  }

  /** "Bearer " has no proper prefix that is also a suffix: text that does not start
      with it does not start with it either once "Bearer " follows. */
  lemma NoStraddle(s: string, t: string)
    requires s != [] && !(Bearer <= s)
    ensures !(Bearer <= s + Bearer + t)
  {
    var u := s + Bearer + t;
    if |s| < |Bearer| {
      assert u[6] == Bearer[6 - |s|];
    } else {
      assert u[..|Bearer|] == s[..|Bearer|];
    }
  }

  /** Every occurrence is removed, wherever it stands: no occurrence can straddle
      the one between `s` and `t`. */
  lemma {:induction false} StripSplits(s: string, t: string)
    ensures StripBearer(s + Bearer + t) == StripBearer(s) + StripBearer(t)
    decreases |s|
  {
    var u := s + Bearer + t;
    if s == [] {
      assert u == Bearer + t;
      assert u[|Bearer|..] == t;
    } else if Bearer <= s {
      assert u[|Bearer|..] == s[|Bearer|..] + Bearer + t;
      StripSplits(s[|Bearer|..], t);
    } else {
      NoStraddle(s, t);
      assert u[1..] == s[1..] + Bearer + t;
      StripSplits(s[1..], t);
    }
  }

  /** The token the middleware compares: the header, stripped when it is truthy. */
  function TokenOf(header: Option<string>): Option<string>
  {
    match header
    case None => None
    case Some(h) => if Truthy(Str(h)) then Some(StripBearer(h)) else Some(h)
  }

  datatype Decision = Next | Deny(response: Response)

  function Unauthorized(message: string): Response
  {
    Response(401, Assoc(map["message" := Str(message)]))
  }

  /** `handle`: `header` is the Authorization header (`None` when absent), `apiKey`
      the configured key (`None` when unset) and `logFails` says whether
      `Log::info` throws, which the `catch` turns into "Invalid token". */
  function Handle(header: Option<string>, apiKey: Option<string>, logFails: bool): (d: Decision)
    ensures d.Next? <==>
      !logFails && TokenOf(header).Some? && Truthy(Str(TokenOf(header).value)) && apiKey == TokenOf(header)
    ensures d.Deny? ==>
      d.response == Unauthorized("Token not provided") || d.response == Unauthorized("Invalid token")
    ensures d.Deny? && d.response == Unauthorized("Token not provided") <==>
      !logFails && (TokenOf(header).None? || !Truthy(Str(TokenOf(header).value)))
  {
    var token := TokenOf(header);
    assert Unauthorized("Invalid token").body.entries["message"] != Unauthorized("Token not provided").body.entries["message"];
    if logFails then Deny(Unauthorized("Invalid token"))
    else if token.None? || !Truthy(Str(token.value)) then Deny(Unauthorized("Token not provided"))
    else if apiKey != Some(token.value) then Deny(Unauthorized("Invalid token"))
    else Next
  }

  lemma MissingHeader(apiKey: Option<string>)
    ensures Handle(None, apiKey, false) == Deny(Unauthorized("Token not provided"))
  {
  }

  /** A header that is only "Bearer " strips to "", and "0" is falsy: both count as no token. */
  lemma FalsyTokens(apiKey: Option<string>)
    ensures Handle(Some(Bearer), apiKey, false) == Deny(Unauthorized("Token not provided"))
    ensures Handle(Some(Bearer + "0"), apiKey, false) == Deny(Unauthorized("Token not provided"))
    ensures Handle(Some("0"), apiKey, false) == Deny(Unauthorized("Token not provided"))
  {
    StripSplits([], []);
    StripSplits([], "0");
    StripWithoutOccurrence("0");
  }

  /** The configured key is accepted bare, after "Bearer ", and after "Bearer " twice. */
  lemma KeyAccepted(key: string)
    requires Truthy(Str(key)) && !Contains(key, Bearer)
    ensures Handle(Some(key), Some(key), false) == Next
    ensures Handle(Some(Bearer + key), Some(key), false) == Next
    ensures Handle(Some(Bearer + Bearer + key), Some(key), false) == Next
  {
    StripWithoutOccurrence(key);
    StripPrefixed(key);
    StripPrefixed(Bearer + key);
    StripPrefixed(key);
    assert Bearer + Bearer + key == Bearer + (Bearer + key);
  }

  lemma StripPrefixed(t: string)
    ensures StripBearer(Bearer + t) == StripBearer(t)
    ensures Truthy(Str(Bearer + t))
  {
    assert (Bearer + t)[|Bearer|..] == t;
  }

  /** Any other non-empty token is refused as invalid. */
  lemma WrongKey(header: string, apiKey: Option<string>)
    requires TokenOf(Some(header)).Some? && Truthy(Str(TokenOf(Some(header)).value))
    requires apiKey != TokenOf(Some(header))
    ensures Handle(Some(header), apiKey, false) == Deny(Unauthorized("Invalid token"))
  {
  }

  /** An exception inside the handler always ends as "Invalid token". */
  lemma ExceptionIsInvalidToken(header: Option<string>, apiKey: Option<string>)
    ensures Handle(header, apiKey, true) == Deny(Unauthorized("Invalid token"))
  {
  }
}
