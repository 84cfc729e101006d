/**
 * Authorization and default header builders (src/utils/header.ts). A header
 * record is a finite map from header name to value; names are compared
 * exactly, as the keys of a JavaScript object are.
 */
module Headers {
  import opened Text
  import opened Encoding
  import Base64
  import opened Maybe

  type HeaderMap = map<string, string>

  const Json: string := "application/json"

  /** The two entries every builder starts from. */
  function JsonDefaults(): HeaderMap {
    map["Content-Type" := Json, "Accept" := Json]
  }

  /**
   * `createBasicAuthHeader`: the Basic scheme of section 2 of RFC 7617. The
   * credential after "Basic " is Base64 text that decodes to exactly the UTF-8
   * bytes of the user name, a colon (byte 58) and the password.
   */
  function CreateBasicAuthHeader(username: string, password: string): (h: HeaderMap)
    ensures h.Keys == {"Authorization", "Content-Type", "Accept"}
    ensures h["Content-Type"] == Json && h["Accept"] == Json
    ensures StartsWith(h["Authorization"], "Basic ")
    ensures Base64.Decode(h["Authorization"][6..])
         == Some(Utf8Encode(username) + [58 as byte] + Utf8Encode(password))
  {
    var credential := Base64.Encode(Utf8Encode(username + ":" + password));
    Utf8EncodeAppend(username + ":", password);
    Utf8EncodeAppend(username, ":");
    Utf8Ascii(':');
    Base64.RoundTrip(Utf8Encode(username + ":" + password));
    var auth := "Basic " + credential;
    assert auth[6..] == credential;
    map["Authorization" := auth, "Content-Type" := Json, "Accept" := Json]
  }

  /**
   * `createBearerAuthHeader`: the Bearer scheme of section 2.1 of RFC 6750;
   * the token follows "Bearer " unchanged.
   */
  function CreateBearerAuthHeader(token: string): (h: HeaderMap)
    ensures h.Keys == {"Authorization", "Content-Type", "Accept"}
    ensures h["Content-Type"] == Json && h["Accept"] == Json
    ensures StartsWith(h["Authorization"], "Bearer ") && h["Authorization"][7..] == token
  {
    var auth := "Bearer " + token;
    assert auth[7..] == token;
    map["Authorization" := auth, "Content-Type" := Json, "Accept" := Json]
  }

  /**
   * `createCustomHeaders`: the JSON defaults spread first and the caller's
   * entries second, so a caller entry replaces a default of the same name.
   */
  function CreateCustomHeaders(headers: HeaderMap): (h: HeaderMap)
    ensures h.Keys == JsonDefaults().Keys + headers.Keys
    ensures forall k :: k in headers ==> h[k] == headers[k]
    ensures forall k :: k in JsonDefaults() && k !in headers ==> h[k] == JsonDefaults()[k]
  {
    JsonDefaults() + headers
  }

  /** `getDefaultHeaders`: the JSON defaults and the service's User-Agent. */
  function GetDefaultHeaders(): HeaderMap {
    map["Content-Type" := Json, "Accept" := Json, "User-Agent" := "Health-Service/1.0.0"]
  }

  /** The default headers are the custom headers built from the User-Agent alone. */
  lemma DefaultHeadersAreCustom()
    ensures GetDefaultHeaders() == CreateCustomHeaders(map["User-Agent" := "Health-Service/1.0.0"])
    ensures |GetDefaultHeaders()| == 3
  {
    var d := GetDefaultHeaders();
    var c := CreateCustomHeaders(map["User-Agent" := "Health-Service/1.0.0"]);
    assert d.Keys == c.Keys;
    assert d.Keys == {"Content-Type", "Accept", "User-Agent"};
  }

  /** A caller entry always wins, and the JSON defaults survive any caller without them. */
  lemma CustomHeadersKeepDefaults(headers: HeaderMap)
    requires "Content-Type" !in headers && "Accept" !in headers
    ensures CreateCustomHeaders(headers)["Content-Type"] == Json
    ensures CreateCustomHeaders(headers)["Accept"] == Json
    ensures |CreateCustomHeaders(headers)| == |headers| + 2
  {
    var h := CreateCustomHeaders(headers);
    assert h.Keys == headers.Keys + {"Content-Type", "Accept"};
    assert headers.Keys !! {"Content-Type", "Accept"};
  }
}
