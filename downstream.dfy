/**
 * The calls to the Log Analytics Data Collector endpoint: `post`, which sends
 * one request and classifies the answer, and its two callers `post_data_auth`
 * (headers from the inbound request) and `post_data` (a freshly signed
 * request). The endpoint is an oracle: what it answers to each call is a
 * parameter, and every call made is appended to a trace.
 */
module Downstream {
  import opened Prelude
  import opened Foreign
  import opened Settings
  import opened Signature

  type Headers = map<string, string>

  /** One outbound POST: the URL, its header map and its body. */
  datatype Call = Call(uri: string, headers: Headers, body: Bytes)

  /** What one POST comes back with: a status and whether the body parses as JSON, or a transport failure. */
  datatype Answer = Response(status: int, jsonBody: bool) | TransportFailure

  /** The endpoint's answer to the n-th call of the request being handled (counting from 0). */
  type Endpoint = (nat, Call) -> Answer

  /** The normal return of `post`, or the exception it raises. */
  datatype PostResult = Accepted | Raised(exc: Exception)

  /** `post` accepts exactly the 2xx statuses. */
  predicate Accepts(a: Answer) {
    a.Response? && 200 <= a.status <= 299
  }

  /** An answer on which `post` raises `ProcessingException`: not 2xx, with a JSON body. */
  predicate Rejects(a: Answer) {
    a.Response? && !Accepts(a) && a.jsonBody
  }

  /**
   * `post`: send one request and return normally on a 2xx status. Any other
   * status raises `ProcessingException` once the body has been read as JSON;
   * a body that is not JSON raises `ValueError` first; a transport failure
   * raises the client library's `RequestException`.
   */
  method Post(uri: string, headers: Headers, body: Bytes, endpoint: Endpoint, sent: seq<Call>)
    returns (r: PostResult, sent': seq<Call>)
    ensures sent' == sent + [Call(uri, headers, body)]
    ensures var a := endpoint(|sent|, Call(uri, headers, body));
      (r.Accepted? <==> Accepts(a))
      && (r.Raised? && r.exc.ProcessingException? <==> Rejects(a))
      && (r.Raised? && r.exc.ProcessingException? ==> r.exc.status == a.status)
      && (r == Raised(ValueError) <==> a.Response? && !Accepts(a) && !a.jsonBody)
      && (r == Raised(RequestException) <==> a.TransportFailure?)
  {
    var call := Call(uri, headers, body);
    var answer := endpoint(|sent|, call);
    sent' := sent + [call];
    match answer
    case TransportFailure =>
      r := Raised(RequestException);
    case Response(status, jsonBody) =>
      if 200 <= status && status <= 299 {
        r := Accepted;
      } else if !jsonBody {
        r := Raised(ValueError);
      } else {
        r := Raised(ProcessingException(status));
      }
  }

  /** `post_data_auth`: forward with the header map built from the inbound request. */
  method PostDataAuth(uri: string, headers: Headers, body: Bytes, endpoint: Endpoint, sent: seq<Call>)
    returns (r: PostResult, sent': seq<Call>)
    ensures sent' == sent + [Call(uri, headers, body)]
    ensures r.Accepted? <==> Accepts(endpoint(|sent|, Call(uri, headers, body)))
    ensures r.Raised? && r.exc.ProcessingException? <==> Rejects(endpoint(|sent|, Call(uri, headers, body)))
  {
    r, sent' := Post(uri, headers, body, endpoint, sent);
  }

  /** The header map `post_data` sends, carrying its own signature and date. */
  function SignedHeaders(authorization: string, logType: string, date: string): (h: Headers)
    ensures h.Keys == {"content-type", "Authorization", "Log-Type", "x-ms-date"}
  {
    map["content-type" := ContentType, "Authorization" := authorization, "Log-Type" := logType, "x-ms-date" := date]
  }

  /**
   * `post_data`: stamp the request with the current time, sign it with the
   * given workspace id and shared key for a POST of `length` bytes of
   * application/json to /api/logs, and send it. When the shared key is not
   * base64, signing raises and nothing is sent.
   */
  method PostData(customerId: string, sharedKey: string, body: Bytes, logType: string, length: nat,
                  now: UtcTime, lib: Lib, uri: string, endpoint: Endpoint, sent: seq<Call>)
    returns (r: PostResult, sent': seq<Call>)
    requires now.Valid()
    ensures lib.b64decode(sharedKey).None? ==> r == Raised(ValueError) && sent' == sent
    ensures lib.b64decode(sharedKey).Some? ==> |sent'| == |sent| + 1 && sent'[..|sent|] == sent
    ensures lib.b64decode(sharedKey).Some? ==>
      var signature := BuildSignature(customerId, sharedKey, Rfc1123Date(now), length, PostMethod, ContentType, Resource, lib);
      sent'[|sent|] == Call(uri, SignedHeaders(signature.value, logType, Rfc1123Date(now)), body)
    ensures lib.b64decode(sharedKey).Some? ==>
      (r.Accepted? <==> Accepts(endpoint(|sent|, sent'[|sent|])))
      && (r.Raised? && r.exc.ProcessingException? <==> Rejects(endpoint(|sent|, sent'[|sent|])))
  {
    var date := Rfc1123Date(now);
    var signature := BuildSignature(customerId, sharedKey, date, length, PostMethod, ContentType, Resource, lib);
    if signature.None? {
      r, sent' := Raised(ValueError), sent;
      return;
    }
    var headers := SignedHeaders(signature.value, logType, date);
    r, sent' := Post(uri, headers, body, endpoint, sent);
  }
}
