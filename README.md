# Log-ingestion relay: authentication and forwarding

A Dafny model of the request-decision logic of a small relay written in Python
(`app.py`). The relay accepts gzip-compressed log batches and forwards them to
the Azure Monitor HTTP Data Collector API.

For each `POST /` request, the handler `func` does the following, in order:

- It checks the Basic credential carried in the comma-separated Authorization
  header against `BASIC_AUTH`, and picks out the passthrough SharedKey
  credential.
- It defaults `Log-Type` and normalises `x-ms-date`.
- It decompresses the body.
- It forwards the body with the passthrough credential (`post_data_auth`).
- If that attempt raises `ProcessingException`, it forwards the body once more,
  signed with the configured workspace id and shared key (`post_data`,
  `build_signature`).

The model follows the code's own control flow, including which exceptions are
caught where.

Modules:

- `Prelude` (prelude.dfy): Option, Result and a byte type.
- `Foreign` (prelude.dfy): the library functions the relay calls but does not
  implement: gzip inflation, HMAC-SHA256, base64 encode and decode, and UTF-8
  encoding. They are fields of a `Lib` record of total function values, so
  the properties hold for any implementation of them. The exceptions are
  `Relay.BasicThenSharedKey`, `Relay.BasicValueOfWellFormed` and
  `Relay.WellFormedRequestAuthenticated`. These require `BASIC_AUTH`, the
  output of `b64encode`, to be non-empty base64 text.
- `PyStr` (pystr.dfy): the Python `str` semantics the header handling relies
  on:
  - `t in s`
  - `s.split(sep)` and `sep.join(parts)`
  - `s.strip()` with CPython's whitespace set
  - `s.replace(a, b)`, scanning left to right without overlap
  - `str(n)`
- `Settings` (settings.dfy): the configuration record, the module constants,
  `BASIC_AUTH`, `URI`, and the exception classes that steer control flow.
- `Signature` (signature.dfy): `build_signature`, its canonical string, and the
  `strftime('%a, %d %b %Y %H:%M:%S GMT')` date of RFC 1123 section 5.2.14.
- `Downstream` (downstream.dfy): `post`, `post_data_auth` and `post_data`.
  - The endpoint is an oracle: `Endpoint = (nat, Call) -> Answer` gives the
    answer to the n-th call.
  - An answer is a status with a flag saying whether its body parses as JSON,
    or a transport failure.
  - Every call made is appended to a trace.
- `Relay` (relay.dfy): the credential loop (`ScanCredentials`, a method
  proved against the recursive function `Scan`, whose meaning the lemma
  `ScanMeaning` states), header defaulting and normalisation, and the handler
  (`Handle`, split into `Authorize`, `Deliver` and `Forward`).
  - `Handle` returns the reply and the trace of outbound calls.
  - A reply is `Reply(status, success)`, or `Unhandled` when an exception
    escapes the handler and the web framework answers 500 on its own
    (`StatusOf`).

Behaviours of the code worth knowing:

- Tokens are classified by substring (`"Basic" in auth`), so a token need not
  start with the scheme name.
- Only `ProcessingException` triggers the fallback, meaning a non-2xx answer
  with a JSON body. On the first attempt, the following give 500 after one
  call:
  - a transport failure;
  - a non-2xx answer whose body is not JSON (`ValueError`).
- Not every failure is caught.
  - A request without an Authorization header raises before the `try`.
  - On the second attempt, every failure other than `ProcessingException` is
    raised inside the `except ProcessingException` handler and escapes the
    handler. This covers a non-JSON error body, a transport failure, and a
    shared key that is not base64.
  - The model answers `Unhandled` in all these cases.
- A Basic token without the "Basic " separator raises `IndexError`. The generic
  handler catches it and answers 500, not 401.
- The two attempts send different content types: the first sends
  `application/json; charset=UTF-8`, the second `application/json`.

## Model

| member | source | states |
|---|---|---|
| PyStr.Find | app.py:120 | `t in s` as a search: the index found is an occurrence and no earlier index is one; None exactly when `t` occurs nowhere |
| PyStr.Contains | app.py:120 | definition only: `t in s` is `Find(s, t)` succeeding, whose contract gives its meaning |
| PyStr.Split | app.py:114 | `split` returns at least one piece, and two or more exactly when the separator occurs |
| PyStr.SplitHead | app.py:122 | the first piece of `s.split(sep)` is the prefix of `s` up to the first occurrence of `sep`, or all of `s` when there is none |
| PyStr.Join | app.py:142 | definition only: `sep.join(parts)`; its meaning is stated by `JoinSplit`, `SplitJoin` and `JoinCons` |
| PyStr.JoinSplit | app.py:142 | joining the pieces of `s.split(sep)` with `sep` gives `s` back |
| PyStr.SplitJoin | app.py:142 | splitting a `join` on a one-character separator that no part holds gives the parts back |
| PyStr.Strip | app.py:121 | `strip()` leaves no whitespace at either end, is empty exactly when every character is whitespace, and keeps only characters of its input; `StripIsSlice` pins down which characters |
| PyStr.StripIsSlice | app.py:121 | `strip()` returns the contiguous slice of its input between the leading and the trailing whitespace |
| PyStr.StripSpaced | app.py:126 | a string with no whitespace at its ends strips to itself, also behind one leading space |
| PyStr.StripEach | app.py:142 | the list comprehension strips each piece, position by position |
| PyStr.Replace | app.py:142 | definition only: `s.replace(a, b)`, left to right without overlap; its meaning is stated by the `ReplaceUtc` lemmas below |
| PyStr.ReplaceUtcLeavesNone | app.py:142 | after `replace("UTC", "GMT")` no "UTC" remains, including one that would straddle a replacement |
| PyStr.ReplaceUtcWithoutU | app.py:142 | a string without 'U' is left unchanged by the replacement |
| PyStr.ReplaceUtcAfter | app.py:142 | the first "UTC" after a stretch without 'U' becomes "GMT" and the scan continues after it |
| PyStr.ReplaceTwoUtc | app.py:142 | two "UTC" labels, each after a stretch without 'U', both become "GMT" and nothing else changes |
| PyStr.JoinCons | app.py:142 | `join` puts exactly one separator between the first piece and the join of the rest |
| PyStr.ReplaceUtcFront | app.py:142 | a leading "UTC" becomes "GMT" and the scan continues after it |
| PyStr.ReplaceCons | app.py:142 | a leading character other than 'U' is kept and the scan continues from the next one |
| PyStr.JoinWithLongerSeparator | app.py:142 | joining with ", " is joining with "," after putting a space before every piece but the first |
| PyStr.NatToString | app.py:72 | `str(n)` is a non-empty string of decimal digits with no leading zero |
| PyStr.DecimalRoundTrip | app.py:72 | `str(n)` reads back as `n` |
| PyStr.NatToStringLength4 | app.py:95 | a four-digit year prints as four characters |
| Settings.BasicAuth | app.py:45 | definition only: the base64 text of the UTF-8 bytes of "<username>:<password>" |
| Settings.Uri | app.py:53 | `URI` is "https://", then the workspace id, and ends with the resource path and API version |
| Signature.StringToSign | app.py:71-72 | definition only: the canonical string; `SigningStringFields` and `SigningStringInjective` state its meaning |
| Signature.BuildSignature | app.py:70-77 | the result is present exactly when the shared key base64-decodes (otherwise `b64decode` raises), and starts with "SharedKey <customer id>:" |
| Signature.SigningStringFields | app.py:71-72 | the canonical string splits on line breaks back into method, `str(length)`, content type, "x-ms-date:" + date and resource |
| Signature.SigningStringInjective | app.py:72 | two signing requests whose fields hold no line break sign the same string only if all five fields are equal |
| Signature.Pad2 | app.py:95 | `%d`, `%H`, `%M` and `%S` print two decimal digits that read back as the number printed |
| Signature.WeekdayName | app.py:95 | `%a` prints three characters |
| Signature.MonthName | app.py:95 | `%b` prints three characters |
| Signature.Clock | app.py:95 | `%H:%M:%S` prints eight characters with no line break, whose three two-digit fields read back as the hour, minute and second |
| Signature.Rfc1123Shape | app.py:95 | for four-digit years the date is 29 characters, ends in " GMT" and holds no line break |
| Signature.Rfc1123Date | app.py:95 | definition only: `strftime('%a, %d %b %Y %H:%M:%S GMT')` of the UTC time; its meaning is stated by `Rfc1123Shape`, `Rfc1123Positions`, `Rfc1123ReadBack` and `Rfc1123Example` |
| Signature.Rfc1123Positions | app.py:95 | for four-digit years the weekday, day, month, year and clock fields sit at the fixed RFC 1123 positions |
| Signature.Rfc1123ReadBack | app.py:95 | for four-digit years the day, year, hour, minute and second read back from the date at their fixed positions |
| Signature.DateFields | app.py:95 | the date template places fields of widths 3, 2, 3, 4 and 8 at offsets 0, 5, 8, 12 and 17 |
| Signature.Rfc1123Example | app.py:95 | 1 January 2024 00:00:00 formats as "Mon, 01 Jan 2024 00:00:00 GMT" |
| Downstream.Accepts | app.py:83 | definition only: a 2xx answer |
| Downstream.Rejects | app.py:83-89 | definition only: a non-2xx answer with a JSON body, on which `post` raises `ProcessingException` |
| Downstream.Post | app.py:80-89 | one call is appended to the trace; the result is accepted exactly on 2xx; `ProcessingException` (with the status) exactly on other statuses with a JSON body; `ValueError` exactly on a non-JSON one; `RequestException` exactly on a transport failure |
| Downstream.PostDataAuth | app.py:108-109 | sends the given headers and body once; accepted exactly on 2xx, `ProcessingException` exactly on a rejection with a JSON body |
| Downstream.SignedHeaders | app.py:97-102 | the signed header map has exactly the keys content-type, Authorization, Log-Type and x-ms-date |
| Downstream.PostData | app.py:94-103 | a shared key that is not base64 raises `ValueError` and sends nothing; otherwise it sends one call whose Authorization is the signature over the RFC 1123 date of `now` and the given length, whose x-ms-date is that same date, and whose body is the given body; accepted and `ProcessingException` as for `post` |
| Relay.BasicValue | app.py:122 | `auth.strip().split("Basic ")[1]` exists exactly when the stripped token contains "Basic "; `BasicValueText` says which text it is |
| Relay.BasicValueText | app.py:122 | the value is the text after the first "Basic " of the stripped token, up to the next "Basic " or the end |
| Relay.LastWithIsLastMatch | app.py:125-126 | the credential picked is the stripped token at the last index whose token contains the word |
| Relay.LastWithNone | app.py:117 | with no token containing the word, the pick stays "" |
| Relay.NoBasicIffEmpty | app.py:127-129 | `basic_auth_header == ''` after the loop exactly when no token contains "Basic" |
| Relay.TokenFault | app.py:120-124 | the check raises nothing on a token exactly when it has no "Basic" or its value after "Basic " is `BASIC_AUTH`; it raises `IndexError` when the stripped token has no "Basic ", and `UnAuthorizedException` when the value differs |
| Relay.Take | app.py:120-126 | definition only: one loop step keeps a token containing "Basic" or "SharedKey" as the new pick, stripped |
| Relay.ScanFrom | app.py:119-126 | definition only: the loop from a given token on with the picks held so far; `ScanMeaning`, `ScanPasses` and `ScanStopsAt` state its meaning |
| Relay.Scan | app.py:119-126 | definition only: the loop from the first token with both picks "" |
| Relay.ScanCredentials | app.py:119-126 | the loop ends as `Scan` says: token by token it raises what the check raises, and otherwise keeps the last Basic and last SharedKey tokens seen, stripped |
| Relay.ScanMeaning | app.py:119-126 | the loop runs to the end exactly when every Basic token carries `BASIC_AUTH`, and then holds the last Basic and last SharedKey tokens, stripped; otherwise it stops at the first offending token, raising `IndexError` when that token has no "Basic " and `UnAuthorizedException` when its value differs |
| Relay.ScanPasses | app.py:119-126 | when every token passes, the loop from any token on ends holding the last Basic and SharedKey picks over all tokens |
| Relay.ScanStopsAt | app.py:119-124 | when every token before a failing one passes, the loop raises that token's exception whatever it held so far |
| Relay.FirstFaultUnique | app.py:119-124 | the loop can stop at one token only |
| Relay.FirstFaultAtOrBefore | app.py:119-124 | an offending token means the loop stops at it or at an earlier one |
| Relay.MismatchUnauthorized | app.py:122-124 | a Basic token with the wrong value gives 401 even if another Basic token is right, provided no earlier Basic token lacks "Basic " |
| Relay.BasicValueOfWellFormed | app.py:122 | the token "Basic <v>" with base64 `v` yields `v` |
| Relay.BasicThenSharedKey | app.py:114-126 | "Basic <BASIC_AUTH>,<token>" splits into those two tokens and passes the loop, and a SharedKey token becomes the passthrough credential, stripped |
| Relay.LogTypeOf | app.py:131-135 | Log-Type is "Unspecified" when the header is absent and the value verbatim otherwise |
| Relay.NormalizeDate | app.py:142 | the normalised date holds no "UTC" |
| Relay.XMsDateOf | app.py:138-142 | x-ms-date is "" when the header is absent and the normalised value otherwise, never holding "UTC" |
| Relay.NormalizeCanonical | app.py:142 | on pieces already trimmed and joined with ", ", the split/strip/rejoin returns the same text, so only "UTC" changes |
| Relay.NormalizeTwoUtcDates | app.py:142 | two dates labelled UTC come back unchanged except labelled GMT |
| Relay.NormalizeDateExample | app.py:142 | "Tue, 01 Jan 2024 00:00:00 UTC, Tue, 01 Jan 2024 00:00:01 UTC" becomes "Tue, 01 Jan 2024 00:00:00 GMT, Tue, 01 Jan 2024 00:00:01 GMT" |
| Relay.AuthTokens | app.py:114 | the header splits into at least one token, and the tokens joined with "," give the header back |
| Relay.PassthroughHeaders | app.py:143-148 | the first attempt's header map has exactly the keys Content-Type, Authorization, Log-Type and x-ms-date |
| Relay.Decompress | app.py:158 | an empty body decompresses to nothing |
| Relay.Authorize | app.py:119-129 | the request passes exactly when every Basic token carries `BASIC_AUTH` and there is one, and then yields the last SharedKey token; it is refused with 401 exactly in the two unauthorised cases, and with 500 when the first offending token lacks "Basic " |
| Relay.Handle | app.py:112-188 | no Authorization header escapes with no call; 401 exactly when unauthorised, always with no call; no call unless the credentials pass; once they pass, the rest is `Delivered`; the status is always 200, 400, 401 or 500, and success is reported exactly with 200 |
| Relay.StatusOf | app.py:112-188 | definition only: the status sent, 500 when an exception escapes the handler |
| Relay.WellFormedRequestAuthenticated | app.py:114-129 | a header "Basic <BASIC_AUTH>,<SharedKey token>" passes the checks and forwards that token, stripped |
| Relay.Deliver | app.py:130-186 | after the credential checks: a malformed gzip stream gives 500 and an empty decompression gives 400 (empty body) or 500, both without a call; otherwise the first call carries the decompressed body, the passthrough credential, the Log-Type and the normalised date; there is a second call exactly when the first is rejected with a JSON body and the shared key decodes; the reply is 200 exactly when the last call is accepted |
| Relay.FallbackAttempts | app.py:175-183 | on fallback both attempts carry the same body and Log-Type, the second is signed over that body's length and the date it sends, and the reply is 200 exactly when the second is accepted, 500 otherwise |
| Relay.Forward | app.py:167-186 | one or two calls; the second exactly on a `ProcessingException` with a decodable shared key, signed by `post_data` over the same body; 200 exactly when the last call is accepted; otherwise 500 after one call (or `Unhandled` when the shared key does not decode), and 500 or `Unhandled` after two |

## Left out

- Flask setup, routing, the logging configuration and every `app.logger` call: the logged text carries no contract.
- The `requests.Session` pool and the HTTP transport: the endpoint is an oracle of answers, one per call. Timeouts and concurrency are not modelled.
- The internals of gzip, HMAC-SHA256, base64, UTF-8 and JSON: they are the uninterpreted functions of `Foreign.Lib`. JSON parsing of an error body is the answer's `jsonBody` flag.
- `datetime.utcnow()`: the clock reading is the `now` parameter.
- Environment-variable loading, the start-up checks, the health endpoint and the companion echo server (test.py): these are bootstrap and plumbing with no decision logic.
- Header lookup in the inbound request is case-insensitive in Flask. The model receives the three headers already looked up.
- Signature.BuildSignature: its contract states when signing succeeds and the "SharedKey <id>:" prefix. The digest after the colon is whatever the `Lib` functions compute on the canonical string, and that is stated only by the definition.
- Signature.Rfc1123Shape: it covers four-digit years only; `%Y` prints shorter years unpadded.
- Relay.Decompress: gzip's handling of malformed streams, trailing garbage and multiple members is left to `Lib.gunzip`. Only the empty body, which CPython decompresses to `b""`, is fixed by the model.
