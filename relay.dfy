/**
 * The relay's POST handler (`func`): check the Basic credential carried in the
 * comma-separated Authorization header, pick out the passthrough SharedKey
 * credential, default and normalise Log-Type and x-ms-date, decompress the
 * body, forward it with the passthrough credential and, only when the
 * endpoint answers that attempt with `ProcessingException`, forward it once
 * more signed with the configured workspace id and shared key.
 */
module Relay {
  import opened Prelude
  import opened Foreign
  import opened PyStr
  import opened Settings
  import opened Signature
  import opened Downstream

  /** The parts of an inbound request the handler reads; an absent header is None. */
  datatype Request = Request(authorization: Option<string>, logType: Option<string>, xMsDate: Option<string>, body: Bytes)

  /**
   * What the handler answers: a status with the JSON body {"success": ...},
   * or an exception that escapes the handler (the web framework then answers
   * 500 with its own error page).
   */
  datatype Reply = Reply(status: int, success: bool) | Unhandled

  function StatusOf(reply: Reply): int {
    if reply.Unhandled? then 500 else reply.status
  }

  /** The last Basic token and the last SharedKey token seen, stripped ("" when none). */
  datatype Credentials = Credentials(basic: string, sharedKey: string)

  // ---------------------------------------------------------------------------
  // The credential loop
  // ---------------------------------------------------------------------------

  /**
   * `auth.strip().split("Basic ")[1]` for a token classified as Basic; None
   * where the stripped token has no "Basic " in it and the indexing raises
   * `IndexError`.
   */
  function BasicValue(token: string): (v: Option<string>)
    ensures v.Some? <==> Contains(Strip(token), "Basic ")
  {
    var parts := Split(Strip(token), "Basic ");
    if |parts| < 2 then None else Some(parts[1])
  }

  /**
   * The value is the text of the stripped token after its first "Basic ", up
   * to the next "Basic " or to the end: "Basic abc Basic def" yields "abc ".
   */
  lemma BasicValueText(token: string)
    requires BasicValue(token).Some?
    ensures var t := Strip(token);
      var rest := t[Find(t, "Basic ").value + 6..];
      var v := BasicValue(token).value;
      |v| <= |rest| && v == rest[..|v|]
      && (forall j :: 0 <= j < |v| ==> !OccursAt(rest, "Basic ", j))
      && (|v| == |rest| || OccursAt(rest, "Basic ", |v|))
  {
    var t := Strip(token);
    var i := Find(t, "Basic ").value;
    var rest := t[i + 6..];
    assert Split(t, "Basic ") == [t[..i]] + Split(rest, "Basic ");
    SplitHead(rest, "Basic ");
  }

  /**
   * What the loop's Basic check raises on one token: nothing when the token
   * has no "Basic" in it or its value is `basicAuth`; `IndexError` when it has
   * no "Basic " to split on; `UnAuthorizedException` when its value differs.
   */
  function TokenFault(token: string, basicAuth: string): (raised: Option<Exception>)
    ensures raised.None? <==> !Contains(token, "Basic") || BasicValue(token) == Some(basicAuth)
    ensures raised.Some? ==> raised.value == if BasicValue(token).None? then IndexError else UnAuthorizedException
  {
    if !Contains(token, "Basic") then None
    else match BasicValue(token)
      case None => Some(IndexError)
      case Some(v) => if v == basicAuth then None else Some(UnAuthorizedException)
  }

  /** The loop lets a token pass: it is not a Basic token, or its value is `BASIC_AUTH`. */
  predicate BasicOk(token: string, basicAuth: string) {
    TokenFault(token, basicAuth).None?
  }

  /** Every token passes the Basic check: the loop runs to the end. */
  ghost predicate AllBasicOk(tokens: seq<string>, basicAuth: string) {
    forall i :: 0 <= i < |tokens| ==> BasicOk(tokens[i], basicAuth)
  }

  /** Token `i` is the first one the loop raises on. */
  ghost predicate FirstFault(tokens: seq<string>, basicAuth: string, i: int) {
    0 <= i < |tokens| && !BasicOk(tokens[i], basicAuth)
    && forall j :: 0 <= j < i ==> BasicOk(tokens[j], basicAuth)
  }

  ghost predicate HasToken(tokens: seq<string>, word: string) {
    exists i :: 0 <= i < |tokens| && Contains(tokens[i], word)
  }

  /** The last token containing `word`, stripped; "" when no token contains it. */
  ghost function LastWith(tokens: seq<string>, word: string): string {
    LastWithBefore(tokens, |tokens|, word)
  }

  /** `LastWith` over the first `n` tokens: what the loop holds after `n` iterations. */
  ghost function LastWithBefore(tokens: seq<string>, n: int, word: string): string
    requires 0 <= n <= |tokens|
    decreases n
  {
    if n == 0 then ""
    else if Contains(tokens[n - 1], word) then Strip(tokens[n - 1])
    else LastWithBefore(tokens, n - 1, word)
  }

  /** Last match wins: `LastWith` is the stripped token at the last index whose token contains `word`. */
  lemma LastWithIsLastMatch(tokens: seq<string>, word: string, k: int)
    requires 0 <= k < |tokens| && Contains(tokens[k], word)
    requires forall j :: k < j < |tokens| ==> !Contains(tokens[j], word)
    ensures LastWith(tokens, word) == Strip(tokens[k])
  {
    LastMatchBefore(tokens, word, k, |tokens|);
  }

  lemma {:induction false} LastMatchBefore(tokens: seq<string>, word: string, k: int, n: int)
    requires 0 <= k < n <= |tokens| && Contains(tokens[k], word)
    requires forall j :: k < j < n ==> !Contains(tokens[j], word)
    ensures LastWithBefore(tokens, n, word) == Strip(tokens[k])
    decreases n
  {
    if k < n - 1 {
      assert !Contains(tokens[n - 1], word);
      LastMatchBefore(tokens, word, k, n - 1);
    }
  }

  /** With no token containing `word`, nothing is picked up. */
  lemma LastWithNone(tokens: seq<string>, word: string)
    requires !HasToken(tokens, word)
    ensures LastWith(tokens, word) == ""
  {
    NoMatchBefore(tokens, word, |tokens|);
  }

  lemma {:induction false} NoMatchBefore(tokens: seq<string>, word: string, n: int)
    requires 0 <= n <= |tokens| && forall j :: 0 <= j < n ==> !Contains(tokens[j], word)
    ensures LastWithBefore(tokens, n, word) == ""
    decreases n
  {
    if n > 0 {
      NoMatchBefore(tokens, word, n - 1);
    }
  }

  /** A token holding a word without whitespace strips to a non-empty string. */
  lemma StrippedWordNonEmpty(token: string, word: string)
    requires |word| > 0 && !IsSpace(word[0]) && Contains(token, word)
    ensures Strip(token) != ""
  {
    var k := Find(token, word).value;
    assert token[k] == word[0];
  }

  /**
   * `basic_auth_header == ''` after the loop exactly when no token contains
   * "Basic": a Basic token never strips to the empty string.
   */
  lemma NoBasicIffEmpty(tokens: seq<string>)
    ensures LastWith(tokens, "Basic") == "" <==> !HasToken(tokens, "Basic")
  {
    if HasToken(tokens, "Basic") {
      var k :| 0 <= k < |tokens| && Contains(tokens[k], "Basic");
      LastBasicNonEmpty(tokens, k, |tokens|);
    } else {
      LastWithNone(tokens, "Basic");
    }
  }

  /** Once a Basic token has been seen, the Basic pick is never empty. */
  lemma {:induction false} LastBasicNonEmpty(tokens: seq<string>, k: int, n: int)
    requires 0 <= k < n <= |tokens| && Contains(tokens[k], "Basic")
    ensures LastWithBefore(tokens, n, "Basic") != ""
    decreases n
  {
    if Contains(tokens[n - 1], "Basic") {
      StrippedWordNonEmpty(tokens[n - 1], "Basic");
    } else {
      LastBasicNonEmpty(tokens, k, n - 1);
    }
  }

  /**
   * What the `for auth in auth_headers` loop ends with when started at token
   * `i` holding `kept`: a token containing "Basic" is stripped and its value
   * after "Basic " must be `basicAuth`, else the loop raises (`IndexError` when
   * there is no "Basic " to split on, `UnAuthorizedException` on a mismatch);
   * a token containing "SharedKey" becomes, stripped, the passthrough
   * credential. Both keep the last one seen.
   */
  function ScanFrom(tokens: seq<string>, basicAuth: string, i: nat, kept: Credentials): Result<Credentials, Exception>
    requires i <= |tokens|
    decreases |tokens| - i
  {
    if i == |tokens| then Success(kept)
    else
      match TokenFault(tokens[i], basicAuth)
      case Some(e) => Failure(e)
      case None => ScanFrom(tokens, basicAuth, i + 1, Take(tokens[i], kept))
  }

  /** The loop's outcome over all tokens, starting from two empty credentials. */
  function Scan(tokens: seq<string>, basicAuth: string): Result<Credentials, Exception> {
    ScanFrom(tokens, basicAuth, 0, Credentials("", ""))
  }

  /** The credential loop itself, proved to end as `Scan` says. */
  method ScanCredentials(tokens: seq<string>, basicAuth: string) returns (r: Result<Credentials, Exception>)
    ensures r == Scan(tokens, basicAuth)
  {
    var basic, shared := "", "";
    var i := 0;
    while i < |tokens|
      invariant 0 <= i <= |tokens|
      invariant ScanFrom(tokens, basicAuth, i, Credentials(basic, shared)) == Scan(tokens, basicAuth)
    {
      var auth := tokens[i];
      ghost var kept := Credentials(basic, shared);
      if Contains(auth, "Basic") {
        var parts := Split(Strip(auth), "Basic ");
        if |parts| < 2 {
          assert TokenFault(auth, basicAuth) == Some(IndexError);
          return Failure(IndexError);
        }
        if parts[1] != basicAuth {
          assert TokenFault(auth, basicAuth) == Some(UnAuthorizedException);
          return Failure(UnAuthorizedException);
        }
        basic := Strip(auth);
      }
      if Contains(auth, "SharedKey") {
        shared := Strip(auth);
      }
      ScanStep(tokens, basicAuth, i, kept);
      i := i + 1;
    }
    return Success(Credentials(basic, shared));
  }

  /** What the loop holds after the first `n` tokens have passed. */
  ghost function KeptBefore(tokens: seq<string>, n: int): Credentials
    requires 0 <= n <= |tokens|
  {
    Credentials(LastWithBefore(tokens, n, "Basic"), LastWithBefore(tokens, n, "SharedKey"))
  }

  /**
   * The loop's meaning: it runs to the end exactly when every Basic token
   * carries `basicAuth`, and then holds the last Basic and the last SharedKey
   * token, stripped; otherwise it raises at the first token that fails, with
   * `IndexError` when that token has no "Basic " and `UnAuthorizedException`
   * when its value differs.
   */
  lemma ScanMeaning(tokens: seq<string>, basicAuth: string) returns (fault: int)
    ensures Scan(tokens, basicAuth).Success? <==> AllBasicOk(tokens, basicAuth)
    ensures Scan(tokens, basicAuth).Success? ==>
      Scan(tokens, basicAuth).value == Credentials(LastWith(tokens, "Basic"), LastWith(tokens, "SharedKey"))
    ensures Scan(tokens, basicAuth).Failure? ==> FirstFault(tokens, basicAuth, fault)
    ensures Scan(tokens, basicAuth).Failure? ==>
      Scan(tokens, basicAuth).error == if BasicValue(tokens[fault]).None? then IndexError else UnAuthorizedException
  {
    if AllBasicOk(tokens, basicAuth) {
      ScanPasses(tokens, basicAuth, 0);
      fault := |tokens|;
    } else {
      var i :| 0 <= i < |tokens| && !BasicOk(tokens[i], basicAuth);
      fault := FirstFaultAtOrBefore(tokens, basicAuth, i);
      PassFromAll(tokens, basicAuth, 0, fault);
      ScanStopsAt(tokens, basicAuth, 0, fault, Credentials("", ""));
    }
  }

  /** When every token passes, the loop from token `i` on ends holding the last picks. */
  lemma {:induction false} ScanPasses(tokens: seq<string>, basicAuth: string, i: int)
    requires 0 <= i <= |tokens| && AllBasicOk(tokens, basicAuth)
    ensures ScanFrom(tokens, basicAuth, i, KeptBefore(tokens, i))
      == Success(Credentials(LastWith(tokens, "Basic"), LastWith(tokens, "SharedKey")))
    decreases |tokens| - i
  {
    if i < |tokens| {
      ScanStep(tokens, basicAuth, i, KeptBefore(tokens, i));
      KeptStep(tokens, i);
      ScanPasses(tokens, basicAuth, i + 1);
    }
  }

  /** The credentials the loop holds after taking token `i` on top of `kept`. */
  function Take(auth: string, kept: Credentials): Credentials {
    Credentials(if Contains(auth, "Basic") then Strip(auth) else kept.basic,
                if Contains(auth, "SharedKey") then Strip(auth) else kept.sharedKey)
  }

  /** A token that passes moves the loop on to the next one. */
  lemma ScanStep(tokens: seq<string>, basicAuth: string, i: int, kept: Credentials)
    requires 0 <= i < |tokens| && BasicOk(tokens[i], basicAuth)
    ensures ScanFrom(tokens, basicAuth, i, kept) == ScanFrom(tokens, basicAuth, i + 1, Take(tokens[i], kept))
  {
  }

  /** The picks after `n + 1` tokens are the picks after `n` with token `n` taken. */
  lemma KeptStep(tokens: seq<string>, n: int)
    requires 0 <= n < |tokens|
    ensures KeptBefore(tokens, n + 1) == Take(tokens[n], KeptBefore(tokens, n))
  {
  }

  /**
   * Every token from `i` up to, not including, `k` passes the Basic check.
   * The same fact as the quantified `AllBasicOk` over a stretch, stated by
   * recursion so that the induction over the loop unfolds one token at a time;
   * `PassFromAll` converts one into the other.
   */
  ghost predicate PassFrom(tokens: seq<string>, basicAuth: string, i: int, k: int)
    requires 0 <= i <= k <= |tokens|
    decreases k - i
  {
    i == k || (BasicOk(tokens[i], basicAuth) && PassFrom(tokens, basicAuth, i + 1, k))
  }

  lemma {:induction false} PassFromAll(tokens: seq<string>, basicAuth: string, i: int, k: int)
    requires 0 <= i <= k <= |tokens|
    requires forall j :: i <= j < k ==> BasicOk(tokens[j], basicAuth)
    ensures PassFrom(tokens, basicAuth, i, k)
    decreases k - i
  {
    if i < k {
      PassFromAll(tokens, basicAuth, i + 1, k);
    }
  }

  /** The loop raises at token `k` when every token from `i` up to it passes, whatever it held at token `i`. */
  lemma {:induction false} ScanStopsAt(tokens: seq<string>, basicAuth: string, i: int, k: int, kept: Credentials)
    requires 0 <= i <= k < |tokens| && TokenFault(tokens[k], basicAuth).Some?
    requires PassFrom(tokens, basicAuth, i, k)
    ensures ScanFrom(tokens, basicAuth, i, kept) == Failure(TokenFault(tokens[k], basicAuth).value)
    decreases k - i
  {
    if i < k {
      ScanStep(tokens, basicAuth, i, kept);
      ScanStopsAt(tokens, basicAuth, i + 1, k, Take(tokens[i], kept));
    }
  }

  /** The loop raises on one token only: the first that fails. */
  lemma FirstFaultUnique(tokens: seq<string>, basicAuth: string, i: int, j: int)
    requires FirstFault(tokens, basicAuth, i) && FirstFault(tokens, basicAuth, j)
    ensures i == j
  {
  }

  /** Some token at or before `i` is the first the loop raises on. */
  lemma {:induction false} FirstFaultAtOrBefore(tokens: seq<string>, basicAuth: string, i: int) returns (j: int)
    requires 0 <= i < |tokens| && !BasicOk(tokens[i], basicAuth)
    ensures j <= i && FirstFault(tokens, basicAuth, j)
    decreases i
  {
    if k :| 0 <= k < i && !BasicOk(tokens[k], basicAuth) {
      j := FirstFaultAtOrBefore(tokens, basicAuth, k);
    } else {
      j := i;
    }
  }

  /**
   * One Basic token whose value is not `BASIC_AUTH` is enough for a 401, even
   * when another Basic token carries the right value, as long as no earlier
   * Basic token lacks the "Basic " separator (which would raise first).
   */
  lemma MismatchUnauthorized(tokens: seq<string>, basicAuth: string, i: int)
    requires 0 <= i < |tokens| && Contains(tokens[i], "Basic")
    requires BasicValue(tokens[i]).Some? && BasicValue(tokens[i]).value != basicAuth
    requires forall j :: 0 <= j < i && Contains(tokens[j], "Basic") ==> BasicValue(tokens[j]).Some?
    ensures Unauthorized(tokens, basicAuth)
  {
    var j := FirstFaultAtOrBefore(tokens, basicAuth, i);
    assert BasicValue(tokens[j]).Some?;
  }

  /** The characters of standard base64 text (section 4 of RFC 4648), as `b64encode` writes it. */
  predicate IsBase64Text(s: string) {
    forall i :: 0 <= i < |s| ==> IsBase64Char(s[i])
  }

  /** The 64 digits of the standard alphabet and the padding character. */
  predicate IsBase64Char(c: char) {
    ('A' <= c <= 'Z') || ('a' <= c <= 'z') || ('0' <= c <= '9') || c == '+' || c == '/' || c == '='
  }

  /** A base64 value holds no space, so "Basic " never occurs in it. */
  lemma Base64HasNoBasicSeparator(v: string)
    requires IsBase64Text(v)
    ensures !Contains(v, "Basic ")
  {
    forall j ensures !OccursAt(v, "Basic ", j) {
      if 0 <= j && j + 6 <= |v| {
        assert v[j..j + 6][5] == v[j + 5];
        assert v[j + 5] != ' ';
      }
    }
  }

  /** The value of the well-formed token "Basic <v>" is `v`. */
  lemma BasicValueOfWellFormed(v: string)
    requires |v| > 0 && IsBase64Text(v)
    ensures BasicValue("Basic " + v) == Some(v)
  {
    var token := "Basic " + v;
    assert token[|token| - 1] == v[|v| - 1];
    assert !IsSpace(v[|v| - 1]);
    StripSpaced(token);
    assert token[..6] == "Basic ";
    Base64HasNoBasicSeparator(v);
    assert token[6..] == v;
    assert Split(token, "Basic ") == [""] + Split(v, "Basic ");
  }

  /**
   * The header "Basic <BASIC_AUTH>,<rest>", where `rest` is one token without
   * "Basic" (typically the SharedKey credential), passes the credential checks,
   * and a SharedKey in `rest` becomes the passthrough credential, stripped.
   */
  lemma BasicThenSharedKey(basicAuth: string, rest: string)
    requires |basicAuth| > 0 && IsBase64Text(basicAuth)
    requires ',' !in rest && !Contains(rest, "Basic")
    ensures AuthTokens("Basic " + basicAuth + "," + rest) == ["Basic " + basicAuth, rest]
    ensures AllBasicOk(["Basic " + basicAuth, rest], basicAuth) && HasToken(["Basic " + basicAuth, rest], "Basic")
    ensures Contains(rest, "SharedKey") ==> LastWith(["Basic " + basicAuth, rest], "SharedKey") == Strip(rest)
  {
    var first := "Basic " + basicAuth;
    TwoTokens(first, rest);
    WellFormedBasicPasses(basicAuth);
    var tokens := [first, rest];
    assert BasicOk(tokens[0], basicAuth) && BasicOk(tokens[1], basicAuth);
    assert Contains(tokens[0], "Basic");
    if Contains(rest, "SharedKey") {
      LastWithIsLastMatch(tokens, "SharedKey", 1);
    }
  }

  /** A header of two comma-free tokens joined by a comma splits back into them. */
  lemma TwoTokens(first: string, rest: string)
    requires ',' !in first && ',' !in rest
    ensures AuthTokens(first + "," + rest) == [first, rest]
  {
    assert first + "," + rest == first + [','] + rest;
    SplitFirst(first, ',', rest);
    SplitNone(rest, ',');
    assert [','] == ",";
  }

  /** The well-formed token "Basic <v>" contains "Basic", has no comma, and passes the check against `v`. */
  lemma WellFormedBasicPasses(v: string)
    requires |v| > 0 && IsBase64Text(v)
    ensures ',' !in "Basic " + v
    ensures Contains("Basic " + v, "Basic") && BasicOk("Basic " + v, v)
  {
    var token := "Basic " + v;
    forall i | 0 <= i < |token| ensures token[i] != ',' {
      if i >= 6 { assert token[i] == v[i - 6]; }
    }
    BasicValueOfWellFormed(v);
    assert token[0..5] == "Basic";
    ContainsAt(token, "Basic", 0);
  }

  // ---------------------------------------------------------------------------
  // Header defaulting and normalisation
  // ---------------------------------------------------------------------------

  /** `Log-Type`: "Unspecified" when the header is absent, its value verbatim otherwise. */
  function LogTypeOf(header: Option<string>): (logType: string)
    ensures header.None? ==> logType == DefaultLogType
    ensures header.Some? ==> logType == header.value
  {
    match header
    case None => DefaultLogType
    case Some(v) => v
  }

  /**
   * `", ".join([each.strip() for each in v.split(",")]).replace("UTC", "GMT")`:
   * every comma-separated date trimmed, rejoined with ", ", and "UTC" relabelled
   * "GMT", so that no "UTC" is left.
   */
  function NormalizeDate(v: string): (r: string)
    ensures !Contains(r, "UTC")
  {
    var joined := Join(StripEach(Split(v, ",")), ", ");
    ReplaceUtcLeavesNone(joined);
    Replace(joined, "UTC", "GMT")
  }

  /** `x-ms-date`: "" when the header is absent, normalised otherwise. */
  function XMsDateOf(header: Option<string>): (date: string)
    ensures header.None? ==> date == ""
    ensures header.Some? ==> date == NormalizeDate(header.value)
    ensures !Contains(date, "UTC")
  {
    match header
    case None => ""
    case Some(v) => NormalizeDate(v)
  }

  /** A piece `strip()` leaves alone and that holds no comma. */
  predicate IsTrimmedPiece(q: string) {
    |q| > 0 && !IsSpace(q[0]) && !IsSpace(q[|q| - 1]) && ',' !in q
  }

  /** Trimmed pieces behind one space strip back to themselves. */
  lemma StripSpacedPieces(qs: seq<string>)
    requires |qs| >= 1 && forall k :: 0 <= k < |qs| ==> IsTrimmedPiece(qs[k])
    ensures StripEach(PrefixTail(qs, " ")) == qs
  {
    var ps := PrefixTail(qs, " ");
    var stripped := StripEach(ps);
    forall k | 0 <= k < |qs| ensures stripped[k] == qs[k] {
      StripPiece(qs[k], ps[k]);
    }
  }

  lemma StripPiece(q: string, p: string)
    requires IsTrimmedPiece(q) && (p == q || p == " " + q)
    ensures Strip(p) == q
  {
    StripSpaced(q);
  }

  /**
   * On a list already trimmed and joined with ", ", the split/strip/rejoin of
   * the normalisation gives the same text back, so the only change is "UTC"
   * relabelled "GMT".
   */
  lemma NormalizeCanonical(qs: seq<string>)
    requires |qs| >= 1 && forall k :: 0 <= k < |qs| ==> IsTrimmedPiece(qs[k])
    ensures NormalizeDate(Join(qs, ", ")) == Replace(Join(qs, ", "), "UTC", "GMT")
  {
    SplitSpacedPieces(qs);
    StripSpacedPieces(qs);
  }

  /** Splitting trimmed pieces joined with ", " at each comma leaves a space before every piece but the first. */
  lemma SplitSpacedPieces(qs: seq<string>)
    requires |qs| >= 1 && forall k :: 0 <= k < |qs| ==> IsTrimmedPiece(qs[k])
    ensures Split(Join(qs, ", "), ",") == PrefixTail(qs, " ")
  {
    assert forall k :: 0 <= k < |qs| ==> ',' !in qs[k];
    SplitAtSeparatorHead(qs, ',', " ");
    assert [','] + " " == ", " && [','] == ",";
  }

  /** Joining with `c` followed by `x` and splitting at `c` leaves `x` before every piece but the first. */
  lemma SplitAtSeparatorHead(qs: seq<string>, c: char, x: string)
    requires |qs| >= 1 && c !in x && forall k :: 0 <= k < |qs| ==> c !in qs[k]
    ensures Split(Join(qs, [c] + x), [c]) == PrefixTail(qs, x)
  {
    var ps := PrefixTail(qs, x);
    JoinWithLongerSeparator(qs, [c], x);
    forall k | 0 <= k < |ps| ensures c !in ps[k] {
      if k > 0 { assert ps[k] == x + qs[k]; }
    }
    SplitJoin(ps, c);
  }

  /** Two dates, each a weekday and a time separated by ", ", labelled with a zone and separated by ", ". */
  function TwoDates(w1: string, d1: string, w2: string, d2: string, zone: string): string {
    (w1 + ", " + d1 + " ") + zone + (", " + w2 + ", " + d2 + " ") + zone
  }

  /**
   * Two RFC 1123 dates labelled UTC, such as "Tue, 01 Jan 2024 00:00:00 UTC,
   * Tue, 01 Jan 2024 00:00:01 UTC", come back in the same form labelled GMT.
   */
  lemma NormalizeTwoUtcDates(w1: string, d1: string, w2: string, d2: string)
    requires IsTrimmedPiece(w1) && IsTrimmedPiece(d1) && IsTrimmedPiece(w2) && IsTrimmedPiece(d2)
    requires 'U' !in w1 && 'U' !in d1 && 'U' !in w2 && 'U' !in d2
    ensures NormalizeDate(TwoDates(w1, d1, w2, d2, "UTC")) == TwoDates(w1, d1, w2, d2, "GMT")
  {
    var zone := "UTC";
    var qs := [w1, d1 + " " + zone, w2, d2 + " " + zone];
    LabelledPiece(d1, "UTC");
    LabelledPiece(d2, "UTC");
    var a1, a2 := w1 + ", " + d1 + " ", ", " + w2 + ", " + d2 + " ";
    assert 'U' !in a1 && 'U' !in a2;
    JoinTwoDates(w1, d1, w2, d2, zone);
    NormalizeCanonical(qs);
    ReplaceTwoUtc(a1, a2);
  }

  /** A trimmed piece followed by a space and a zone label is still a trimmed piece. */
  lemma LabelledPiece(d: string, zone: string)
    requires IsTrimmedPiece(d) && |zone| == 3 && !IsSpace(zone[2]) && ',' !in zone
    ensures IsTrimmedPiece(d + " " + zone)
  {
    var u := d + " " + zone;
    assert u[|u| - 1] == zone[2];
    assert forall i :: 0 <= i < |u| ==> u[i] == ' ' || u[i] in d || u[i] in zone;
  }

  /** Joining the four pieces of two labelled dates with ", " spells out `TwoDates`. */
  lemma JoinTwoDates(w1: string, d1: string, w2: string, d2: string, zone: string)
    ensures Join([w1, d1 + " " + zone, w2, d2 + " " + zone], ", ") == TwoDates(w1, d1, w2, d2, zone)
  {
    var d1z, d2z := d1 + " " + zone, d2 + " " + zone;
    JoinCons(w2, [d2z], ", ");
    JoinCons(d1z, [w2, d2z], ", ");
    JoinCons(w1, [d1z, w2, d2z], ", ");
    assert w1 + ", " + (d1z + ", " + (w2 + ", " + d2z)) == TwoDates(w1, d1, w2, d2, zone);
  }

  // ---------------------------------------------------------------------------
  // The handler
  // ---------------------------------------------------------------------------

  /** `request.headers.get("authorization").split(",")`: one or more comma-separated tokens. */
  function AuthTokens(header: string): (tokens: seq<string>)
    ensures |tokens| >= 1
    ensures Join(tokens, ",") == header
  {
    JoinSplit(header, ",");
    Split(header, ",")
  }

  /** The header map of the first attempt: the inbound SharedKey credential passed through. */
  function PassthroughHeaders(authorization: string, logType: string, date: string): (h: Headers)
    ensures h.Keys == {"Content-Type", "Authorization", "Log-Type", "x-ms-date"}
  {
    map["Content-Type" := "application/json; charset=UTF-8", "Authorization" := authorization,
        "Log-Type" := logType, "x-ms-date" := date]
  }

  /**
   * `gzip.decompress(body)`: an empty body decompresses to nothing; otherwise
   * the gzip stream is inflated, None where it is malformed and the library raises.
   */
  function Decompress(lib: Lib, body: Bytes): (r: Option<Bytes>)
    ensures |body| == 0 ==> r == Some([])
  {
    if |body| == 0 then Some([]) else lib.gunzip(body)
  }

  /** The credential loop and the emptiness check answer 401. */
  ghost predicate Unauthorized(tokens: seq<string>, basicAuth: string) {
    (AllBasicOk(tokens, basicAuth) && !HasToken(tokens, "Basic"))
    || (exists i :: FirstFault(tokens, basicAuth, i) && BasicValue(tokens[i]).Some?)
  }

  /** The first Basic token the loop rejects has no "Basic " to split on. */
  ghost predicate MalformedBasic(tokens: seq<string>, basicAuth: string) {
    exists i :: FirstFault(tokens, basicAuth, i) && BasicValue(tokens[i]).None?
  }

  /** The request passes the credential checks: some token is Basic and every Basic token carries `BASIC_AUTH`. */
  ghost predicate Authenticated(req: Request, cfg: Config, lib: Lib) {
    req.authorization.Some?
    && var tokens := AuthTokens(req.authorization.value);
    AllBasicOk(tokens, BasicAuth(cfg, lib)) && HasToken(tokens, "Basic")
  }

  /**
   * The credential part of the try block: the loop over the tokens, then the
   * check that a Basic token was seen. Some reply when the request is turned
   * away (401 from `UnAuthorizedException`, 500 from the generic handler for
   * the `IndexError`); otherwise the passthrough SharedKey credential.
   */
  method Authorize(tokens: seq<string>, basicAuth: string) returns (denied: Option<Reply>, sharedKey: string)
    ensures denied.None? <==> AllBasicOk(tokens, basicAuth) && HasToken(tokens, "Basic")
    ensures denied.None? ==> sharedKey == LastWith(tokens, "SharedKey")
    ensures denied.Some? ==> denied.value == Reply(401, false) || denied.value == Reply(500, false)
    ensures denied == Some(Reply(401, false)) <==> Unauthorized(tokens, basicAuth)
    ensures MalformedBasic(tokens, basicAuth) ==> denied == Some(Reply(500, false))
  {
    var scan := ScanCredentials(tokens, basicAuth);
    ghost var fault := ScanMeaning(tokens, basicAuth);
    if scan.Failure? {
      forall i | FirstFault(tokens, basicAuth, i) ensures i == fault {
        FirstFaultUnique(tokens, basicAuth, i, fault);
      }
      // UnAuthorizedException answers 401; IndexError reaches the generic handler.
      denied := Some(if scan.error == UnAuthorizedException then Reply(401, false) else Reply(500, false));
      return denied, "";
    }
    NoBasicIffEmpty(tokens);
    if scan.value.basic == "" {
      return Some(Reply(401, false)), "";
    }
    return None, scan.value.sharedKey;
  }

  /**
   * `func`: the POST handler. Returns the reply and the calls made to the
   * endpoint, in order; `now` is the clock reading `post_data` takes.
   */
  method Handle(req: Request, cfg: Config, lib: Lib, now: UtcTime, endpoint: Endpoint)
    returns (reply: Reply, calls: seq<Call>)
    requires now.Valid()
    // No Authorization header: `.split` on None raises before the try.
    ensures req.authorization.None? ==> reply == Unhandled && calls == []
    ensures req.authorization.Some? ==>
      (reply == Reply(401, false) <==> Unauthorized(AuthTokens(req.authorization.value), BasicAuth(cfg, lib)))
    ensures req.authorization.Some? && MalformedBasic(AuthTokens(req.authorization.value), BasicAuth(cfg, lib)) ==>
      reply == Reply(500, false) && calls == []
    ensures Authenticated(req, cfg, lib) ==>
      Delivered(req, LastWith(AuthTokens(req.authorization.value), "SharedKey"), cfg, lib, now, endpoint, reply, calls)
    ensures !Authenticated(req, cfg, lib) ==> calls == [] && reply != Reply(200, true)
    ensures reply == Reply(401, false) ==> calls == []
    ensures StatusOf(reply) in {200, 400, 401, 500}
    ensures reply.Reply? ==> (reply.success <==> reply.status == 200)
  {
    if req.authorization.None? {
      return Unhandled, [];
    }
    var denied, sharedKey := Authorize(AuthTokens(req.authorization.value), BasicAuth(cfg, lib));
    if denied.Some? {
      return denied.value, [];
    }
    reply, calls := Deliver(req, sharedKey, cfg, lib, now, endpoint);
  }

  /**
   * A request whose Authorization header is "Basic <BASIC_AUTH>" followed by
   * one SharedKey token gets past the credential checks, and that token,
   * stripped, is the credential forwarded on the first attempt.
   */
  lemma WellFormedRequestAuthenticated(req: Request, cfg: Config, lib: Lib, sharedKeyToken: string)
    requires IsBase64Text(BasicAuth(cfg, lib)) && |BasicAuth(cfg, lib)| > 0
    requires ',' !in sharedKeyToken && !Contains(sharedKeyToken, "Basic") && Contains(sharedKeyToken, "SharedKey")
    requires req.authorization == Some("Basic " + BasicAuth(cfg, lib) + "," + sharedKeyToken)
    ensures Authenticated(req, cfg, lib)
    ensures LastWith(AuthTokens(req.authorization.value), "SharedKey") == Strip(sharedKeyToken)
  {
    BasicThenSharedKey(BasicAuth(cfg, lib), sharedKeyToken);
  }

  /**
   * What the rest of the handler does once the credentials pass: a reply
   * other than 401 and at most two calls, the first carrying the
   * decompressed body with the passthrough headers and the second, after a
   * `ProcessingException` only, the same body signed by `post_data`.
   */
  ghost predicate Delivered(req: Request, sharedKey: string, cfg: Config, lib: Lib, now: UtcTime, endpoint: Endpoint,
                            reply: Reply, calls: seq<Call>)
    requires now.Valid()
  {
    var decompressed := Decompress(lib, req.body);
    reply != Reply(401, false) && |calls| <= 2
    // Decompression
    && (decompressed.None? ==> reply == Reply(500, false) && calls == [])
    && (decompressed == Some([]) ==> reply == Reply(if |req.body| == 0 then 400 else 500, false) && calls == [])
    // First attempt
    && (decompressed.Some? && decompressed.value != [] ==>
          |calls| >= 1
          && calls[0] == Call(Uri(cfg), PassthroughHeaders(sharedKey, LogTypeOf(req.logType), XMsDateOf(req.xMsDate)),
                              decompressed.value))
    // Second attempt: only after a ProcessingException, and only when the shared key decodes
    && (|calls| == 2 <==> |calls| >= 1 && Rejects(endpoint(0, calls[0])) && lib.b64decode(cfg.sharedKey).Some?)
    && (|calls| == 2 ==>
          calls[1] == Call(Uri(cfg),
            SignedHeaders(BuildSignature(cfg.workspaceId, cfg.sharedKey, Rfc1123Date(now), |calls[0].body|,
                                         PostMethod, ContentType, Resource, lib).value,
                          LogTypeOf(req.logType), Rfc1123Date(now)),
            calls[0].body))
    // The outcome
    && (|calls| >= 1 && Accepts(endpoint(0, calls[0])) ==> |calls| == 1 && reply == Reply(200, true))
    && (reply == Reply(200, true) <==> calls != [] && Accepts(endpoint(|calls| - 1, calls[|calls| - 1])))
    && (|calls| == 1 && !Accepts(endpoint(0, calls[0])) ==>
          reply == if Rejects(endpoint(0, calls[0])) then Unhandled else Reply(500, false))
    && (|calls| == 2 && !Accepts(endpoint(1, calls[1])) ==>
          reply == if Rejects(endpoint(1, calls[1])) then Reply(500, false) else Unhandled)
  }

  /**
   * When the handler falls back, both attempts carry the same body and the same
   * Log-Type; the second is signed over the length of that body and over the
   * very date it sends in x-ms-date; and the reply is 200 exactly when the
   * second attempt is accepted, 500 otherwise.
   */
  lemma FallbackAttempts(req: Request, sharedKey: string, cfg: Config, lib: Lib, now: UtcTime, endpoint: Endpoint,
                         reply: Reply, calls: seq<Call>)
    requires now.Valid() && Delivered(req, sharedKey, cfg, lib, now, endpoint, reply, calls) && |calls| == 2
    ensures calls[0].uri == calls[1].uri == Uri(cfg) && calls[1].body == calls[0].body
    ensures calls[0].headers["Authorization"] == sharedKey
    ensures calls[0].headers["Log-Type"] == calls[1].headers["Log-Type"] == LogTypeOf(req.logType)
    ensures calls[1].headers["x-ms-date"] == Rfc1123Date(now)
    ensures calls[1].headers["Authorization"]
            == BuildSignature(cfg.workspaceId, cfg.sharedKey, calls[1].headers["x-ms-date"], |calls[1].body|,
                              "POST", "application/json", "/api/logs", lib).value
    ensures StatusOf(reply) == if Accepts(endpoint(1, calls[1])) then 200 else 500
  {
    var decompressed := Decompress(lib, req.body);
    assert decompressed.Some? && decompressed.value != [];
  }

  /** The try block after the credential checks, with its exception handlers. */
  method Deliver(req: Request, sharedKey: string, cfg: Config, lib: Lib, now: UtcTime, endpoint: Endpoint)
    returns (reply: Reply, calls: seq<Call>)
    requires now.Valid()
    ensures Delivered(req, sharedKey, cfg, lib, now, endpoint, reply, calls)
    ensures reply == Unhandled || reply.status in {200, 400, 500}
    ensures reply.Reply? ==> (reply.success <==> reply.status == 200)
  {
    var logType := LogTypeOf(req.logType);
    var headers := PassthroughHeaders(sharedKey, logType, XMsDateOf(req.xMsDate));
    var decompressed := Decompress(lib, req.body);
    if decompressed.None? {
      // A malformed gzip stream reaches the generic handler.
      return Reply(500, false), [];
    }
    var data := decompressed.value;
    if |data| == 0 {
      reply := if |req.body| == 0 then Reply(400, false) else Reply(500, false);
      return reply, [];
    }
    reply, calls := Forward(data, headers, logType, cfg, lib, now, endpoint);
  }

  /**
   * The end of the try block and its ProcessingException handler: send the
   * decompressed body with the passthrough headers and, when that raises
   * `ProcessingException`, once more signed by `post_data`.
   */
  method Forward(data: Bytes, headers: Headers, logType: string, cfg: Config, lib: Lib, now: UtcTime, endpoint: Endpoint)
    returns (reply: Reply, calls: seq<Call>)
    requires now.Valid()
    ensures 1 <= |calls| <= 2 && calls[0] == Call(Uri(cfg), headers, data)
    ensures |calls| == 2 <==> Rejects(endpoint(0, calls[0])) && lib.b64decode(cfg.sharedKey).Some?
    ensures |calls| == 2 ==>
      calls[1] == Call(Uri(cfg),
        SignedHeaders(BuildSignature(cfg.workspaceId, cfg.sharedKey, Rfc1123Date(now), |data|,
                                     PostMethod, ContentType, Resource, lib).value,
                      logType, Rfc1123Date(now)),
        data)
    ensures reply == Reply(200, true) <==> Accepts(endpoint(|calls| - 1, calls[|calls| - 1]))
    ensures |calls| == 1 && !Accepts(endpoint(0, calls[0])) ==>
      reply == if Rejects(endpoint(0, calls[0])) then Unhandled else Reply(500, false)
    ensures |calls| == 2 && !Accepts(endpoint(1, calls[1])) ==>
      reply == if Rejects(endpoint(1, calls[1])) then Reply(500, false) else Unhandled
  {
    var first;
    first, calls := PostDataAuth(Uri(cfg), headers, data, endpoint, []);
    if first.Accepted? {
      return Reply(200, true), calls;
    }
    if !first.exc.ProcessingException? {
      // ValueError, or a transport failure reaching the generic handler.
      return Reply(500, false), calls;
    }
    // Raised inside the ProcessingException handler, only a second
    // ProcessingException is caught; anything else escapes.
    var second;
    second, calls := PostData(cfg.workspaceId, cfg.sharedKey, data, logType, |data|, now, lib, Uri(cfg), endpoint, calls);
    if second.Accepted? {
      reply := Reply(200, true);
    } else if second.exc.ProcessingException? {
      reply := Reply(500, false);
    } else {
      reply := Unhandled;
    }
  }

  /** The example of two dates: "Tue, 01 Jan 2024 00:00:00 UTC, Tue, 01 Jan 2024 00:00:01 UTC" becomes GMT. */
  lemma NormalizeDateExample(v: string)
    requires v == "Tue, 01 Jan 2024 00:00:00 UTC, Tue, 01 Jan 2024 00:00:01 UTC"
    ensures NormalizeDate(v) == "Tue, 01 Jan 2024 00:00:00 GMT, Tue, 01 Jan 2024 00:00:01 GMT"
  {
    var w, d1, d2 := "Tue", "01 Jan 2024 00:00:00", "01 Jan 2024 00:00:01";
    assert IsTrimmedPiece(w) && IsTrimmedPiece(d1) && IsTrimmedPiece(d2);
    NormalizeTwoUtcDates(w, d1, w, d2);
    TwoDatesSpelled(w, d1, d2, "UTC");
    TwoDatesSpelled(w, d1, d2, "GMT");
    UtcSpelled("UTC");
    GmtSpelled("GMT");
  }

  /** `TwoDates` on the pieces of the example, with the zone left open. */
  lemma TwoDatesSpelled(w: string, d1: string, d2: string, zone: string)
    requires w == "Tue" && d1 == "01 Jan 2024 00:00:00" && d2 == "01 Jan 2024 00:00:01"
    ensures TwoDates(w, d1, w, d2, zone) == "Tue, 01 Jan 2024 00:00:00 " + zone + ", Tue, 01 Jan 2024 00:00:01 " + zone
  {
    assert w + ", " + d1 + " " == "Tue, 01 Jan 2024 00:00:00 ";
    assert ", " + w + ", " + d2 + " " == ", Tue, 01 Jan 2024 00:00:01 ";
  }

  /** The example's text labelled UTC. */
  lemma UtcSpelled(zone: string)
    requires zone == "UTC"
    ensures "Tue, 01 Jan 2024 00:00:00 " + zone + ", Tue, 01 Jan 2024 00:00:01 " + zone
            == "Tue, 01 Jan 2024 00:00:00 UTC, Tue, 01 Jan 2024 00:00:01 UTC"
  {
    var s := "Tue, 01 Jan 2024 00:00:00 " + zone;
    assert s == "Tue, 01 Jan 2024 00:00:00 UTC";
    var t := s + ", Tue, 01 Jan 2024 00:00:01 ";
    assert t == "Tue, 01 Jan 2024 00:00:00 UTC, Tue, 01 Jan 2024 00:00:01 ";
  }

  /** The example's text labelled GMT. */
  lemma GmtSpelled(zone: string)
    requires zone == "GMT"
    ensures "Tue, 01 Jan 2024 00:00:00 " + zone + ", Tue, 01 Jan 2024 00:00:01 " + zone
            == "Tue, 01 Jan 2024 00:00:00 GMT, Tue, 01 Jan 2024 00:00:01 GMT"
  {
    var s := "Tue, 01 Jan 2024 00:00:00 " + zone;
    assert s == "Tue, 01 Jan 2024 00:00:00 GMT";
    var t := s + ", Tue, 01 Jan 2024 00:00:01 ";
    assert t == "Tue, 01 Jan 2024 00:00:00 GMT, Tue, 01 Jan 2024 00:00:01 ";
  }
}
