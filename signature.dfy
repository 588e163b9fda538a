/**
 * The SharedKey signature of the Azure Monitor HTTP Data Collector API
 * (`build_signature`) and the RFC 1123 date (section 5.2.14 of RFC 1123) that
 * `post_data` stamps on each signed request.
 */
module Signature {
  import opened Prelude
  import opened Foreign
  import opened PyStr

  /**
   * The canonical string the downstream API recomputes and checks:
   * the method, body length, content type, the `x-ms-date` header and the
   * resource path, one per line.
   */
  function StringToSign(httpMethod: string, contentLength: nat, contentType: string, date: string, resource: string): string {
    httpMethod + "\n" + NatToString(contentLength) + "\n" + contentType + "\n" + ("x-ms-date:" + date) + "\n" + resource
  }

  /**
   * `build_signature`: "SharedKey <customer id>:<base64 HMAC-SHA256 of the
   * UTF-8 canonical string, keyed with the base64-decoded shared key>".
   * None when the shared key is not valid base64, where `b64decode` raises.
   */
  function BuildSignature(customerId: string, sharedKey: string, date: string, contentLength: nat,
                          httpMethod: string, contentType: string, resource: string, lib: Lib): (r: Option<string>)
    ensures r.Some? <==> lib.b64decode(sharedKey).Some?
    ensures r.Some? ==> |r.value| >= 11 + |customerId| && r.value[..11 + |customerId|] == "SharedKey " + customerId + ":"
  {
    match lib.b64decode(sharedKey)
    case None => None
    case Some(key) =>
      var digest := lib.b64encode(lib.hmacSha256(key, lib.utf8(StringToSign(httpMethod, contentLength, contentType, date, resource))));
      var scheme := "SharedKey " + customerId + ":";
      assert (scheme + digest)[..|scheme|] == scheme;
      Some(scheme + digest)
  }

  predicate NoNewline(s: string) {
    '\n' !in s
  }

  /** The canonical string splits back, line by line, into the fields it was built from. */
  lemma SigningStringFields(httpMethod: string, contentLength: nat, contentType: string, date: string, resource: string)
    requires NoNewline(httpMethod) && NoNewline(contentType) && NoNewline(date) && NoNewline(resource)
    ensures Split(StringToSign(httpMethod, contentLength, contentType, date, resource), "\n")
            == [httpMethod, NatToString(contentLength), contentType, "x-ms-date:" + date, resource]
  {
    var len, header := NatToString(contentLength), "x-ms-date:" + date;
    assert NoNewline(len);
    assert NoNewline(header);
    JoinCons(header, [resource], "\n");
    JoinCons(contentType, [header, resource], "\n");
    JoinCons(len, [contentType, header, resource], "\n");
    JoinCons(httpMethod, [len, contentType, header, resource], "\n");
    var fields := [httpMethod, len, contentType, header, resource];
    assert StringToSign(httpMethod, contentLength, contentType, date, resource) == Join(fields, "\n");
    SplitJoin(fields, '\n');
  }

  /**
   * Two signing requests whose fields hold no line break sign the same string
   * only when every field agrees: changing any one field changes what is signed.
   */
  lemma SigningStringInjective(m1: string, n1: nat, c1: string, d1: string, r1: string,
                               m2: string, n2: nat, c2: string, d2: string, r2: string)
    requires NoNewline(m1) && NoNewline(c1) && NoNewline(d1) && NoNewline(r1)
    requires NoNewline(m2) && NoNewline(c2) && NoNewline(d2) && NoNewline(r2)
    requires StringToSign(m1, n1, c1, d1, r1) == StringToSign(m2, n2, c2, d2, r2)
    ensures m1 == m2 && n1 == n2 && c1 == c2 && d1 == d2 && r1 == r2
  {
    SigningStringFields(m1, n1, c1, d1, r1);
    SigningStringFields(m2, n2, c2, d2, r2);
    var h1, h2 := "x-ms-date:" + d1, "x-ms-date:" + d2;
    assert h1 == h2;
    assert d1 == h1[10..] && d2 == h2[10..];
    DecimalRoundTrip(n1);
    DecimalRoundTrip(n2);
  }

  /** A reading of the UTC wall clock, as the fields of a `datetime`. */
  datatype UtcTime = UtcTime(year: int, month: int, day: int, hour: int, minute: int, second: int) {
    predicate Valid() {
      1 <= year <= 9999 && 1 <= month <= 12 && 1 <= day <= DaysInMonth(year, month)
      && 0 <= hour < 24 && 0 <= minute < 60 && 0 <= second < 60
    }
  }

  predicate IsLeap(y: int) {
    y % 4 == 0 && (y % 100 != 0 || y % 400 == 0)
  }

  function DaysInMonth(y: int, m: int): int
    requires 1 <= m <= 12
  {
    if m == 2 then (if IsLeap(y) then 29 else 28)
    else if m == 4 || m == 6 || m == 9 || m == 11 then 30
    else 31
  }

  /** The proleptic Gregorian ordinal of the date, 1 for 1 January of year 1. */
  function Ordinal(t: UtcTime): int
    requires t.Valid()
  {
    var y := t.year - 1;
    var daysBeforeYear := y * 365 + y / 4 - y / 100 + y / 400;
    var daysBeforeMonth := [0, 31, 59, 90, 120, 151, 181, 212, 243, 273, 304, 334][t.month - 1]
                           + (if t.month > 2 && IsLeap(t.year) then 1 else 0);
    daysBeforeYear + daysBeforeMonth + t.day
  }

  /** Two decimal digits, zero-padded, as `%d`, `%H`, `%M` and `%S` print them. */
  function Pad2(n: int): (r: string)
    requires 0 <= n < 100
    ensures |r| == 2 && IsDigits(r) && NoNewline(r)
    ensures DecimalValue(r) == n
  {
    var hi, lo := DigitChar(n / 10), DigitChar(n % 10);
    var r := [hi, lo];
    assert DecimalValue([hi]) == n / 10 by {
      assert [hi][..0] == "";
    }
    assert r[..1] == [hi];
    r
  }

  /** `%a` in the C locale, for a weekday counted from Monday as 0. */
  function WeekdayName(d: int): (r: string)
    requires 0 <= d < 7
    ensures |r| == 3 && NoNewline(r)
  {
    ["Mon", "Tue", "Wed", "Thu", "Fri", "Sat", "Sun"][d]
  }

  /** `%b` in the C locale. */
  function MonthName(m: int): (r: string)
    requires 1 <= m <= 12
    ensures |r| == 3 && NoNewline(r)
  {
    ["Jan", "Feb", "Mar", "Apr", "May", "Jun", "Jul", "Aug", "Sep", "Oct", "Nov", "Dec"][m - 1]
  }

  /** `%H:%M:%S`. */
  function Clock(t: UtcTime): (r: string)
    requires t.Valid()
    ensures |r| == 8 && NoNewline(r)
    ensures r[..2] == Pad2(t.hour) && r[3..5] == Pad2(t.minute) && r[6..] == Pad2(t.second)
    ensures DecimalValue(r[..2]) == t.hour && DecimalValue(r[3..5]) == t.minute && DecimalValue(r[6..]) == t.second
  {
    Pad2(t.hour) + ":" + Pad2(t.minute) + ":" + Pad2(t.second)
  }

  /**
   * `strftime('%a, %d %b %Y %H:%M:%S GMT')` in the C locale. `%Y` prints the
   * year's digits without padding.
   */
  function Rfc1123Date(t: UtcTime): string
    requires t.Valid()
  {
    var weekday := (Ordinal(t) + 6) % 7;  // Monday is 0
    WeekdayName(weekday) + ", " + Pad2(t.day) + " " + MonthName(t.month) + " " + NatToString(t.year) + " " + Clock(t) + " GMT"
  }

  /**
   * For four-digit years the date is the fixed 29-character RFC 1123 form
   * ending in " GMT", and holds no line break (so it can sit on one line of
   * the canonical string).
   */
  lemma Rfc1123Shape(t: UtcTime)
    requires t.Valid() && 1000 <= t.year
    ensures |Rfc1123Date(t)| == 29
    ensures Rfc1123Date(t)[25..] == " GMT"
    ensures NoNewline(Rfc1123Date(t))
  {
    NatToStringLength4(t.year);
    var year := NatToString(t.year);
    assert '\n' !in year;
  }

  /**
   * For four-digit years every field reads back out of its fixed position:
   * the day, the year and the time printed are those of `t`.
   */
  lemma Rfc1123ReadBack(t: UtcTime)
    requires t.Valid() && 1000 <= t.year
    ensures var d := Rfc1123Date(t);
      |d| == 29
      && DecimalValue(d[5..7]) == t.day && DecimalValue(d[12..16]) == t.year
      && DecimalValue(d[17..19]) == t.hour && DecimalValue(d[20..22]) == t.minute && DecimalValue(d[23..25]) == t.second
  {
    Rfc1123Positions(t);
    DecimalRoundTrip(t.year);
    var c, d := Clock(t), Rfc1123Date(t);
    assert d[17..19] == c[..2] && d[20..22] == c[3..5] && d[23..25] == c[6..];
  }

  /** Which field of `t` sits at which position of the printed date, for four-digit years. */
  lemma Rfc1123Positions(t: UtcTime)
    requires t.Valid() && 1000 <= t.year
    ensures var d := Rfc1123Date(t);
      |d| == 29 && d[..3] == WeekdayName((Ordinal(t) + 6) % 7) && d[5..7] == Pad2(t.day)
      && d[8..11] == MonthName(t.month) && d[12..16] == NatToString(t.year) && d[17..25] == Clock(t)
  {
    NatToStringLength4(t.year);
    DateFields(WeekdayName((Ordinal(t) + 6) % 7), Pad2(t.day), MonthName(t.month), NatToString(t.year), Clock(t));
  }

  /** Where each field sits in the printed date, given the widths of the fields. */
  lemma DateFields(weekday: string, day: string, month: string, year: string, clock: string)
    requires |weekday| == 3 && |day| == 2 && |month| == 3 && |year| == 4 && |clock| == 8
    ensures var d := weekday + ", " + day + " " + month + " " + year + " " + clock + " GMT";
      d[..3] == weekday && d[5..7] == day && d[8..11] == month && d[12..16] == year && d[17..25] == clock
  {
  }

  /** 1 January 2024 was a Monday. */
  lemma Rfc1123Example()
    ensures Rfc1123Date(UtcTime(2024, 1, 1, 0, 0, 0)) == "Mon, 01 Jan 2024 00:00:00 GMT"
  {
    var t := UtcTime(2024, 1, 1, 0, 0, 0);
    FirstOf2024(t);
    Year2024();
    assert Pad2(1) == "01" && Pad2(0) == "00";
    assert Clock(t) == "00:00:00";
    DateText(WeekdayName(0), Pad2(1), MonthName(1), NatToString(2024), Clock(t));
  }

  lemma FirstOf2024(t: UtcTime)
    requires t == UtcTime(2024, 1, 1, 0, 0, 0)
    ensures t.Valid() && (Ordinal(t) + 6) % 7 == 0
  {
    assert Ordinal(t) == 738886;
  }

  lemma Year2024()
    ensures NatToString(2024) == "2024"
  {
    assert NatToString(2) == "2";
    assert NatToString(20) == "20";
    assert NatToString(202) == "202";
  }

  lemma DateText(weekday: string, day: string, month: string, year: string, clock: string)
    requires weekday == "Mon" && day == "01" && month == "Jan" && year == "2024" && clock == "00:00:00"
    ensures weekday + ", " + day + " " + month + " " + year + " " + clock + " GMT" == "Mon, 01 Jan 2024 00:00:00 GMT"
  {
  }
}
