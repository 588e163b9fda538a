/**
 * The Python `str` operations the relay's header handling relies on, with the
 * semantics CPython gives them: substring test (`t in s`), `s.split(sep)` with
 * an explicit separator, `sep.join(parts)`, `s.strip()`, `s.replace(a, b)` and
 * `str(n)` for a non-negative integer.
 */
module PyStr {
  import opened Prelude

  /** `t` occurs in `s` starting at index `i`. */
  ghost predicate OccursAt(s: string, t: string, i: int) {
    0 <= i && i + |t| <= |s| && s[i..i + |t|] == t
  }

  lemma ShiftAt(s: string, t: string, j: int)
    requires |s| > 0 && j >= 1
    ensures OccursAt(s, t, j) <==> OccursAt(s[1..], t, j - 1)
  {
    if j + |t| <= |s| {
      assert s[1..][j - 1..j - 1 + |t|] == s[j..j + |t|];
    }
  }

  /** `s.find(t)`: the leftmost index at which `t` occurs in `s`. */
  function Find(s: string, t: string): (r: Option<nat>)
    ensures r.Some? ==> OccursAt(s, t, r.value)
    ensures r.Some? ==> forall j :: 0 <= j < r.value ==> !OccursAt(s, t, j)
    ensures r.None? ==> forall j :: !OccursAt(s, t, j)
    decreases |s|
  {
    if |s| < |t| then None
    else if s[..|t|] == t then Some(0)
    else
      match Find(s[1..], t)
      case Some(i) =>
        assert forall j :: 1 <= j <= i ==> !OccursAt(s, t, j) by {
          forall j | 1 <= j <= i ensures !OccursAt(s, t, j) { ShiftAt(s, t, j); }
        }
        ShiftAt(s, t, i + 1);
        Some(i + 1)
      case None =>
        assert forall j :: !OccursAt(s, t, j) by {
          forall j ensures !OccursAt(s, t, j) {
            if j >= 1 { ShiftAt(s, t, j); }
          }
        }
        None
  }

  /** Python's `t in s`. */
  predicate Contains(s: string, t: string) {
    Find(s, t).Some?
  }

  lemma ContainsAt(s: string, t: string, i: int)
    requires OccursAt(s, t, i)
    ensures Contains(s, t)
  {
  }

  /** `s.split(sep)` for a non-empty separator: the pieces between the occurrences of `sep`, left to right. */
  function Split(s: string, sep: string): (parts: seq<string>)
    requires |sep| > 0
    ensures |parts| >= 1
    ensures |parts| >= 2 <==> Contains(s, sep)
    decreases |s|
  {
    match Find(s, sep)
    case None => [s]
    case Some(i) => [s[..i]] + Split(s[i + |sep|..], sep)
  }

  /** The first piece of a split runs from the start up to the first separator, or to the end when there is none. */
  lemma SplitHead(s: string, sep: string)
    requires |sep| > 0
    ensures var p := Split(s, sep)[0];
      |p| <= |s| && p == s[..|p|]
      && (forall j :: 0 <= j < |p| ==> !OccursAt(s, sep, j))
      && (|p| == |s| || OccursAt(s, sep, |p|))
  {
    match Find(s, sep)
    case None =>
      assert Split(s, sep)[0] == s;
    case Some(i) =>
      assert Split(s, sep)[0] == s[..i];
  }

  /** `sep.join(parts)`. */
  function Join(parts: seq<string>, sep: string): string {
    if |parts| == 0 then ""
    else if |parts| == 1 then parts[0]
    else parts[0] + sep + Join(parts[1..], sep)
  }

  /** Joining a first piece in front of one or more others puts one separator between them. */
  lemma JoinCons(p: string, rest: seq<string>, sep: string)
    requires |rest| >= 1
    ensures Join([p] + rest, sep) == p + sep + Join(rest, sep)
  {
    assert ([p] + rest)[1..] == rest;
  }

  /** Joining the pieces of a split with the same separator gives back the string. */
  lemma {:induction false} JoinSplit(s: string, sep: string)
    requires |sep| > 0
    ensures Join(Split(s, sep), sep) == s
    decreases |s|
  {
    match Find(s, sep)
    case None =>
    case Some(i) =>
      var rest := s[i + |sep|..];
      var tail := Split(rest, sep);
      JoinSplit(rest, sep);
      var parts := [s[..i]] + tail;
      assert Split(s, sep) == parts;
      assert parts[0] == s[..i] && parts[1..] == tail;
      assert Join(parts, sep) == s[..i] + sep + Join(tail, sep);
      assert s == s[..i] + sep + rest;
  }

  /** Splitting on a one-character separator at its first occurrence. */
  lemma SplitFirst(a: string, c: char, b: string)
    requires c !in a
    ensures Split(a + [c] + b, [c]) == [a] + Split(b, [c])
  {
    var s := a + [c] + b;
    assert OccursAt(s, [c], |a|);
    forall j | 0 <= j < |a| ensures !OccursAt(s, [c], j) {
      assert s[j..j + 1] == [a[j]];
    }
    var i := Find(s, [c]).value;
    assert s[..i] == a;
    assert s[i + 1..] == b;
  }

  /** A string without the one-character separator splits into itself. */
  lemma SplitNone(a: string, c: char)
    requires c !in a
    ensures Split(a, [c]) == [a]
  {
    forall j ensures !OccursAt(a, [c], j) {
      if 0 <= j < |a| { assert a[j..j + 1] == [a[j]]; }
    }
  }

  /** Splitting a join on a one-character separator that no part contains gives back the parts. */
  lemma {:induction false} SplitJoin(parts: seq<string>, c: char)
    requires |parts| >= 1
    requires forall k :: 0 <= k < |parts| ==> c !in parts[k]
    ensures Split(Join(parts, [c]), [c]) == parts
  {
    if |parts| == 1 {
      SplitNone(parts[0], c);
    } else {
      SplitFirst(parts[0], c, Join(parts[1..], [c]));
      SplitJoin(parts[1..], c);
    }
  }

  /** The characters CPython's `str.isspace` accepts, which `str.strip()` removes. */
  predicate IsSpace(c: char) {
    c == ' ' || '\t' <= c <= '\r' || '\U{1c}' <= c <= '\U{1f}' || c == '\U{85}' || c == '\U{a0}'
    || c == '\U{1680}' || '\U{2000}' <= c <= '\U{200a}' || c == '\U{2028}' || c == '\U{2029}'
    || c == '\U{202f}' || c == '\U{205f}' || c == '\U{3000}'
  }

  /** The number of whitespace characters at the start of `s`. */
  function LeadingSpaces(s: string): (n: nat)
    ensures n <= |s|
    ensures forall i :: 0 <= i < n ==> IsSpace(s[i])
    ensures n < |s| ==> !IsSpace(s[n])
  {
    if |s| > 0 && IsSpace(s[0]) then 1 + LeadingSpaces(s[1..]) else 0
  }

  /** The number of whitespace characters at the end of `s`. */
  function TrailingSpaces(s: string): (n: nat)
    ensures n <= |s|
    ensures forall i :: |s| - n <= i < |s| ==> IsSpace(s[i])
    ensures n < |s| ==> !IsSpace(s[|s| - 1 - n])
  {
    if |s| > 0 && IsSpace(s[|s| - 1]) then 1 + TrailingSpaces(s[..|s| - 1]) else 0
  }

  /** `s.strip()`: `s` without its leading and trailing whitespace. */
  function Strip(s: string): (r: string)
    ensures |r| > 0 ==> !IsSpace(r[0]) && !IsSpace(r[|r| - 1])
    ensures r == "" <==> forall i :: 0 <= i < |s| ==> IsSpace(s[i])
    ensures forall i :: 0 <= i < |r| ==> r[i] in s
  {
    var t := s[LeadingSpaces(s)..];
    t[..|t| - TrailingSpaces(t)]
  }

  /** Stripping a string that already has no whitespace at its ends, behind one space, gives it back. */
  /** `r` is the stretch of `s` starting at `i` with only whitespace before and after it. */
  ghost predicate SliceBetweenSpaces(s: string, r: string, i: int) {
    0 <= i && i + |r| <= |s| && s[i..i + |r|] == r
    && (forall k :: 0 <= k < i ==> IsSpace(s[k]))
    && (forall k :: i + |r| <= k < |s| ==> IsSpace(s[k]))
  }

  /** `strip()` returns the part of `s` between its leading and its trailing whitespace. */
  lemma StripIsSlice(s: string)
    ensures exists i :: SliceBetweenSpaces(s, Strip(s), i)
  {
    var i := LeadingSpaces(s);
    var t := s[i..];
    var m := |t| - TrailingSpaces(t);
    assert Strip(s) == t[..m];
    assert s[i..i + m] == t[..m];
    SpacesAfter(s, i);
    assert SliceBetweenSpaces(s, Strip(s), i);
  }

  /** The trailing whitespace of a suffix of `s` is whitespace of `s`. */
  lemma SpacesAfter(s: string, i: int)
    requires 0 <= i <= |s|
    ensures forall k :: |s| - TrailingSpaces(s[i..]) <= k < |s| ==> IsSpace(s[k])
  {
    var t := s[i..];
    forall k | |s| - TrailingSpaces(t) <= k < |s| ensures IsSpace(s[k]) {
      assert s[k] == t[k - i];
    }
  }

  lemma StripSpaced(s: string)
    requires |s| > 0 && !IsSpace(s[0]) && !IsSpace(s[|s| - 1])
    ensures Strip(s) == s
    ensures Strip(" " + s) == s
  {
    assert LeadingSpaces(s) == 0 && TrailingSpaces(s) == 0;
    assert (" " + s)[1..] == s;
    assert LeadingSpaces(" " + s) == 1;
  }

  /** `[each.strip() for each in parts]`. */
  function StripEach(parts: seq<string>): (r: seq<string>)
    ensures |r| == |parts| && forall k :: 0 <= k < |parts| ==> r[k] == Strip(parts[k])
  {
    seq(|parts|, i requires 0 <= i < |parts| => Strip(parts[i]))
  }

  /**
   * `s.replace(pat, rep)`: scanning left to right, every occurrence of `pat`
   * that does not overlap an earlier replaced one becomes `rep`.
   */
  function Replace(s: string, pat: string, rep: string): string
    requires |pat| > 0
    decreases |s|
  {
    if |s| < |pat| then s
    else if s[..|pat|] == pat then rep + Replace(s[|pat|..], pat, rep)
    else [s[0]] + Replace(s[1..], pat, rep)
  }

  /** The first character of a replacement result comes either from `s` or from `rep`. */
  lemma ReplaceHead(s: string, pat: string, rep: string)
    requires |pat| > 0 && |rep| > 0 && |s| > 0
    ensures |Replace(s, pat, rep)| > 0
    ensures Replace(s, pat, rep)[0] == s[0] || (OccursAt(s, pat, 0) && Replace(s, pat, rep)[0] == rep[0])
  {
  }

  /** After `replace("UTC", "GMT")` no "UTC" is left, even one straddling a replacement. */
  lemma {:induction false} ReplaceUtcLeavesNone(s: string)
    ensures !Contains(Replace(s, "UTC", "GMT"), "UTC")
    decreases |s|
  {
    var r := Replace(s, "UTC", "GMT");
    forall j ensures !OccursAt(r, "UTC", j) {
      NoUtcAt(s, j);
    }
  }

  lemma {:induction false} NoUtcAt(s: string, j: int)
    ensures !OccursAt(Replace(s, "UTC", "GMT"), "UTC", j)
    decreases |s|
  {
    if j <= 0 || |s| < 3 {
      NoUtcAtStart(s);
    } else if s[..3] == "UTC" {
      if j >= 3 {
        OccursInSuffix("GMT", Replace(s[3..], "UTC", "GMT"), "UTC", j);
        NoUtcAt(s[3..], j - 3);
      } else {
        assert Replace(s, "UTC", "GMT")[j] != 'U';
      }
    } else {
      OccursInSuffix([s[0]], Replace(s[1..], "UTC", "GMT"), "UTC", j);
      NoUtcAt(s[1..], j - 1);
    }
  }

  /** An occurrence past a prefix is an occurrence in what follows it. */
  lemma OccursInSuffix(p: string, q: string, t: string, j: int)
    requires j >= |p|
    ensures OccursAt(p + q, t, j) ==> OccursAt(q, t, j - |p|)
  {
    if j + |t| <= |p + q| {
      assert (p + q)[j..j + |t|] == q[j - |p|..j - |p| + |t|];
    }
  }

  /** Where `s` does not start with "UTC", replacing keeps its first character. */
  lemma ReplaceSkip(s: string)
    requires |s| >= 1 && !(|s| >= 3 && s[..3] == "UTC")
    ensures Replace(s, "UTC", "GMT") == [s[0]] + Replace(s[1..], "UTC", "GMT")
  {
  }

  lemma NoUtcAtStart(s: string)
    ensures !OccursAt(Replace(s, "UTC", "GMT"), "UTC", 0)
  {
    var r := Replace(s, "UTC", "GMT");
    if |s| < 3 {
    } else if s[..3] == "UTC" {
      assert r[0] == 'G';
    } else if s[0] != 'U' {
      ReplaceSkip(s);
    } else if s[1] != 'T' {
      ReplaceSkip(s);
      ReplaceHead(s[1..], "UTC", "GMT");
      assert r[1] != 'T';
    } else {
      assert s[2] != 'C';
      ReplaceSkip(s);
      ReplaceSkip(s[1..]);
      assert s[1..][1..] == s[2..];
      ReplaceHead(s[2..], "UTC", "GMT");
      assert r[2] != 'C';
    }
  }

  /** A string with no 'U' has no "UTC" to replace. */
  lemma {:induction false} ReplaceUtcWithoutU(a: string)
    requires 'U' !in a
    ensures Replace(a, "UTC", "GMT") == a
    decreases |a|
  {
    if |a| >= 1 {
      assert a[0] != 'U';
      ReplaceSkip(a);
      ReplaceUtcWithoutU(a[1..]);
    }
  }

  /** The first "UTC" after a stretch with no 'U' is the first one replaced. */
  lemma {:induction false} ReplaceUtcAfter(a: string, b: string)
    requires 'U' !in a
    ensures Replace(a + "UTC" + b, "UTC", "GMT") == a + "GMT" + Replace(b, "UTC", "GMT")
    decreases |a|
  {
    if |a| == 0 {
      assert a + "UTC" + b == "UTC" + b;
      ReplaceUtcFront(b);
    } else {
      var t := a[1..] + "UTC" + b;
      assert a + "UTC" + b == [a[0]] + t;
      ReplaceCons(a[0], t);
      ReplaceUtcAfter(a[1..], b);
      assert a == [a[0]] + a[1..];
    }
  }

  /** A leading character other than 'U' is copied and the rest is replaced. */
  lemma ReplaceCons(c: char, t: string)
    requires c != 'U'
    ensures Replace([c] + t, "UTC", "GMT") == [c] + Replace(t, "UTC", "GMT")
  {
    var s := [c] + t;
    assert s[1..] == t;
    if |s| >= 3 {
      assert s[..3][0] == c;
    }
  }

  /** A leading "UTC" is replaced first. */
  lemma ReplaceUtcFront(b: string)
    ensures Replace("UTC" + b, "UTC", "GMT") == "GMT" + Replace(b, "UTC", "GMT")
  {
    var s := "UTC" + b;
    assert s[..3] == "UTC" && s[3..] == b;
  }

  /** Every piece after the first with `x` in front of it. */
  function PrefixTail(parts: seq<string>, x: string): (r: seq<string>)
    requires |parts| >= 1
    ensures |r| == |parts| && r[0] == parts[0]
    ensures forall k :: 1 <= k < |parts| ==> r[k] == x + parts[k]
  {
    [parts[0]] + seq(|parts| - 1, i requires 0 <= i < |parts| - 1 => x + parts[i + 1])
  }

  lemma JoinHeadPrefix(a: string, rest: seq<string>, sep: string, x: string)
    ensures Join([x + a] + rest, sep) == x + Join([a] + rest, sep)
  {
    if |rest| > 0 {
      assert ([x + a] + rest)[1..] == rest;
      assert ([a] + rest)[1..] == rest;
    }
  }

  /** Joining with `sep + x` is joining with `sep` once `x` is put in front of every later piece. */
  lemma {:induction false} JoinWithLongerSeparator(parts: seq<string>, sep: string, x: string)
    requires |parts| >= 1
    ensures Join(parts, sep + x) == Join(PrefixTail(parts, x), sep)
    decreases |parts|
  {
    if |parts| >= 2 {
      var tail := parts[1..];
      JoinWithLongerSeparator(tail, sep, x);
      var q := PrefixTail(tail, x);
      PrefixTailStep(parts, x);
      JoinHeadPrefix(tail[0], q[1..], sep, x);
      assert q == [tail[0]] + q[1..];
    }
  }

  /** Dropping the first piece: the prefixed tail starts with the second piece prefixed. */
  lemma PrefixTailStep(parts: seq<string>, x: string)
    requires |parts| >= 2
    ensures PrefixTail(parts, x)[1..] == [x + parts[1]] + PrefixTail(parts[1..], x)[1..]
  {
    var p, q := PrefixTail(parts, x), PrefixTail(parts[1..], x);
    forall k | 0 <= k < |p| - 1 ensures p[1..][k] == ([x + parts[1]] + q[1..])[k] {
      if k > 0 {
        assert q[k] == x + parts[1..][k];
      }
    }
  }

  /** `replace` on a string with two "UTC"s and no other 'U'. */
  lemma ReplaceTwoUtc(a: string, b: string)
    requires 'U' !in a && 'U' !in b
    ensures Replace(a + "UTC" + b + "UTC", "UTC", "GMT") == a + "GMT" + b + "GMT"
  {
    assert a + "UTC" + b + "UTC" == a + "UTC" + (b + "UTC");
    ReplaceUtcAfter(a, b + "UTC");
    assert b + "UTC" == b + "UTC" + "";
    ReplaceUtcAfter(b, "");
    assert Replace("", "UTC", "GMT") == "";
    assert a + "GMT" + (b + "GMT" + "") == a + "GMT" + b + "GMT";
  }

  /** The decimal digit `d` as a character. */
  function DigitChar(d: nat): (c: char)
    requires d < 10
    ensures '0' <= c <= '9' && c as int - 48 == d
  {
    (48 + d) as char
  }

  predicate IsDigits(s: string) {
    forall i :: 0 <= i < |s| ==> '0' <= s[i] <= '9'
  }

  /** `str(n)` for a non-negative integer: its decimal digits, no sign, no leading zero. */
  function NatToString(n: nat): (r: string)
    ensures |r| >= 1 && IsDigits(r)
    ensures |r| > 1 ==> r[0] != '0'
  {
    if n < 10 then [DigitChar(n)] else NatToString(n / 10) + [DigitChar(n % 10)]
  }

  /** The value of a string of decimal digits. */
  function DecimalValue(s: string): nat
    requires IsDigits(s)
  {
    if s == "" then 0 else 10 * DecimalValue(s[..|s| - 1]) + (s[|s| - 1] as int - 48)
  }

  /** `str(n)` reads back as `n`, so distinct lengths give distinct strings. */
  lemma {:induction false} DecimalRoundTrip(n: nat)
    ensures DecimalValue(NatToString(n)) == n
  {
    if n >= 10 {
      DecimalRoundTrip(n / 10);
      var s := NatToString(n);
      assert s[..|s| - 1] == NatToString(n / 10);
    }
  }

  /** A number of four decimal digits prints as four characters. */
  lemma NatToStringLength4(n: nat)
    requires 1000 <= n <= 9999
    ensures |NatToString(n)| == 4
  {
    var first3 := n / 10;
    var first2 := first3 / 10;
    var first1 := first2 / 10;
    assert 100 <= first3 <= 999 && 10 <= first2 <= 99 && 1 <= first1 <= 9;
    assert |NatToString(first2)| == |NatToString(first1)| + 1 == 2;
    assert |NatToString(first3)| == 3;
  }
}
