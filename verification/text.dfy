/** String primitives the spider relies on: Python's `in` on strings,
    `str.find` / `str.rfind`, `str.strip()`, `str.lower()` on ASCII,
    decimal formatting of counts, and the `strip("/").split("/")` path
    segmentation used by the sitemap tree builder. */
module Text {

  predicate StartsWith(s: string, prefix: string) {
    |prefix| <= |s| && s[..|prefix|] == prefix
  }

  predicate EndsWith(s: string, suffix: string) {
    |suffix| <= |s| && s[|s| - |suffix|..] == suffix
  }

  /** `sub` occurs in `s` at position `i`. */
  predicate OccursAt(s: string, sub: string, i: int) {
    0 <= i && i + |sub| <= |s| && s[i..i + |sub|] == sub
  }

  /** Python's `sub in s`, scanning left to right. */
  function Contains(s: string, sub: string): bool
    decreases |s|
  {
    StartsWith(s, sub) || (0 < |s| && Contains(s[1..], sub))
  }

  /** The scan agrees with the positional definition of a substring,
      in both directions. */
  lemma {:induction false} ContainsIffOccurs(s: string, sub: string)
    ensures Contains(s, sub) <==> exists i :: OccursAt(s, sub, i)
    decreases |s|
  {
    if StartsWith(s, sub) {
      assert OccursAt(s, sub, 0);
    } else if 0 < |s| {
      ContainsIffOccurs(s[1..], sub);
      if Contains(s[1..], sub) {
        var i :| OccursAt(s[1..], sub, i);
        assert s[1..][i..i + |sub|] == s[i + 1..i + 1 + |sub|];
        assert OccursAt(s, sub, i + 1);
      }
      if i :| OccursAt(s, sub, i) {
        assert i != 0;
        assert s[1..][i - 1..i - 1 + |sub|] == s[i..i + |sub|];
        assert OccursAt(s[1..], sub, i - 1);
      }
    }
  }

  /** Python's `s.find(c, start)` for one character: the first index at
      or after `start` holding `c`, or -1. */
  function FindFrom(s: string, c: char, start: nat): (r: int)
    ensures r == -1 || (start <= r < |s| && s[r] == c)
    ensures r == -1 ==> forall j :: start <= j < |s| ==> s[j] != c
    ensures r != -1 ==> forall j :: start <= j < r ==> s[j] != c
    decreases |s| - start
  {
    if start >= |s| then -1
    else if s[start] == c then start
    else FindFrom(s, c, start + 1)
  }

  /** Python's `s.find(c)`. */
  function Find(s: string, c: char): (r: int)
    ensures r == -1 <==> c !in s
    ensures r != -1 ==> 0 <= r < |s| && s[r] == c && c !in s[..r]
  {
    var r := FindFrom(s, c, 0);
    assert r == -1 ==> forall j :: 0 <= j < |s| ==> s[j] != c;
    r
  }

  /** In a text made of a `c`-free part followed by either nothing or a
      `c`, the first `c` is right after that part. */
  lemma FindAfterFreePart(f: string, rest: string, c: char)
    requires c !in f
    requires rest == [] || rest[0] == c
    ensures Find(f + rest, c) == if rest == [] then -1 else |f|
  {
    var s := f + rest;
    if rest == [] {
      assert s == f;
    } else {
      assert s[|f|] == c;
      assert forall j :: 0 <= j < |f| ==> s[j] == f[j];
    }
  }

  /** Python's `s.rfind(c)`: the last index holding `c`, or -1. */
  function RFind(s: string, c: char): (r: int)
    ensures r == -1 <==> c !in s
    ensures r != -1 ==> 0 <= r < |s| && s[r] == c && c !in s[r + 1..]
    decreases |s|
  {
    if |s| == 0 then -1
    else if s[|s| - 1] == c then |s| - 1
    else
      var r := RFind(s[..|s| - 1], c);
      assert s == s[..|s| - 1] + [s[|s| - 1]];
      if r != -1 then
        assert s[r + 1..] == s[..|s| - 1][r + 1..] + [s[|s| - 1]];
        r
      else r
  }

  /** Python's `str.lower()` restricted to ASCII letters. */
  function LowerChar(c: char): char {
    if 'A' <= c <= 'Z' then (c as int + 32) as char else c
  }

  function Lower(s: string): (r: string)
    ensures |r| == |s|
    ensures forall i :: 0 <= i < |s| ==> r[i] == LowerChar(s[i])
  {
    seq(|s|, i requires 0 <= i < |s| => LowerChar(s[i]))
  }

  /** Lower-casing twice is lower-casing once. */
  lemma LowerIsIdempotent(s: string)
    ensures Lower(Lower(s)) == Lower(s)
  {
    var l := Lower(s);
    assert forall i :: 0 <= i < |s| ==> LowerChar(l[i]) == l[i];
  }

  /** The characters for which Python's `str.isspace()` holds. */
  predicate IsSpace(c: char) {
    || ('\t' <= c <= '\r')
    || ('\U{1C}' <= c <= ' ')
    || c == '\U{85}' || c == '\U{A0}' || c == '\U{1680}'
    || ('\U{2000}' <= c <= '\U{200A}')
    || c == '\U{2028}' || c == '\U{2029}' || c == '\U{202F}'
    || c == '\U{205F}' || c == '\U{3000}'
  }

  function TrimStart(s: string): (r: string)
    ensures |r| <= |s| && r == s[|s| - |r|..]
    ensures forall i :: 0 <= i < |s| - |r| ==> IsSpace(s[i])
    ensures |r| > 0 ==> !IsSpace(r[0])
    decreases |s|
  {
    if |s| > 0 && IsSpace(s[0]) then TrimStart(s[1..]) else s
  }

  function TrimEnd(s: string): (r: string)
    ensures |r| <= |s| && r == s[..|r|]
    ensures forall i :: |r| <= i < |s| ==> IsSpace(s[i])
    ensures |r| > 0 ==> !IsSpace(r[|r| - 1])
    decreases |s|
  {
    if |s| > 0 && IsSpace(s[|s| - 1]) then TrimEnd(s[..|s| - 1]) else s
  }

  /** `s[i..j]` is `s` with white space cut from both ends. */
  predicate IsStripSlice(s: string, r: string, i: int, j: int) {
    && 0 <= i <= j <= |s| && r == s[i..j]
    && (forall k :: 0 <= k < i ==> IsSpace(s[k]))
    && (forall k :: j <= k < |s| ==> IsSpace(s[k]))
  }

  /** Cutting leading white space and then trailing white space leaves
      a strip slice. */
  lemma StripOfTrims(s: string, a: string, r: string)
    requires |a| <= |s| && a == s[|s| - |a|..]
    requires forall k :: 0 <= k < |s| - |a| ==> IsSpace(s[k])
    requires |r| <= |a| && r == a[..|r|]
    requires forall k :: |r| <= k < |a| ==> IsSpace(a[k])
    ensures IsStripSlice(s, r, |s| - |a|, |s| - |a| + |r|)
  {
    var i := |s| - |a|;
    var j := i + |r|;
    assert s[i..][..|r|] == s[i..j];
    forall k | j <= k < |s| ensures IsSpace(s[k]) {
      assert s[k] == a[k - i];
    }
  }

  /** Python's `s.strip()`: the result is a contiguous slice of `s`,
      everything cut away is white space, and the result neither starts
      nor ends with white space. */
  function Strip(s: string): (r: string)
    ensures exists i, j :: IsStripSlice(s, r, i, j)
    ensures |r| > 0 ==> !IsSpace(r[0]) && !IsSpace(r[|r| - 1])
  {
    var a := TrimStart(s);
    var r := TrimEnd(a);
    StripOfTrims(s, a, r);
    r
  }

  // ---- decimal formatting (the `{count}` and `{level}` fields) ----

  function DigitChar(d: nat): char
    requires d < 10
  {
    "0123456789"[d]
  }

  function DigitValue(c: char): nat {
    if '0' <= c <= '9' then c as int - '0' as int else 0
  }

  predicate IsDigit(c: char) {
    '0' <= c <= '9'
  }

  /** The number a string of decimal digits denotes. */
  function DigitsValue(s: string): nat
    decreases |s|
  {
    if |s| == 0 then 0 else 10 * DigitsValue(s[..|s| - 1]) + DigitValue(s[|s| - 1])
  }

  /** Python's `str(n)` for a natural number. */
  function NatToString(n: nat): (r: string)
    ensures 0 < |r|
    ensures forall i :: 0 <= i < |r| ==> IsDigit(r[i])
    ensures |r| > 1 ==> r[0] != '0'
  {
    if n < 10 then [DigitChar(n)] else NatToString(n / 10) + [DigitChar(n % 10)]
  }

  /** Reading the formatted number back yields the number. */
  lemma {:induction false} NatToStringRoundTrip(n: nat)
    ensures DigitsValue(NatToString(n)) == n
  {
    var r := NatToString(n);
    if n < 10 {
      assert r[..|r| - 1] == [];
    } else {
      NatToStringRoundTrip(n / 10);
      assert r[..|r| - 1] == NatToString(n / 10);
    }
  }

  // ---- path segmentation ----

  /** The length of the leading run of `s` that holds no '/'. */
  function RunLength(s: string): (n: nat)
    ensures n <= |s|
    ensures forall i :: 0 <= i < n ==> s[i] != '/'
    ensures n < |s| ==> s[n] == '/'
    decreases |s|
  {
    if |s| == 0 || s[0] == '/' then 0 else 1 + RunLength(s[1..])
  }

  predicate IsSegment(seg: string) {
    0 < |seg| && '/' !in seg
  }

  /** `[p for p in path.strip("/").split("/") if p]`: the non-empty
      pieces of `path` between slashes, in order. */
  function Segments(path: string): (parts: seq<string>)
    ensures forall i :: 0 <= i < |parts| ==> IsSegment(parts[i])
    decreases |path|
  {
    if |path| == 0 then []
    else if path[0] == '/' then Segments(path[1..])
    else
      var n := RunLength(path);
      assert '/' !in path[..n] by {
        forall i | 0 <= i < n ensures path[..n][i] != '/' { }
      }
      [path[..n]] + Segments(path[n..])
  }

  /** The canonical path whose segments are `parts`: "/a/b/c". */
  function JoinSegments(parts: seq<string>): string
    decreases |parts|
  {
    if |parts| == 0 then [] else "/" + parts[0] + JoinSegments(parts[1..])
  }

  lemma {:induction false} RunLengthOfSegment(seg: string, rest: string)
    requires IsSegment(seg)
    requires rest == [] || rest[0] == '/'
    ensures RunLength(seg + rest) == |seg|
    decreases |seg|
  {
    if |seg| > 1 {
      assert (seg + rest)[1..] == seg[1..] + rest;
      assert seg[1..] == seg[1..][..];
      assert '/' !in seg[1..] by {
        forall i | 0 <= i < |seg[1..]| ensures seg[1..][i] != '/' {
          assert seg[1..][i] == seg[i + 1];
        }
      }
      RunLengthOfSegment(seg[1..], rest);
    } else {
      assert (seg + rest)[1..] == rest;
    }
  }

  /** A slash, a segment and then a slash-led remainder segment to that
      segment followed by the remainder's segments. */
  lemma SegmentsOfSlashSegment(seg: string, rest: string)
    requires IsSegment(seg)
    requires rest == [] || rest[0] == '/'
    ensures Segments("/" + seg + rest) == [seg] + Segments(rest)
  {
    var p := "/" + seg + rest;
    assert p[0] == '/';
    assert p[1..] == seg + rest;
    RunLengthOfSegment(seg, rest);
    assert (seg + rest)[..|seg|] == seg;
    assert (seg + rest)[|seg|..] == rest;
  }

  lemma JoinSegmentsStartsWithSlash(parts: seq<string>)
    ensures JoinSegments(parts) == [] || JoinSegments(parts)[0] == '/'
  {
  }

  /** Segmenting a canonical path gives back its segments. */
  lemma {:induction false} SegmentsOfJoin(parts: seq<string>)
    requires forall i :: 0 <= i < |parts| ==> IsSegment(parts[i])
    ensures Segments(JoinSegments(parts)) == parts
    decreases |parts|
  {
    if |parts| > 0 {
      var rest := JoinSegments(parts[1..]);
      JoinSegmentsStartsWithSlash(parts[1..]);
      SegmentsOfSlashSegment(parts[0], rest);
      SegmentsOfJoin(parts[1..]);
      assert parts == [parts[0]] + parts[1..];
    }
  }

  /** A trailing slash adds no segment: "/a/b/" has the segments of
      "/a/b". */
  lemma {:induction false} SegmentsOfJoinSlash(parts: seq<string>)
    requires forall i :: 0 <= i < |parts| ==> IsSegment(parts[i])
    ensures Segments(JoinSegments(parts) + "/") == parts
    decreases |parts|
  {
    if |parts| == 0 {
      assert JoinSegments(parts) + "/" == "/";
      assert "/"[1..] == "";
    } else {
      var rest := JoinSegments(parts[1..]);
      JoinSegmentsStartsWithSlash(parts[1..]);
      assert (rest + "/")[0] == '/';
      assert JoinSegments(parts) + "/" == "/" + parts[0] + (rest + "/");
      SegmentsOfSlashSegment(parts[0], rest + "/");
      SegmentsOfJoinSlash(parts[1..]);
      assert parts == [parts[0]] + parts[1..];
    }
  }
}
