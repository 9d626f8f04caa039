// String operations of Rust's standard library that the core files call.
module Text {

  /** The characters with Unicode's White_Space property, which `str::trim` removes. */
  predicate IsWhitespace(c: char) {
    || '\U{0009}' <= c <= '\U{000D}'
    || c == ' '
    || c == '\U{0085}'
    || c == '\U{00A0}'
    || c == '\U{1680}'
    || '\U{2000}' <= c <= '\U{200A}'
    || c == '\U{2028}'
    || c == '\U{2029}'
    || c == '\U{202F}'
    || c == '\U{205F}'
    || c == '\U{3000}'
  }

  function TrimStart(s: string, drop: char -> bool): string {
    if s != "" && drop(s[0]) then TrimStart(s[1..], drop) else s
  }

  function TrimEnd(s: string, drop: char -> bool): string {
    if s != "" && drop(s[|s| - 1]) then TrimEnd(s[..|s| - 1], drop) else s
  }

  /** `str::trim`. */
  function Trim(s: string): string {
    TrimEnd(TrimStart(s, IsWhitespace), IsWhitespace)
  }

  /** `str::trim_matches('/')`. */
  function TrimSlashes(s: string): string {
    TrimEnd(TrimStart(s, c => c == '/'), c => c == '/')
  }

  /** `s.trim().is_empty()`: nothing but white space. */
  predicate Blank(s: string) {
    Trim(s) == ""
  }

  ghost predicate Inside(t: string, s: string, drop: char -> bool) {
    exists i, j | 0 <= i <= j <= |s| ::
      && t == s[i..j]
      && (forall k | 0 <= k < |s| && !(i <= k < j) :: drop(s[k]))
  }

  lemma {:induction false} TrimStartInside(s: string, drop: char -> bool) returns (i: nat)
    ensures i <= |s| && TrimStart(s, drop) == s[i..]
    ensures forall k | 0 <= k < i :: drop(s[k])
    ensures i < |s| ==> !drop(s[i])
  {
    i := 0;
    if s != "" && drop(s[0]) {
      var j := TrimStartInside(s[1..], drop);
      i := j + 1;
      assert s[1..][j..] == s[i..];
      forall k | 0 <= k < i ensures drop(s[k]) {
        if k > 0 { assert s[k] == s[1..][k - 1]; }
      }
    }
  }

  lemma {:induction false} TrimEndInside(s: string, drop: char -> bool) returns (j: nat)
    ensures j <= |s| && TrimEnd(s, drop) == s[..j]
    ensures forall k | j <= k < |s| :: drop(s[k])
    ensures j > 0 ==> !drop(s[j - 1])
  {
    j := |s|;
    if s != "" && drop(s[|s| - 1]) {
      j := TrimEndInside(s[..|s| - 1], drop);
      assert s[..|s| - 1][..j] == s[..j];
    }
  }

  /** Outer slashes are cut off, all of them and nothing else. */
  lemma TrimSlashesMeaning(s: string)
    ensures Inside(TrimSlashes(s), s, c => c == '/')
    ensures TrimSlashes(s) != "" ==> TrimSlashes(s)[0] != '/' && TrimSlashes(s)[|TrimSlashes(s)| - 1] != '/'
  {
    var i := TrimStartInside(s, c => c == '/');
    var j := TrimEndInside(s[i..], c => c == '/');
    assert s[i..][..j] == s[i..i + j];
    forall k | 0 <= k < |s| && !(i <= k < i + j) ensures s[k] == '/' {
      if k >= i + j { assert s[k] == s[i..][k - i]; }
    }
  }

  /** What is cut off is all white space, and what is left neither starts nor ends with it. */
  lemma TrimMeaning(s: string)
    ensures Inside(Trim(s), s, IsWhitespace)
    ensures Trim(s) != "" ==> !IsWhitespace(Trim(s)[0]) && !IsWhitespace(Trim(s)[|Trim(s)| - 1])
    ensures Blank(s) <==> forall k | 0 <= k < |s| :: IsWhitespace(s[k])
  {
    var i := TrimStartInside(s, IsWhitespace);
    var j := TrimEndInside(s[i..], IsWhitespace);
    assert s[i..][..j] == s[i..i + j];
    forall k | 0 <= k < |s| && !(i <= k < i + j) ensures IsWhitespace(s[k]) {
      if k >= i + j { assert s[k] == s[i..][k - i]; }
    }
  }

  /** A string with no white space at either end is left alone. */
  lemma TrimIdentity(s: string)
    requires s != "" && !IsWhitespace(s[0]) && !IsWhitespace(s[|s| - 1])
    ensures Trim(s) == s
  {}

  // ------------------------------------------------------------------------
  // split('/')

  /** Position of the first slash, or the length when there is none. */
  function SlashIndex(s: string): (i: nat)
    ensures i <= |s|
    ensures i < |s| ==> s[i] == '/'
    ensures forall k | 0 <= k < i :: s[k] != '/'
  {
    if s == "" || s[0] == '/' then 0 else 1 + SlashIndex(s[1..])
  }

  /** `s.split('/')`: always at least one segment, none of which holds a slash. */
  function Split(s: string): (segments: seq<string>)
    ensures |segments| >= 1
    decreases |s|
  {
    var i := SlashIndex(s);
    if i == |s| then [s] else [s[..i]] + Split(s[i + 1..])
  }

  function Join(segments: seq<string>): string
    requires segments != []
  {
    if |segments| == 1 then segments[0] else segments[0] + "/" + Join(segments[1..])
  }

  lemma CutAt(s: string, i: nat)
    requires i < |s|
    ensures s == s[..i] + [s[i]] + s[i + 1..]
  {}

  /** Cutting a string at its first slash. */
  lemma FirstSlash(s: string)
    ensures var i := SlashIndex(s);
            '/' !in s[..i] && (i < |s| ==> s == s[..i] + "/" + s[i + 1..])
  {
    var i := SlashIndex(s);
    if i < |s| {
      CutAt(s, i);
      assert [s[i]] == "/";
    }
  }

  lemma JoinStep(first: string, rest: seq<string>)
    requires rest != []
    ensures Join([first] + rest) == first + "/" + Join(rest)
  {
    assert ([first] + rest)[1..] == rest;
  }

  lemma {:induction false} JoinSplit(s: string)
    ensures Join(Split(s)) == s
    decreases |s|
  {
    var i := SlashIndex(s);
    if i < |s| {
      var first, rest := s[..i], s[i + 1..];
      FirstSlash(s);
      JoinStep(first, Split(rest));
      JoinSplit(rest);
    }
  }

  lemma SplitInjective(s: string, t: string)
    requires Split(s) == Split(t)
    ensures s == t
  {
    JoinSplit(s);
    JoinSplit(t);
  }

  lemma SlashIndexUnique(s: string, i: nat)
    requires i <= |s|
    requires i < |s| ==> s[i] == '/'
    requires forall k | 0 <= k < i :: s[k] != '/'
    ensures SlashIndex(s) == i
  {}

  lemma {:induction false} SplitHasNoSlash(s: string, k: nat)
    requires k < |Split(s)|
    ensures '/' !in Split(s)[k]
    decreases |s|
  {
    var i := SlashIndex(s);
    if i < |s| && k > 0 {
      SplitHasNoSlash(s[i + 1..], k - 1);
    }
  }

  /** The segments of two strings set end to end: the touching ones become one. */
  function Glue(a: seq<string>, b: seq<string>): seq<string>
    requires a != [] && b != []
  {
    a[..|a| - 1] + [a[|a| - 1] + b[0]] + b[1..]
  }

  lemma SplitAt(s: string, i: nat)
    requires i < |s| && s[i] == '/' && '/' !in s[..i]
    ensures Split(s) == [s[..i]] + Split(s[i + 1..])
  {
    assert forall k | 0 <= k < i :: s[k] == s[..i][k];
    SlashIndexUnique(s, i);
  }

  lemma SplitWhole(s: string)
    requires '/' !in s
    ensures Split(s) == [s]
  {
    SlashIndexUnique(s, |s|);
  }

  lemma GlueFirst(x: string, a: seq<string>, b: seq<string>)
    requires a != [] && b != []
    ensures Glue([x] + a, b) == [x] + Glue(a, b)
  {
    var c := [x] + a;
    assert c[..|c| - 1] == [x] + a[..|a| - 1];
  }

  lemma GlueSegment(s: string, x: string, rest: seq<string>)
    ensures Glue([s], [x] + rest) == [s + x] + rest
  {}

  lemma SplitAppendToSegment(s: string, t: string)
    requires '/' !in s
    ensures Split(s + t) == Glue([s], Split(t))
  {
    var j := SlashIndex(t);
    if j < |t| {
      SplitShifted(s, t, j);
      SplitAt(t, j);
      GlueSegment(s, t[..j], Split(t[j + 1..]));
    } else {
      SplitWhole(t);
      SplitWhole(s + t);
    }
  }

  lemma SplitShifted(s: string, t: string, j: nat)
    requires '/' !in s
    requires j < |t| && t[j] == '/' && '/' !in t[..j]
    ensures Split(s + t) == [s + t[..j]] + Split(t[j + 1..])
  {
    var k := |s| + j;
    assert (s + t)[..k] == s + t[..j];
    assert (s + t)[k + 1..] == t[j + 1..];
    SplitAt(s + t, k);
  }

  lemma SplitJoined(a: string, rest: string)
    requires '/' !in a
    ensures Split(a + "/" + rest) == [a] + Split(rest)
  {
    var whole := a + "/" + rest;
    assert whole[..|a|] == a && whole[|a| + 1..] == rest;
    SplitAt(whole, |a|);
  }

  lemma {:induction false} SplitJoin(segments: seq<string>)
    requires segments != [] && forall x | x in segments :: '/' !in x
    ensures Split(Join(segments)) == segments
  {
    if |segments| == 1 {
      SplitWhole(segments[0]);
    } else {
      SplitJoin(segments[1..]);
      SplitJoined(segments[0], Join(segments[1..]));
    }
  }

  /** Appending to a string extends its last segment and adds the rest. */
  lemma {:induction false} SplitAppend(s: string, t: string)
    ensures Split(s + t) == Glue(Split(s), Split(t))
    decreases |s|
  {
    var i := SlashIndex(s);
    FirstSlash(s);
    if i == |s| {
      SplitAppendToSegment(s, t);
    } else {
      var a, tail := s[..i], s[i + 1..];
      SplitAppend(tail, t);
      SplitJoined(a, tail);
      SplitJoined(a, tail + t);
      assert s + t == a + "/" + (tail + t);
      GlueFirst(a, Split(tail), Split(t));
    }
  }

  // ------------------------------------------------------------------------
  // Decimal numerals

  predicate IsDigit(c: char) {
    '0' <= c <= '9'
  }

  predicate AllDigits(s: string) {
    forall k | 0 <= k < |s| :: IsDigit(s[k])
  }

  function NumeralValue(s: string): nat
    requires AllDigits(s)
  {
    if s == "" then 0 else 10 * NumeralValue(s[..|s| - 1]) + (s[|s| - 1] as int - '0' as int)
  }

  function Numeral(n: nat): (s: string)
    ensures s != "" && AllDigits(s)
  {
    var digit := (n % 10 + '0' as int) as char;
    if n < 10 then [digit] else Numeral(n / 10) + [digit]
  }

  lemma {:induction false} NumeralRoundTrip(n: nat)
    ensures NumeralValue(Numeral(n)) == n
  {
    if n >= 10 {
      NumeralRoundTrip(n / 10);
      assert Numeral(n)[..|Numeral(n)| - 1] == Numeral(n / 10);
    }
  }
}
