// src/validation.rs: globs for OpenBao target paths. `+` stands for one path segment, a trailing
// `*` for any suffix.
module Glob {
  import opened Text

  predicate SegmentMatches(pattern: string, segment: string) {
    if pattern == "+" then segment != "" else pattern == segment
  }

  /** A pattern without trailing `*`: segment by segment, equally many. */
  predicate ExactMatches(pattern: seq<string>, path: seq<string>) {
    && |pattern| == |path|
    && forall k | 0 <= k < |pattern| :: SegmentMatches(pattern[k], path[k])
  }

  /** What stands before a trailing `*`: all but the last segment match, and the last is the start
      of its segment, or stands for a whole non-empty one when it is `+`. */
  predicate PrefixMatches(pattern: seq<string>, path: seq<string>)
    requires pattern != []
  {
    var n := |pattern| - 1;
    && n < |path|
    && (forall k | 0 <= k < n :: SegmentMatches(pattern[k], path[k]))
    && (if pattern[n] == "+" then path[n] != "" else pattern[n] <= path[n])
  }

  predicate EndsInStar(pattern: string) {
    pattern != "" && pattern[|pattern| - 1] == '*'
  }

  /** The glob semantics, on the segments of the pattern and of the path. */
  predicate Matches(pattern: string, path: string) {
    if EndsInStar(pattern) then PrefixMatches(Split(pattern[..|pattern| - 1]), Split(path))
    else ExactMatches(Split(pattern), Split(path))
  }

  lemma FirstSegment(s: string)
    ensures var i := SlashIndex(s);
            && Split(s)[0] == s[..i]
            && (i < |s| ==> Split(s)[1..] == Split(s[i + 1..]))
            && (i == |s| ==> |Split(s)| == 1)
  {}

  lemma StartsWithSegment(seg: string, s: string)
    requires '/' !in seg
    ensures seg <= s <==> seg <= Split(s)[0]
  {
    var i := SlashIndex(s);
    if i < |s| && i < |seg| {
      assert seg[i] != '/' && s[i] == '/';
    }
  }

  /** The test on the remainder for the last segment before a `*` is a test of its first segment. */
  lemma LastSegment(seg: string, rest: string)
    requires '/' !in seg
    ensures seg <= rest <==> seg <= Split(rest)[0]
    ensures (if SlashIndex(rest) < |rest| then SlashIndex(rest) > 0 else rest != "") <==> Split(rest)[0] != ""
  {
    StartsWithSegment(seg, rest);
  }

  lemma PrefixTail(a: string, p: seq<string>, b: string, s: seq<string>)
    requires p != []
    ensures PrefixMatches([a] + p, [b] + s) <==> SegmentMatches(a, b) && PrefixMatches(p, s)
  {
    var ap, bs := [a] + p, [b] + s;
    if PrefixMatches(ap, bs) {
      assert SegmentMatches(ap[0], bs[0]);
      forall k | 0 <= k < |p| - 1 ensures SegmentMatches(p[k], s[k]) {
        assert SegmentMatches(ap[k + 1], bs[k + 1]);
      }
    }
    if SegmentMatches(a, b) && PrefixMatches(p, s) {
      forall k | 0 <= k < |ap| - 1 ensures SegmentMatches(ap[k], bs[k]) {
        if k > 0 { assert SegmentMatches(p[k - 1], s[k - 1]); }
      }
    }
  }

  lemma ExactTail(a: string, p: seq<string>, b: string, s: seq<string>)
    ensures ExactMatches([a] + p, [b] + s) <==> SegmentMatches(a, b) && ExactMatches(p, s)
  {
    var ap, bs := [a] + p, [b] + s;
    if ExactMatches(ap, bs) {
      assert SegmentMatches(ap[0], bs[0]);
      forall k | 0 <= k < |p| ensures SegmentMatches(p[k], s[k]) {
        assert SegmentMatches(ap[k + 1], bs[k + 1]);
      }
    }
    if SegmentMatches(a, b) && ExactMatches(p, s) {
      forall k | 0 <= k < |ap| ensures SegmentMatches(ap[k], bs[k]) {
        if k > 0 { assert SegmentMatches(p[k - 1], s[k - 1]); }
      }
    }
  }

  /** What is left to match. */
  predicate MatchesFrom(prefix: bool, pattern: seq<string>, path: seq<string>)
    requires pattern != []
  {
    if prefix then PrefixMatches(pattern, path) else ExactMatches(pattern, path)
  }

  /** The first segments decide together with the rest, where both have one. */
  lemma FirstDecides(prefix: bool, pattern: seq<string>, path: seq<string>)
    requires |pattern| > 1 && path != []
    ensures MatchesFrom(prefix, pattern, path) <==>
            SegmentMatches(pattern[0], path[0]) && |path| > 1 && MatchesFrom(prefix, pattern[1..], path[1..])
  {
    assert pattern == [pattern[0]] + pattern[1..] && path == [path[0]] + path[1..];
    PrefixTail(pattern[0], pattern[1..], path[0], path[1..]);
    ExactTail(pattern[0], pattern[1..], path[0], path[1..]);
  }

  /** The last segment of a pattern decides alone. */
  lemma LastDecides(prefix: bool, pattern: seq<string>, path: seq<string>)
    requires |pattern| == 1 && path != []
    ensures MatchesFrom(prefix, pattern, path) <==>
            if prefix then (if pattern[0] == "+" then path[0] != "" else pattern[0] <= path[0])
            else SegmentMatches(pattern[0], path[0]) && |path| == 1
  {}

  /** The hand-written loop over string remainders computes the segment semantics. */
  method GlobMatch(pattern: string, path: string) returns (matched: bool)
    ensures matched == Matches(pattern, path)
  {
    var prefix := EndsInStar(pattern);
    var body := if prefix then pattern[..|pattern| - 1] else pattern;
    var segments := Split(body);
    var rest := path;
    var i := 0;
    while i < |segments|
      invariant 0 <= i <= |segments|
      invariant Matches(pattern, path) <==> i < |segments| && MatchesFrom(prefix, segments[i..], Split(rest))
    {
      var seg := segments[i];
      ghost var left, ahead := segments[i..], Split(rest);
      i := i + 1;
      var isLast := i == |segments|;
      FirstSegment(rest);
      if isLast { LastDecides(prefix, left, ahead); } else { FirstDecides(prefix, left, ahead); }
      var slash := SlashIndex(rest);
      if isLast && prefix {
        SplitHasNoSlash(body, i - 1);
        LastSegment(seg, rest);
        return if seg == "+" then (if slash < |rest| then slash > 0 else rest != "") else seg <= rest;
      }
      var current := rest[..slash];
      var ok := if seg == "+" then current != "" else current == seg;
      if !ok {
        return false;
      }
      if slash == |rest| {
        return isLast && !prefix;
      }
      rest := rest[slash + 1..];
    }
    return false;
  }

  // ------------------------------------------------------------------------
  // What the semantics means for the path as a plain string

  predicate HasWildcardSegment(pattern: string) {
    "+" in Split(pattern)
  }

  lemma StartsWithPair(x: string, y: string, path: string)
    ensures x + y <= path <==> x <= path && y <= path[|x|..]
  {
    if x + y <= path {
      assert path == x + y + path[|x + y|..];
      assert path[|x|..] == y + path[|x + y|..];
    }
    if x <= path && y <= path[|x|..] {
      assert path == x + (y + path[|x|..][|y|..]);
    }
  }

  lemma StartsWithJoined(a: string, q: string, path: string)
    requires '/' !in a
    ensures a + "/" + q <= path <==>
            |a| < |path| && SlashIndex(path) == |a| && path[..|a|] == a && q <= path[|a| + 1..]
  {
    StartsWithPair(a + "/", q, path);
    StartsWithPair(a, "/", path);
    if a <= path && |a| < |path| && path[|a|] == '/' {
      assert forall k | 0 <= k < |a| :: path[k] == a[k];
      SlashIndexUnique(path, |a|);
    }
  }

  lemma PlainTail(p: string)
    requires !HasWildcardSegment(p) && SlashIndex(p) < |p|
    ensures var i := SlashIndex(p);
            && p == p[..i] + "/" + p[i + 1..]
            && |Split(p)| > 1 && Split(p)[0] == p[..i] != "+"
            && Split(p)[1..] == Split(p[i + 1..]) && !HasWildcardSegment(p[i + 1..])
  {
    FirstSlash(p);
    FirstSegment(p);
    assert Split(p)[0] in Split(p);
    assert forall s | s in Split(p)[1..] :: s in Split(p);
  }

  lemma {:induction false} PlainPrefix(p: string, path: string)
    requires !HasWildcardSegment(p)
    ensures PrefixMatches(Split(p), Split(path)) <==> p <= path
    decreases |p|
  {
    var i, j := SlashIndex(p), SlashIndex(path);
    FirstSegment(p);
    FirstSegment(path);
    if i == |p| {
      assert Split(p)[0] in Split(p);
      LastDecides(true, Split(p), Split(path));
      StartsWithSegment(p, path);
    } else {
      PlainTail(p);
      FirstDecides(true, Split(p), Split(path));
      StartsWithJoined(p[..i], p[i + 1..], path);
      if j < |path| {
        PlainPrefix(p[i + 1..], path[j + 1..]);
      }
    }
  }

  lemma PlainExact(p: string, path: string)
    requires !HasWildcardSegment(p)
    ensures ExactMatches(Split(p), Split(path)) <==> p == path
  {
    if ExactMatches(Split(p), Split(path)) {
      assert forall k | 0 <= k < |Split(p)| :: SegmentMatches(Split(p)[k], Split(path)[k]);
      SplitInjective(p, path);
    }
  }

  /** Without a `+` segment, `p*` matches exactly the strings that start with `p`, and a pattern
      without trailing `*` matches only itself. */
  lemma PlainPatterns(p: string, path: string)
    requires !HasWildcardSegment(p)
    ensures Matches(p + "*", path) <==> p <= path
    ensures !EndsInStar(p) ==> (Matches(p, path) <==> p == path)
  {
    assert (p + "*")[..|p|] == p;
    PlainPrefix(p, path);
    PlainExact(p, path);
  }

  // ------------------------------------------------------------------------
  // What the semantics means for any pattern: filling in the wildcards

  /** A filling of the segments of a pattern: something without slash for each `+`, nothing else. */
  predicate Fills(pattern: seq<string>, filling: seq<string>) {
    && |filling| == |pattern|
    && forall k | 0 <= k < |pattern| ::
         if pattern[k] == "+" then filling[k] != "" && '/' !in filling[k] else filling[k] == pattern[k]
  }

  /** The string is the pattern with each `+` segment filled in. */
  ghost predicate IsInstance(pattern: string, s: string) {
    exists filling :: filling != [] && Fills(Split(pattern), filling) && s == Join(filling)
  }

  lemma SplitFilling(pattern: string, filling: seq<string>)
    requires filling != [] && Fills(Split(pattern), filling)
    ensures Split(Join(filling)) == filling
  {
    forall x | x in filling ensures '/' !in x {
      var k :| 0 <= k < |filling| && filling[k] == x;
      SplitHasNoSlash(pattern, k);
    }
    SplitJoin(filling);
  }

  lemma NoSlashes(path: string)
    ensures forall k | 0 <= k < |Split(path)| :: '/' !in Split(path)[k]
  {
    forall k | 0 <= k < |Split(path)| ensures '/' !in Split(path)[k] {
      SplitHasNoSlash(path, k);
    }
  }

  /** A pattern without trailing `*` matches exactly its instances. */
  lemma ExactMatchesInstances(p: string, path: string)
    ensures ExactMatches(Split(p), Split(path)) <==> IsInstance(p, path)
  {
    if ExactMatches(Split(p), Split(path)) {
      NoSlashes(path);
      forall k | 0 <= k < |Split(p)| ensures SegmentMatches(Split(p)[k], Split(path)[k]) {}
      JoinSplit(path);
      assert Fills(Split(p), Split(path));
    }
    if IsInstance(p, path) {
      var filling :| filling != [] && Fills(Split(p), filling) && path == Join(filling);
      SplitFilling(p, filling);
    }
  }

  /** What starts with an instance has its segments, the last one possibly longer. */
  lemma InstancePrefixMatches(p: string, s: string, path: string)
    requires IsInstance(p, s) && s <= path
    ensures PrefixMatches(Split(p), Split(path))
  {
    var filling :| filling != [] && Fills(Split(p), filling) && s == Join(filling);
    SplitFilling(p, filling);
    assert path == s + path[|s|..];
    var n := |Split(p)| - 1;
    forall k | 0 <= k < n ensures SegmentMatches(Split(p)[k], Split(s)[k]) {}
    assert filling[n] == Split(s)[n];
    PrefixClosed(Split(p), s, path[|s|..]);
  }

  /** The segments matched, with the last one cut to what the pattern asks for. */
  function CutFilling(p: seq<string>, path: seq<string>): seq<string>
    requires p != [] && |p| <= |path|
  {
    var n := |p| - 1;
    path[..n] + [if p[n] == "+" then path[n] else p[n]]
  }

  lemma JoinPrefix(a: seq<string>, b: seq<string>)
    requires a != [] && |a| <= |b|
    requires a[..|a| - 1] == b[..|a| - 1] && a[|a| - 1] <= b[|a| - 1]
    ensures Join(a) <= Join(b)
  {
    if |a| == 1 {
      if |b| > 1 { assert Join(b) == b[0] + "/" + Join(b[1..]); }
    } else {
      assert a[0] == a[..|a| - 1][0] == b[0];
      assert a[1..][..|a| - 2] == a[..|a| - 1][1..] && b[1..][..|a| - 2] == b[..|a| - 1][1..];
      JoinPrefix(a[1..], b[1..]);
      StartsWithPair(a[0] + "/", Join(a[1..]), Join(b));
    }
  }

  lemma CutFills(pattern: seq<string>, segments: seq<string>)
    requires pattern != [] && PrefixMatches(pattern, segments)
    requires forall k | 0 <= k < |segments| :: '/' !in segments[k]
    ensures Fills(pattern, CutFilling(pattern, segments))
  {
    var filling, n := CutFilling(pattern, segments), |pattern| - 1;
    forall k | 0 <= k < n
      ensures if pattern[k] == "+" then filling[k] != "" && '/' !in filling[k] else filling[k] == pattern[k]
    {
      assert filling[k] == segments[k] && SegmentMatches(pattern[k], segments[k]);
    }
  }

  lemma PrefixStartsWithInstance(p: string, path: string)
    requires PrefixMatches(Split(p), Split(path))
    ensures exists s | s <= path :: IsInstance(p, s)
  {
    var filling := CutFilling(Split(p), Split(path));
    NoSlashes(path);
    CutFills(Split(p), Split(path));
    JoinPrefix(filling, Split(path));
    JoinSplit(path);
    assert IsInstance(p, Join(filling));
  }

  lemma PrefixMatchesInstances(p: string, path: string)
    ensures PrefixMatches(Split(p), Split(path)) <==> exists s | s <= path :: IsInstance(p, s)
  {
    if PrefixMatches(Split(p), Split(path)) {
      PrefixStartsWithInstance(p, path);
    }
    if s :| s <= path && IsInstance(p, s) {
      InstancePrefixMatches(p, s, path);
    }
  }

  /** For every pattern: without trailing `*` it matches exactly the strings that fill each `+` segment
      with some non-empty text without slash, and `p*` exactly those that start with such a string. */
  lemma MatchesInstances(p: string, path: string)
    ensures Matches(p + "*", path) <==> exists s | s <= path :: IsInstance(p, s)
    ensures !EndsInStar(p) ==> (Matches(p, path) <==> IsInstance(p, path))
  {
    assert (p + "*")[..|p|] == p;
    PrefixMatchesInstances(p, path);
    ExactMatchesInstances(p, path);
  }

  lemma PrefixClosed(p: seq<string>, s: string, t: string)
    requires p != [] && PrefixMatches(p, Split(s))
    ensures PrefixMatches(p, Split(s + t))
  {
    SplitAppend(s, t);
    var a, c, n := Split(s), Split(s + t), |p| - 1;
    assert forall k | 0 <= k < |a| - 1 :: c[k] == a[k];
    assert a[|a| - 1] <= c[|a| - 1];
    assert a[n] <= c[n];
  }

  /** For every pattern: whatever `p*` matches it matches with any suffix, and whatever `p` itself
      matches, `p*` matches with any suffix. */
  lemma StarAbsorbsSuffixes(p: string, path: string, suffix: string)
    ensures Matches(p + "*", path) ==> Matches(p + "*", path + suffix)
    ensures !EndsInStar(p) && Matches(p, path) ==> Matches(p + "*", path + suffix)
  {
    assert (p + "*")[..|p|] == p;
    if Matches(p + "*", path) {
      PrefixClosed(Split(p), path, suffix);
    }
    if !EndsInStar(p) && Matches(p, path) {
      var n := |Split(p)| - 1;
      assert SegmentMatches(Split(p)[n], Split(path)[n]);
      PrefixClosed(Split(p), path, suffix);
    }
  }

  // ------------------------------------------------------------------------
  // PathAllowList

  /** `PathAllowList::new`: trimmed, and the empty ones dropped. */
  function AllowList(patterns: seq<string>): seq<string> {
    if patterns == [] then []
    else (if Blank(patterns[0]) then [] else [Trim(patterns[0])]) + AllowList(patterns[1..])
  }

  /** `PathAllowList::allows`. */
  predicate Allows(allowed: seq<string>, path: string) {
    exists p | p in allowed :: Matches(p, path)
  }

  /** A path is allowed exactly when some configured pattern that is not blank matches it. */
  lemma {:induction false} AllowListMeaning(patterns: seq<string>, path: string)
    ensures Allows(AllowList(patterns), path) <==>
            exists k | 0 <= k < |patterns| :: !Blank(patterns[k]) && Matches(Trim(patterns[k]), path)
  {
    if patterns != [] {
      var head, tail := patterns[0], patterns[1..];
      AllowListMeaning(tail, path);
      var all := AllowList(patterns);
      if Allows(all, path) {
        var p :| p in all && Matches(p, path);
        if p in AllowList(tail) {
          assert Allows(AllowList(tail), path);
          var k :| 0 <= k < |tail| && !Blank(tail[k]) && Matches(Trim(tail[k]), path);
          assert patterns[k + 1] == tail[k];
        } else {
          assert p == Trim(patterns[0]);
        }
      }
      if k :| 0 <= k < |patterns| && !Blank(patterns[k]) && Matches(Trim(patterns[k]), path) {
        if k == 0 {
          assert Trim(head) in all;
        } else {
          assert patterns[k] == tail[k - 1];
          var p :| p in AllowList(tail) && Matches(p, path);
          assert p in all;
        }
      }
    }
  }
}
