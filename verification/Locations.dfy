// Where a write goes, compared with the path that validation has checked.
module Locations {
  import opened Text
  import opened Wrappers
  import opened Sequences
  import opened Crd
  import opened Glob
  import opened OpenBao
  import opened Validation

  lemma {:induction false} PartsTrimStart(s: string)
    ensures Parts(TrimStart(s, c => c == '/')) == Parts(s)
  {
    if s != "" && s[0] == '/' {
      PartsTrimStart(s[1..]);
      SplitAt(s, 0);
      assert s[..0] == "";
      FilterConcat([""], Split(s[1..]), IsPushed);
      FilterOne("", IsPushed);
    }
  }

  lemma PartsOfTrailingSlash(s: string)
    ensures Parts(s + "/") == Parts(s)
  {
    SplitAppend(s, "/");
    SplitAt("/", 0);
    SplitWhole("");
    assert "/"[..0] == "" && "/"[1..] == "";
    assert Split("/") == ["", ""];
    var segments := Split(s);
    assert segments[|segments| - 1] + "" == segments[|segments| - 1];
    assert Glue(segments, ["", ""]) == segments + [""];
    FilterConcat(segments, [""], IsPushed);
    FilterOne("", IsPushed);
  }

  lemma {:induction false} PartsTrimEnd(s: string)
    ensures Parts(TrimEnd(s, c => c == '/')) == Parts(s)
  {
    if s != "" && s[|s| - 1] == '/' {
      PartsTrimEnd(s[..|s| - 1]);
      PartsOfTrailingSlash(s[..|s| - 1]);
      assert s == s[..|s| - 1] + "/";
    }
  }

  lemma PartsOfTrimmed(s: string)
    ensures Parts(TrimSlashes(s)) == Parts(s)
  {
    PartsTrimStart(s);
    PartsTrimEnd(TrimStart(s, c => c == '/'));
  }

  lemma TrimWithoutSlash(s: string)
    requires '/' !in s
    ensures TrimSlashes(s) == s
  {}

  lemma SplitPolicyPath(t: OpenBaoTarget)
    requires '/' !in t.mount
    ensures Split(t.PolicyPath()) == [t.mount] + (["data"] + Split(TrimSlashes(t.path)))
  {
    var p := TrimSlashes(t.path);
    TrimWithoutSlash(t.mount);
    assert t.PolicyPath() == t.mount + "/" + ("data" + "/" + p);
    SplitJoined(t.mount, "data" + "/" + p);
    SplitJoined("data", p);
  }

  /** Dropping segments shortens a path, so it is unchanged only if none is dropped. */
  lemma DropsNothing(first: string, mount: string, data: string, path: seq<string>, kept: seq<string>, keepsMount: bool)
    requires |kept| <= |path|
    ensures [first] + (if keepsMount then [mount] else []) + [data] + kept == [first] + ([mount] + ([data] + path)) <==>
            keepsMount && kept == path
  {
    var requested, checked := [first] + (if keepsMount then [mount] else []) + [data] + kept,
                              [first] + ([mount] + ([data] + path));
    assert checked[3..] == path;
    if keepsMount {
      assert requested[3..] == kept;
      assert requested[..3] == checked[..3];
      if kept == path { assert requested == requested[..3] + requested[3..]; }
    } else {
      assert |requested| < |checked|;
    }
  }

  predicate AllPushed(segments: seq<string>) {
    forall s | s in segments :: IsPushed(s)
  }

  /** The request goes to the very path that was checked against the allowed ones, if and only if
      neither the mount nor a segment of the path, slashes at its ends aside, is empty, "." or "..":
      such segments are dropped from the request, but were part of what was checked. Validation
      excludes the ".." in paths. */
  lemma RequestGoesToTheCheckedPathIff(t: OpenBaoTarget)
    requires '/' !in t.mount
    ensures LocationOf(t) == ["v1"] + Split(t.PolicyPath()) <==>
            IsPushed(t.mount) && AllPushed(Split(TrimSlashes(t.path)))
  {
    var segments := Split(TrimSlashes(t.path));
    SplitPolicyPath(t);
    PartsOfSegment(t.mount);
    PartsOfTrimmed(t.path);
    FilterShortens(segments, IsPushed);
    DropsNothing("v1", t.mount, "data", segments, Filter(segments, IsPushed), IsPushed(t.mount));
  }

  // ------------------------------------------------------------------------
  // What the difference means for the allow-list

  /** The path that a request for the target goes to, as a policy names it. */
  function WrittenPath(t: OpenBaoTarget): string {
    Join(LocationOf(t)[1..])
  }

  lemma {:induction false} PartsHaveNoSlash(s: string)
    ensures forall x | x in Parts(s) :: '/' !in x
  {
    forall x | x in Parts(s) ensures '/' !in x {
      FilterMember(Split(s), IsPushed, x);
      var k :| 0 <= k < |Split(s)| && Split(s)[k] == x;
      SplitHasNoSlash(s, k);
    }
  }

  lemma SplitWrittenPath(t: OpenBaoTarget)
    ensures Split(WrittenPath(t)) == LocationOf(t)[1..]
  {
    PartsHaveNoSlash(t.mount);
    PartsHaveNoSlash(t.path);
    var segments := LocationOf(t)[1..];
    assert segments == Parts(t.mount) + ["data"] + Parts(t.path);
    SplitJoin(segments);
  }

  /** Taking away a trailing `*` shortens the last segment. */
  lemma SplitWithoutStar(p: string)
    requires EndsInStar(p)
    ensures var before, all := Split(p[..|p| - 1]), Split(p);
            && |before| == |all|
            && before[..|all| - 1] == all[..|all| - 1]
            && before[|all| - 1] + "*" == all[|all| - 1]
  {
    var body := p[..|p| - 1];
    assert p == body + "*";
    SplitWhole("*");
    SplitAppend(body, "*");
  }

  /** Every path, taken as a pattern, matches itself. */
  lemma MatchesItself(p: string)
    ensures Matches(p, p)
  {
    if EndsInStar(p) {
      SplitWithoutStar(p);
      var before, all := Split(p[..|p| - 1]), Split(p);
      forall k | 0 <= k < |all| - 1 ensures SegmentMatches(before[k], all[k]) {
        assert before[..|all| - 1][k] == all[..|all| - 1][k];
      }
    }
  }

  /** And none with fewer segments. */
  lemma MatchesNothingShorter(p: string, path: string)
    requires |Split(path)| < |Split(p)|
    ensures !Matches(p, path)
  {
    if EndsInStar(p) {
      SplitWithoutStar(p);
    }
  }

  /** What allow-lists are for, exactly: a target that an allow-list admits is only ever written at a
      path that this list admits too, for every list, if and only if neither the mount nor a segment
      of the path is dropped from the request. */
  lemma WrittenWhereAllowedIff(t: OpenBaoTarget)
    requires '/' !in t.mount
    ensures (forall allowed | Allows(allowed, t.PolicyPath()) :: Allows(allowed, WrittenPath(t))) <==>
            IsPushed(t.mount) && AllPushed(Split(TrimSlashes(t.path)))
  {
    RequestGoesToTheCheckedPathIff(t);
    SplitWrittenPath(t);
    if IsPushed(t.mount) && AllPushed(Split(TrimSlashes(t.path))) {
      assert LocationOf(t)[1..] == Split(t.PolicyPath());
      JoinSplit(t.PolicyPath());
    } else {
      WrittenPathIsShorter(t);
      MatchesItself(t.PolicyPath());
      MatchesNothingShorter(t.PolicyPath(), WrittenPath(t));
      var onlyThis := [t.PolicyPath()];
      assert Allows(onlyThis, t.PolicyPath()) && !Allows(onlyThis, WrittenPath(t));
    }
  }

  lemma WrittenPathIsShorter(t: OpenBaoTarget)
    requires '/' !in t.mount && !(IsPushed(t.mount) && AllPushed(Split(TrimSlashes(t.path))))
    ensures |Split(WrittenPath(t))| < |Split(t.PolicyPath())|
  {
    var segments := Split(TrimSlashes(t.path));
    SplitWrittenPath(t);
    SplitPolicyPath(t);
    PartsOfSegment(t.mount);
    PartsOfTrimmed(t.path);
    FilterShortens(segments, IsPushed);
  }

  lemma TrimKeeps(s: string)
    requires s != "" && s[0] != '/' && s[|s| - 1] != '/'
    ensures TrimSlashes(s) == s
  {}

  /** A path of two segments is checked segment by segment. */
  lemma TwoSegments(m: string, a: string, b: string, k: string)
    requires a != "" && b != "" && '/' !in m && '/' !in a && '/' !in b
    ensures var t := OpenBaoTarget(m, a + "/" + b, k);
            Split(t.path) == [a, b] && Split(t.PolicyPath()) == [m] + (["data"] + [a, b])
  {
    var t := OpenBaoTarget(m, a + "/" + b, k);
    SplitJoined(a, b);
    SplitWhole(b);
    TrimKeeps(t.path);
    SplitPolicyPath(t);
  }

  lemma PlusStandsForAny(pattern: string, path: string, m: string, a: string, b: string)
    requires Split(pattern) == [m] + (["data"] + ["+", b]) && Split(path) == [m] + (["data"] + [a, b])
    requires a != "" && !EndsInStar(pattern)
    ensures Allows([pattern], path)
  {
    ExactTail(m, ["data"] + ["+", b], m, ["data"] + [a, b]);
    ExactTail("data", ["+", b], "data", [a, b]);
    assert Matches(pattern, path);
    assert pattern in [pattern];
  }

  lemma NotBlankFrom(s: string)
    requires s != "" && !IsWhitespace(s[0])
    ensures !Blank(s)
  {
    TrimMeaning(s);
  }

  lemma PolicyPathEnds(m: string, a: string, b: string, k: string)
    requires a != "" && b != "" && '/' !in m && '/' !in a && '/' !in b && !EndsInStar(b)
    ensures !EndsInStar(OpenBaoTarget(m, a + "/" + b, k).PolicyPath())
  {
    var t := OpenBaoTarget(m, a + "/" + b, k);
    TrimKeeps(t.path);
    var path := t.PolicyPath();
    assert path == TrimSlashes(m) + "/data/" + t.path;
    assert path[|path| - 1] == t.path[|t.path| - 1] == b[|b| - 1];
  }

  /** A path that starts with "." is accepted where "+" is allowed, but not written there. */
  lemma DotSegmentIsDropped(m: string, p: string, k: string, t: OpenBaoTarget, pattern: string)
    requires t == OpenBaoTarget(m, "." + "/" + p, k) && pattern == OpenBaoTarget(m, "+" + "/" + p, k).PolicyPath()
    requires p != "" && '/' !in m && '/' !in p && !EndsInStar(p)
    ensures Split(t.path) == [".", p]
    ensures Allows([pattern], t.PolicyPath()) && !Allows([pattern], WrittenPath(t))
  {
    TwoSegments(m, ".", p, k);
    TwoSegments(m, "+", p, k);
    PolicyPathEnds(m, "+", p, k);
    PlusStandsForAny(pattern, t.PolicyPath(), m, ".", p);
    TrimKeeps(t.path);
    assert !AllPushed([".", p]) by { assert "." in [".", p]; }
    WrittenPathIsShorter(t);
    MatchesNothingShorter(pattern, WrittenPath(t));
  }

  lemma DotPathIsOk(t: OpenBaoTarget, p: string, allowed: seq<string>)
    requires t.path != "" && t.path[0] == '.' && Split(t.path) == [".", p] && p != ".."
    requires '/' !in t.mount && !Blank(t.mount) && !Blank(t.key) && Allows(allowed, t.PolicyPath())
    ensures TargetOk(TargetSpec(Some(t)), allowed)
  {
    NotBlankFrom(t.path);
    assert ".." !in [".", p];
  }

  /** Such targets are accepted: for every mount, path and key, `./path` passes validation if
      `<mount>/data/+/path` is all that is allowed, and is written at a path that is not allowed. */
  lemma AcceptedButWrittenElsewhere(m: string, p: string, k: string)
    requires !Blank(m) && !Blank(k) && p != "" && p != ".." && '/' !in m && '/' !in p && !EndsInStar(p)
    ensures var t, allowed := OpenBaoTarget(m, "." + "/" + p, k), [OpenBaoTarget(m, "+" + "/" + p, k).PolicyPath()];
            && TargetOk(TargetSpec(Some(t)), allowed)
            && !Allows(allowed, WrittenPath(t))
  {
    var t, pattern := OpenBaoTarget(m, "." + "/" + p, k), OpenBaoTarget(m, "+" + "/" + p, k).PolicyPath();
    DotSegmentIsDropped(m, p, k, t, pattern);
    DotPathIsOk(t, p, [pattern]);
  }
}
