/** The route and consumer gate: path patterns with one-segment wildcards and open ends, matched segment by segment, and
    what that matching means in terms of concrete paths. */
module RouteMatching {

  function SegmentEnd(path: string): (n: nat)
    ensures n <= |path| && '/' !in path[..n] && (n < |path| ==> path[n] == '/')
    ensures path != "" && path[0] != '/' ==> n > 0
  {
    if path == "" || path[0] == '/' then 0
    else
      var n := SegmentEnd(path[1..]);
      assert path[..n + 1] == [path[0]] + path[1..][..n];
      n + 1
  }

  /** The non-empty pieces between slashes. */
  function Segments(path: string): seq<string>
    decreases |path|
  {
    if path == "" then []
    else if path[0] == '/' then Segments(path[1..])
    else [path[..SegmentEnd(path)]] + Segments(path[SegmentEnd(path)..])
  }

  /** A pattern that ends in a slash serves, or stands for, everything below it. */
  predicate IsOpen(path: string) {
    path != "" && path[|path| - 1] == '/'
  }

  predicate SegmentsAgree(a: string, b: string) {
    a == b || a == "*" || b == "*"
  }

  /** Agreement over the shorter of the two lists. */
  predicate Agree(rs: seq<string>, cs: seq<string>) {
    forall i :: 0 <= i < |rs| && i < |cs| ==> SegmentsAgree(rs[i], cs[i])
  }

  predicate Matches(route: string, consumer: string) {
    var rs, cs := Segments(route), Segments(consumer);
    if IsOpen(route) && IsOpen(consumer) then
      var n := if |rs| < |cs| then |rs| else |cs|;
      Agree(rs[..n], cs[..n])
    else if IsOpen(route) then |cs| >= |rs| && Agree(rs, cs)
    else if IsOpen(consumer) then |rs| >= |cs| && Agree(rs, cs)
    else |rs| == |cs| && Agree(rs, cs)
  }

  predicate IsBaseOf(route: string, consumer: string) {
    var rs, cs := Segments(route), Segments(consumer);
    !IsOpen(consumer) && |cs| < |rs| && Agree(rs, cs)
  }

  // ----- What patterns stand for -----

  predicate IsSegment(s: string) {
    s != "" && '/' !in s
  }

  /** A path a request can have: no empty segment, no wildcard. */
  predicate Concrete(p: seq<string>) {
    forall i :: 0 <= i < |p| ==> IsSegment(p[i]) && p[i] != "*"
  }

  /** The segments of a pattern with its wildcards filled by those of p. */
  predicate Fills(segments: seq<string>, p: seq<string>) {
    |p| >= |segments| && forall i :: 0 <= i < |segments| ==> segments[i] == "*" || segments[i] == p[i]
  }

  /** The concrete paths of a pattern: its segments filled, and any extension if it is open. */
  predicate Denotes(pattern: string, p: seq<string>) {
    Concrete(p) && Fills(Segments(pattern), p) && (IsOpen(pattern) || |p| == |Segments(pattern)|)
  }

  lemma {:induction false} SegmentsAreSegments(path: string, i: nat)
    requires i < |Segments(path)|
    ensures IsSegment(Segments(path)[i])
    decreases |path|
  {
    if path[0] == '/' {
      SegmentsAreSegments(path[1..], i);
    } else if i > 0 {
      SegmentsAreSegments(path[SegmentEnd(path)..], i - 1);
    }
  }

  function Fill(a: string, b: string): string {
    if a != "*" then a else if b != "*" then b else "x"
  }

  /** The common filling of two lists that agree. */
  function Meet(rs: seq<string>, cs: seq<string>): seq<string>
    decreases |rs| < |cs|
  {
    if |rs| < |cs| then Meet(cs, rs)
    else seq(|rs|, i requires 0 <= i < |rs| => Fill(rs[i], if i < |cs| then cs[i] else "*"))
  }

  lemma MeetFills(rs: seq<string>, cs: seq<string>)
    requires Agree(rs, cs)
    requires forall i :: 0 <= i < |rs| ==> IsSegment(rs[i])
    requires forall i :: 0 <= i < |cs| ==> IsSegment(cs[i])
    ensures Concrete(Meet(rs, cs)) && Fills(rs, Meet(rs, cs)) && Fills(cs, Meet(rs, cs))
    ensures |Meet(rs, cs)| == if |rs| < |cs| then |cs| else |rs|
    decreases |rs| < |cs|
  {
    if |rs| < |cs| {
      assert Agree(cs, rs);
      MeetFills(cs, rs);
    }
  }

  lemma CommonFilling(rs: seq<string>, cs: seq<string>, p: seq<string>)
    requires Fills(rs, p) && Fills(cs, p)
    ensures Agree(rs, cs)
  {
  }

  lemma AgreePrefix(rs: seq<string>, cs: seq<string>, n: nat)
    requires n <= |rs| && n <= |cs| && (n == |rs| || n == |cs|)
    ensures Agree(rs[..n], cs[..n]) <==> Agree(rs, cs)
  {
    if Agree(rs[..n], cs[..n]) {
      forall i | 0 <= i < |rs| && i < |cs| ensures SegmentsAgree(rs[i], cs[i]) {
        assert rs[..n][i] == rs[i] && cs[..n][i] == cs[i];
      }
    }
  }

  /** The branches of the matcher in one: the lists agree, and a closed pattern is not longer or shorter than the other
      allows. */
  lemma MatchesByLength(route: string, consumer: string)
    ensures var rs, cs := Segments(route), Segments(consumer);
            Matches(route, consumer) <==>
            Agree(rs, cs) && (IsOpen(route) || |cs| <= |rs|) && (IsOpen(consumer) || |rs| <= |cs|)
  {
    var rs, cs := Segments(route), Segments(consumer);
    AgreePrefix(rs, cs, if |rs| < |cs| then |rs| else |cs|);
  }

  /** The matcher is exact: two patterns match when and only when some concrete path belongs to both. */
  lemma MatchesIffShared(route: string, consumer: string)
    ensures Matches(route, consumer) <==> exists p :: Denotes(route, p) && Denotes(consumer, p)
  {
    var rs, cs := Segments(route), Segments(consumer);
    MatchesByLength(route, consumer);
    if Matches(route, consumer) {
      forall i | 0 <= i < |rs| ensures IsSegment(rs[i]) {
        SegmentsAreSegments(route, i);
      }
      forall i | 0 <= i < |cs| ensures IsSegment(cs[i]) {
        SegmentsAreSegments(consumer, i);
      }
      MeetFills(rs, cs);
      assert Denotes(route, Meet(rs, cs)) && Denotes(consumer, Meet(rs, cs));
    }
    if p :| Denotes(route, p) && Denotes(consumer, p) {
      CommonFilling(rs, cs, p);
    }
  }

  lemma MatchesSymmetric(a: string, b: string)
    ensures Matches(a, b) <==> Matches(b, a)
  {
    MatchesIffShared(a, b);
    MatchesIffShared(b, a);
  }

  /** The base-URL test is exact: the consumer is closed and one of its concrete paths is a proper beginning of the
      route's own segments with the wildcards filled. */
  lemma BaseIffProperBeginning(route: string, consumer: string)
    ensures IsBaseOf(route, consumer) <==>
            !IsOpen(consumer) &&
            exists p, q :: Denotes(consumer, p) && Concrete(q) && Fills(Segments(route), q) &&
                           |q| == |Segments(route)| && p < q
  {
    var rs, cs := Segments(route), Segments(consumer);
    if IsBaseOf(route, consumer) {
      forall i | 0 <= i < |rs| ensures IsSegment(rs[i]) {
        SegmentsAreSegments(route, i);
      }
      forall i | 0 <= i < |cs| ensures IsSegment(cs[i]) {
        SegmentsAreSegments(consumer, i);
      }
      MeetFills(rs, cs);
      var q := Meet(rs, cs);
      assert Denotes(consumer, q[..|cs|]) && q[..|cs|] < q;
    }
    if p, q :| Denotes(consumer, p) && Concrete(q) && Fills(rs, q) && |q| == |rs| && p < q {
      assert Fills(cs, q);
      CommonFilling(rs, cs, q);
    }
  }

  // ----- Patterns and paths as text -----

  function Render(p: seq<string>): string {
    if p == [] then "" else "/" + p[0] + Render(p[1..])
  }

  lemma SegmentEndAt(s: string, rest: string)
    requires IsSegment(s) && (rest == "" || rest[0] == '/')
    ensures SegmentEnd(s + rest) == |s|
  {
    var path := s + rest;
    var n := SegmentEnd(path);
    assert forall i :: 0 <= i < |s| ==> path[i] == s[i];
    assert rest != "" ==> path[|s|] == '/';
    assert forall i :: 0 <= i < n ==> path[..n][i] == path[i];
  }

  lemma SegmentThen(s: string, rest: string)
    requires IsSegment(s) && (rest == "" || rest[0] == '/')
    ensures Segments("/" + s + rest) == [s] + Segments(rest)
  {
    var path := s + rest;
    SegmentEndAt(s, rest);
    assert path[0] == s[0] && path[..|s|] == s && path[|s|..] == rest;
    assert "/" + s + rest == "/" + path && ("/" + path)[1..] == path;
  }

  lemma Regroup(a: string, b: string, c: string)
    ensures (a + b) + c == a + (b + c)
  {
  }

  lemma {:induction false} SegmentsThen(p: seq<string>, tail: string)
    requires (forall i :: 0 <= i < |p| ==> IsSegment(p[i])) && (tail == "" || tail[0] == '/')
    ensures Segments(Render(p) + tail) == p + Segments(tail)
    ensures Render(p) == "" || Render(p)[0] == '/'
  {
    if p == [] {
      assert Render(p) + tail == tail;
    } else {
      SegmentsThen(p[1..], tail);
      var front := Render(p[1..]);
      assert (front + tail) == "" || (front + tail)[0] == '/' by {
        assert front == "" ==> front + tail == tail;
      }
      SegmentThen(p[0], front + tail);
      Regroup("/" + p[0], front, tail);
    }
  }

  /** A rendered path splits back into its segments, with or without a slash at its end, so the segment lists above lose
      nothing. */
  lemma SegmentsOfRendered(p: seq<string>)
    requires forall i :: 0 <= i < |p| ==> IsSegment(p[i])
    ensures Segments(Render(p)) == p && Segments(Render(p) + "/") == p
  {
    SegmentsThen(p, "");
    SegmentsThen(p, "/");
    assert Render(p) + "" == Render(p) && "/"[1..] == "";
  }

  lemma {:induction false} RenderedIsClosed(p: seq<string>)
    requires forall i :: 0 <= i < |p| ==> IsSegment(p[i])
    ensures Render(p) != "" ==> Render(p)[|Render(p)| - 1] != '/'
  {
    if p != [] {
      RenderedIsClosed(p[1..]);
      var rest := Render(p[1..]);
      assert Render(p) == ("/" + p[0]) + rest;
      if rest == "" {
        assert Render(p)[|Render(p)| - 1] == p[0][|p[0]| - 1];
      } else {
        assert Render(p)[|Render(p)| - 1] == rest[|rest| - 1];
      }
    }
  }

  /** A path fills a list of segments: it has one segment for each, the same one unless a star stands there. */
  predicate Filled(p: seq<string>, q: seq<string>) {
    |p| == |q| && forall i :: 0 <= i < |p| ==> p[i] == "*" || p[i] == q[i]
  }

  lemma FillsFilled(p: seq<string>, q: seq<string>)
    ensures Fills(p, q) <==> |p| <= |q| && Filled(p, q[..|p|])
  {
    if |p| <= |q| {
      assert forall i :: 0 <= i < |p| ==> q[..|p|][i] == q[i];
    }
  }

  lemma OpenByEnd(p: seq<string>)
    requires forall i :: 0 <= i < |p| ==> IsSegment(p[i])
    ensures !IsOpen(Render(p)) && IsOpen(Render(p) + "/")
  {
    RenderedIsClosed(p);
  }

  lemma DenotesBy(pattern: string, p: seq<string>, q: seq<string>)
    requires Segments(pattern) == p && Concrete(q)
    ensures Denotes(pattern, q) <==> |p| <= |q| && Filled(p, q[..|p|]) && (IsOpen(pattern) || |q| == |p|)
  {
    FillsFilled(p, q);
  }

  /** What written patterns stand for: without a slash at the end exactly the paths that fill it, with one exactly the
      paths that begin with such a path. */
  lemma PatternsDenote(p: seq<string>, q: seq<string>)
    requires forall i :: 0 <= i < |p| ==> p[i] != "" && '/' !in p[i]
    requires forall i :: 0 <= i < |q| ==> q[i] != "" && '/' !in q[i] && q[i] != "*"
    ensures Denotes(Render(p), q) <==> Filled(p, q)
    ensures Denotes(Render(p) + "/", q) <==> |p| <= |q| && Filled(p, q[..|p|])
  {
    SegmentsOfRendered(p);
    OpenByEnd(p);
    DenotesBy(Render(p), p, q);
    DenotesBy(Render(p) + "/", p, q);
    assert q[..|q|] == q;
  }
}
