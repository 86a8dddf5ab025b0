/** Matching requests to routes by specificity in the gateway (gateway/src/route_manifest.rs). */
module RouteManifest {

  import opened Common

  datatype RouteEntry = RouteEntry(path: string, handler: string, methods: seq<string>)

  /** Upper case as the standard library maps it. */
  const ToUpper: string -> string

  function TrimSlashes(s: string): string {
    if s != [] && s[|s| - 1] == '/' then TrimSlashes(s[..|s| - 1]) else s
  }

  function Normalized(s: string): string { if TrimSlashes(s) == [] then "/" else TrimSlashes(s) }

  function Split(s: string): (parts: seq<string>)
    ensures parts != []
  {
    if s == [] then [[]]
    else
      var rest := Split(s[1..]);
      if s[0] == '/' then [[]] + rest else [[s[0]] + rest[0]] + rest[1..]
  }

  function NonEmpty(parts: seq<string>): seq<string> {
    if parts == [] then [] else (if parts[0] == [] then [] else [parts[0]]) + NonEmpty(parts[1..])
  }

  function Segments(s: string): seq<string> { NonEmpty(Split(s)) }

  predicate IsParam(segment: string) { segment != [] && segment[0] == ':' }

  /** A final `*` stands for any rest; the segments before it are compared literally. */
  predicate WildcardMatches(pattern: seq<string>, path: seq<string>) {
    pattern != [] && pattern[|pattern| - 1] == "*" && pattern[..|pattern| - 1] <= path
  }

  predicate ParamsMatch(pattern: seq<string>, path: seq<string>) {
    |pattern| == |path| && forall i :: 0 <= i < |path| ==> IsParam(pattern[i]) || pattern[i] == path[i]
  }

  /** 3 for an exact match, 2 with parameters, 1 by wildcard, 0 for none. */
  function MatchPathScore(pattern: string, path: string): nat {
    var pat, p := Normalized(pattern), if path == [] then "/" else path;
    if pat == p then 3
    else if WildcardMatches(Segments(pat), Segments(p)) then 1
    else if ParamsMatch(Segments(pat), Segments(p)) then 2
    else 0
  }

  predicate Accepts(r: RouteEntry, verb: string) {
    exists i :: 0 <= i < |r.methods| && ToUpper(r.methods[i]) == ToUpper(verb)
  }

  /** The score of a route for a request; routes for other methods have none. */
  function Score(r: RouteEntry, verb: string, path: string): nat {
    if Accepts(r, verb) then MatchPathScore(r.path, Normalized(path)) else 0
  }

  function Scores(routes: seq<RouteEntry>, verb: string, path: string): seq<nat> {
    seq(|routes|, i requires 0 <= i < |routes| => Score(routes[i], verb, path))
  }

  /** The first occurrence of the largest score, if there is one but zero. */
  ghost predicate Top(scores: seq<nat>, k: nat) {
    && k < |scores| && scores[k] > 0
    && (forall i :: 0 <= i < k ==> scores[i] < scores[k])
    && (forall i :: k < i < |scores| ==> scores[i] <= scores[k])
  }

  ghost predicate AllZero(scores: seq<nat>) { forall i :: 0 <= i < |scores| ==> scores[i] == 0 }

  lemma TopAppended(scores: seq<nat>, k: nat, score: nat)
    requires Top(scores, k)
    ensures Top(scores + [score], if score > scores[k] then |scores| else k)
  {
  }

  lemma TopFirst(scores: seq<nat>, score: nat)
    requires AllZero(scores)
    ensures if score > 0 then Top(scores + [score], |scores|) else AllZero(scores + [score])
  {
  }

  lemma TopIsUnique(scores: seq<nat>, j: nat)
    requires Top(scores, j)
    ensures forall k: nat :: Top(scores, k) ==> k == j
  {
  }

  lemma NoneTakesIt(routes: seq<RouteEntry>, verb: string, path: string)
    requires AllZero(Scores(routes, verb, path))
    ensures forall route, m | route in routes && m in route.methods && ToUpper(m) == ToUpper(verb) ::
              MatchPathScore(route.path, Normalized(path)) == 0
  {
    forall route, m | route in routes && m in route.methods && ToUpper(m) == ToUpper(verb)
      ensures MatchPathScore(route.path, Normalized(path)) == 0
    {
      var k :| 0 <= k < |routes| && routes[k] == route;
      assert Scores(routes, verb, path)[k] == 0;
    }
  }

  /** The answer is the earliest of the routes with the highest score; there is none exactly when no route
      scores. */
  method MatchRoute(routes: seq<RouteEntry>, verb: string, path: string) returns (r: Option<RouteEntry>)
    ensures r.None? <==> AllZero(Scores(routes, verb, path))
    ensures r.Some? ==> exists k: nat :: Top(Scores(routes, verb, path), k) && r.value == routes[k]
    ensures forall k: nat :: Top(Scores(routes, verb, path), k) ==> r == Some(routes[k])
    ensures r.Some? ==> exists m :: m in r.value.methods && ToUpper(m) == ToUpper(verb)
    ensures r.None? ==> forall route, m | route in routes && m in route.methods && ToUpper(m) == ToUpper(verb) ::
              MatchPathScore(route.path, Normalized(path)) == 0
  {
    r := None;
    var trimmed := TrimSlashes(path);
    var p := if trimmed == [] then "/" else trimmed;
    var bestScore := 0;
    ghost var at := 0;
    ghost var scores := Scores(routes, verb, path);
    for i := 0 to |routes|
      invariant bestScore == 0 ==> r.None? && AllZero(scores[..i])
      invariant bestScore > 0 ==> Top(scores[..i], at) && r == Some(routes[at]) && bestScore == scores[at]
    {
      assert scores[..i + 1] == scores[..i] + [scores[i]];
      if bestScore > 0 {
        TopAppended(scores[..i], at, scores[i]);
      } else {
        TopFirst(scores[..i], scores[i]);
      }
      if !Accepts(routes[i], verb) {
        continue;
      }
      var score := MatchPathScore(routes[i].path, p);
      if score > bestScore {
        bestScore := score;
        r := Some(routes[i]);
        at := i;
      }
    }
    assert scores[..|routes|] == scores;
    if bestScore > 0 {
      TopIsUnique(scores, at);
      assert Score(routes[at], verb, path) > 0;
    } else {
      NoneTakesIt(routes, verb, path);
    }
  }

  // ── Specificity ──────────────────────────────────────────────────

  function Inserted<T>(xs: seq<T>, at: nat, x: T): seq<T>
    requires at <= |xs|
  {
    xs[..at] + [x] + xs[at..]
  }

  lemma ScoresInserted(routes: seq<RouteEntry>, at: nat, r: RouteEntry, verb: string, path: string)
    requires at <= |routes|
    ensures Scores(Inserted(routes, at, r), verb, path)
            == Inserted(Scores(routes, verb, path), at, Score(r, verb, path))
  {
  }

  lemma TopInserted(scores: seq<nat>, at: nat, score: nat, k: nat)
    requires at <= |scores| && Top(scores, k)
    ensures var more, moved := Inserted(scores, at, score), if at <= k then k + 1 else k;
            && (Top(more, at) <==> score > scores[k] || (score == scores[k] && at <= k))
            && (Top(more, moved) <==> score < scores[k] || (score == scores[k] && at > k))
  {
    var more, moved := Inserted(scores, at, score), if at <= k then k + 1 else k;
    assert more[at] == score && more[moved] == scores[k];
    assert forall i :: 0 <= i < at ==> more[i] == scores[i];
    assert forall i :: at < i < |more| ==> more[i] == scores[i - 1];
  }

  /** Another route, wherever it is put, takes over from the best one exactly when it scores higher, or as
      high from a place before it; otherwise the answer stays the same route. */
  lemma InsertionTakesOverExactlyWhen(routes: seq<RouteEntry>, at: nat, r: RouteEntry, verb: string, path: string,
                                      k: nat)
    requires at <= |routes| && Top(Scores(routes, verb, path), k)
    ensures var more, mine, best := Inserted(routes, at, r), Score(r, verb, path), Score(routes[k], verb, path);
            var moved := if at <= k then k + 1 else k;
            && more[moved] == routes[k] && more[at] == r
            && (Top(Scores(more, verb, path), at) <==> mine > best || (mine == best && at <= k))
            && (Top(Scores(more, verb, path), moved) <==> mine < best || (mine == best && at > k))
  {
    ScoresInserted(routes, at, r, verb, path);
    TopInserted(Scores(routes, verb, path), at, Score(r, verb, path), k);
  }

  lemma ZerosInserted(scores: seq<nat>, at: nat, score: nat)
    requires at <= |scores| && AllZero(scores)
    ensures Top(Inserted(scores, at, score), at) <==> score > 0
    ensures AllZero(Inserted(scores, at, score)) <==> score == 0
  {
    var more := Inserted(scores, at, score);
    assert more[at] == score;
    assert forall i :: 0 <= i < at ==> more[i] == scores[i];
    assert forall i :: at < i < |more| ==> more[i] == scores[i - 1];
  }

  /** Where no route matched, a new one is the answer exactly when it scores at all. */
  lemma InsertionWhereNoneMatched(routes: seq<RouteEntry>, at: nat, r: RouteEntry, verb: string, path: string)
    requires at <= |routes| && AllZero(Scores(routes, verb, path))
    ensures var more := Inserted(routes, at, r);
            && (Top(Scores(more, verb, path), at) <==> Score(r, verb, path) > 0)
            && (AllZero(Scores(more, verb, path)) <==> Score(r, verb, path) == 0)
  {
    ScoresInserted(routes, at, r, verb, path);
    ZerosInserted(Scores(routes, verb, path), at, Score(r, verb, path));
  }

  // ── Trailing slashes ─────────────────────────────────────────────

  predicate Slashes(s: string) { forall i :: 0 <= i < |s| ==> s[i] == '/' }

  lemma {:induction false} TrimIgnoresSlashes(s: string, slashes: string)
    requires Slashes(slashes)
    ensures TrimSlashes(s + slashes) == TrimSlashes(s)
    decreases |slashes|
  {
    if slashes == [] {
      assert s + slashes == s;
    } else {
      assert (s + slashes)[..|s + slashes| - 1] == s + slashes[..|slashes| - 1];
      TrimIgnoresSlashes(s, slashes[..|slashes| - 1]);
    }
  }

  /** Trailing slashes on the pattern or on the path make no difference to any score, so none to the match. */
  lemma TrailingSlashesDoNotMatter(r: RouteEntry, verb: string, path: string, more: string, extra: string)
    requires Slashes(more) && Slashes(extra)
    ensures Score(r.(path := r.path + more), verb, path + extra) == Score(r, verb, path)
  {
    TrimIgnoresSlashes(r.path, more);
    TrimIgnoresSlashes(path, extra);
    assert r.(path := r.path + more).methods == r.methods;
    assert Accepts(r.(path := r.path + more), verb) <==> Accepts(r, verb);
  }

  // ── What the classes mean ────────────────────────────────────────

  function Join(segments: seq<string>): string {
    if segments == [] then [] else "/" + segments[0] + Join(segments[1..])
  }

  predicate IsSegment(s: string) { s != [] && '/' !in s }

  lemma {:induction false} SplitSegment(segment: string, rest: string)
    requires '/' !in segment && (rest == [] || rest[0] == '/')
    ensures Split(segment + rest) == [segment] + Split(rest)[1..]
    decreases |segment|
  {
    if segment == [] {
      assert segment + rest == rest;
    } else {
      assert (segment + rest)[1..] == segment[1..] + rest;
      SplitSegment(segment[1..], rest);
      assert [segment[0]] + segment[1..] == segment;
    }
  }

  /** Taking a path apart undoes putting it together. */
  lemma {:induction false} SegmentsUndoJoin(segments: seq<string>)
    requires forall i :: 0 <= i < |segments| ==> IsSegment(segments[i])
    ensures Segments(Join(segments)) == segments
    ensures segments != [] ==> Split(Join(segments))[0] == []
    decreases |segments|
  {
    if segments != [] {
      var first, rest := segments[0], Join(segments[1..]);
      SegmentsUndoJoin(segments[1..]);
      assert IsSegment(segments[0]);
      assert Join(segments)[1..] == first + rest;
      SplitSegment(first, rest);
      var parts := Split(rest);
      assert parts[0] == [] by { if segments[1..] == [] { assert rest == []; } }
      assert NonEmpty(parts) == NonEmpty(parts[1..]);
      assert Split(Join(segments)) == [[]] + ([first] + parts[1..]);
      assert Split(Join(segments))[1..] == [first] + parts[1..];
      assert ([first] + parts[1..])[1..] == parts[1..];
      assert NonEmpty([first] + parts[1..]) == [first] + NonEmpty(parts[1..]);
    }
  }

  lemma {:induction false} JoinHasNoTrailingSlash(segments: seq<string>)
    requires segments != [] && forall i :: 0 <= i < |segments| ==> IsSegment(segments[i])
    ensures Join(segments) != [] && Join(segments)[|Join(segments)| - 1] != '/'
    decreases |segments|
  {
    assert IsSegment(segments[0]);
    if |segments| > 1 {
      JoinHasNoTrailingSlash(segments[1..]);
    } else {
      assert Join(segments[1..]) == [];
      assert Join(segments)[|Join(segments)| - 1] == segments[0][|segments[0]| - 1];
      assert segments[0][|segments[0]| - 1] in segments[0];
    }
  }

  lemma NormalizedJoin(segments: seq<string>)
    requires forall i :: 0 <= i < |segments| ==> IsSegment(segments[i])
    ensures Normalized(Join(segments)) == if segments == [] then "/" else Join(segments)
    ensures Segments(Normalized(Join(segments))) == segments
  {
    SegmentsUndoJoin(segments);
    if segments == [] {
      assert "/"[1..] == "";
      assert Split("/") == [[]] + [[]];
      assert Split("/")[1..] == [[]];
    } else {
      JoinHasNoTrailingSlash(segments);
    }
  }

  /** For a pattern and a path written as segments, none of them for the root, the score says how their
      segments relate. A wildcard that matches settles the class before parameters are looked at. */
  lemma {:induction false} ScoreOfSegments(pattern: seq<string>, path: seq<string>)
    requires forall i :: 0 <= i < |pattern| ==> IsSegment(pattern[i])
    requires forall i :: 0 <= i < |path| ==> IsSegment(path[i])
    ensures MatchPathScore(Join(pattern), Normalized(Join(path))) ==
              if pattern == path then 3
              else if pattern != [] && pattern[|pattern| - 1] == "*" && pattern[..|pattern| - 1] <= path then 1
              else if ParamsMatch(pattern, path) then 2
              else 0
  {
    NormalizedJoin(pattern);
    NormalizedJoin(path);
  }

  /** Empty segments are invisible to every comparison but the exact one: a literal route written with a
      doubled slash, at the front or between two segments, still matches, in the class of parameters. */
  lemma {:induction false} DoubledSlashMatchesAsParameter(front: seq<string>, back: seq<string>)
    requires back != [] && back[|back| - 1] != "*"
    requires forall i :: 0 <= i < |front| ==> IsSegment(front[i])
    requires forall i :: 0 <= i < |back| ==> IsSegment(back[i])
    ensures MatchPathScore(Join(front) + "/" + Join(back), Normalized(Join(front + back))) == 2
  {
    JoinConcat(front, back);
    SegmentsUndoJoin(front + back);
    SegmentsUndoJoin(front);
    SegmentsUndoJoin(back);
    JoinHasNoTrailingSlash(back);
    SegmentsAcrossSlash(Join(front), Join(back));
    DoubledScores(Join(front), Join(back), front + back);
  }

  lemma {:induction false} JoinConcat(a: seq<string>, b: seq<string>)
    ensures Join(a + b) == Join(a) + Join(b)
    decreases |a|
  {
    if a == [] {
      assert a + b == b;
    } else {
      assert (a + b)[1..] == a[1..] + b;
      JoinConcat(a[1..], b);
    }
  }

  /** An empty segment between two texts changes the segments of neither. */
  lemma SegmentsAcrossSlash(a: string, b: string)
    ensures Segments(a + "/" + b) == Segments(a) + Segments(b)
  {
    SplitAcrossSlash(a, b);
    NonEmptyConcat(Split(a), Split(b));
  }

  lemma {:induction false} SplitAcrossSlash(a: string, b: string)
    ensures Split(a + "/" + b) == Split(a) + Split(b)
    decreases |a|
  {
    var s := a + "/" + b;
    if a == [] {
      assert s[1..] == b;
    } else {
      assert s[1..] == a[1..] + "/" + b;
      SplitAcrossSlash(a[1..], b);
    }
  }

  lemma {:induction false} NonEmptyConcat(a: seq<string>, b: seq<string>)
    ensures NonEmpty(a + b) == NonEmpty(a) + NonEmpty(b)
    decreases |a|
  {
    if a == [] {
      assert a + b == b;
    } else {
      assert (a + b)[1..] == a[1..] + b;
      NonEmptyConcat(a[1..], b);
    }
  }

  lemma DoubledScores(a: string, b: string, segments: seq<string>)
    requires b != [] && b[|b| - 1] != '/' && segments != [] && segments[|segments| - 1] != "*"
    requires Segments(a + b) == segments && Segments(a + "/" + b) == segments
    ensures MatchPathScore(a + "/" + b, Normalized(a + b)) == 2
  {
    var doubled, path := a + "/" + b, a + b;
    assert doubled[|doubled| - 1] == b[|b| - 1] == path[|path| - 1];
    assert Normalized(doubled) == doubled && Normalized(path) == path;
    assert |doubled| == |path| + 1;
    SameSegmentsScore(doubled, path);
  }

  lemma SameSegmentsScore(pattern: string, path: string)
    requires Normalized(pattern) == pattern != path && path != []
    requires Segments(pattern) == Segments(path) != [] && Segments(path)[|Segments(path)| - 1] != "*"
    ensures MatchPathScore(pattern, path) == 2
  {
  }
}
