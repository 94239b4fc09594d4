/** The path matcher `routeMatch`: a request path and a route pattern are
    split on '/' and compared segment by segment, a pattern segment that
    starts with ':' accepting any single request segment. */
module Routing {

  const Separator: char := '/'
  const WildcardMarker: char := ':'

  /** How many separators `s` holds. */
  function SeparatorCount(s: string): nat {
    if s == [] then 0
    else (if s[0] == Separator then 1 else 0) + SeparatorCount(s[1..])
  }

  /** JavaScript's `s.split('/')`: the pieces between separators, empty ones
      included, so "" gives [""] and "/a/" gives ["", "a", ""]. */
  function Split(s: string): (parts: seq<string>)
    ensures |parts| >= 1
    ensures forall k :: 0 <= k < |parts| ==> Separator !in parts[k]
    decreases |s|
  {
    if s == [] then [""]
    else
      var rest := Split(s[1..]);
      if s[0] == Separator then [""] + rest
      else [[s[0]] + rest[0]] + rest[1..]
  }

  /** JavaScript's `parts.join('/')`. */
  function Join(parts: seq<string>): string {
    if parts == [] then ""
    else if |parts| == 1 then parts[0]
    else parts[0] + [Separator] + Join(parts[1..])
  }

  /** Joining the pieces of a split gives back the string. */
  lemma {:induction false} JoinSplit(s: string)
    ensures Join(Split(s)) == s
    decreases |s|
  {
    if s != [] {
      var rest := Split(s[1..]);
      JoinSplit(s[1..]);
      if s[0] == Separator {
        assert ([""] + rest)[1..] == rest;
      } else if |rest| > 1 {
        assert Join(rest) == rest[0] + [Separator] + Join(rest[1..]);
        assert ([[s[0]] + rest[0]] + rest[1..])[1..] == rest[1..];
        assert s == [s[0]] + s[1..];
      } else {
        assert s == [s[0]] + s[1..];
      }
    }
  }

  /** A prefix without separators only extends the first piece. */
  lemma {:induction false} SplitAfterPlainPrefix(a: string, t: string)
    requires Separator !in a
    ensures Split(a + t) == [a + Split(t)[0]] + Split(t)[1..]
    decreases |a|
  {
    if a == [] {
      assert a + t == t;
      assert a + Split(t)[0] == Split(t)[0];
      assert [Split(t)[0]] + Split(t)[1..] == Split(t);
    } else {
      assert (a + t)[0] == a[0];
      assert (a + t)[1..] == a[1..] + t;
      SplitAfterPlainPrefix(a[1..], t);
      assert [a[0]] + (a[1..] + Split(t)[0]) == a + Split(t)[0];
    }
  }

  /** Splitting the join of separator-free pieces gives back the pieces. */
  lemma {:induction false} SplitJoin(parts: seq<string>)
    requires |parts| >= 1
    requires forall k :: 0 <= k < |parts| ==> Separator !in parts[k]
    ensures Split(Join(parts)) == parts
    decreases |parts|
  {
    if |parts| == 1 {
      SplitAfterPlainPrefix(parts[0], "");
      assert parts[0] + "" == parts[0];
    } else {
      var tail := Join(parts[1..]);
      assert Join(parts) == parts[0] + [Separator] + tail;
      SplitJoin(parts[1..]);
      assert ([Separator] + tail)[1..] == tail;
      var rest := Split([Separator] + tail);
      assert rest == [""] + parts[1..];
      SplitAfterPlainPrefix(parts[0], [Separator] + tail);
      assert parts[0] + [Separator] + tail == parts[0] + ([Separator] + tail);
      assert Split(Join(parts)) == [parts[0] + rest[0]] + rest[1..];
      assert rest[0] == "" && rest[1..] == parts[1..];
      assert parts[0] + "" == parts[0];
      assert parts == [parts[0]] + parts[1..];
    }
  }

  lemma {:induction false} SeparatorCountAppend(a: string, b: string)
    ensures SeparatorCount(a + b) == SeparatorCount(a) + SeparatorCount(b)
    decreases |a|
  {
    if a != [] {
      assert (a + b)[1..] == a[1..] + b;
      SeparatorCountAppend(a[1..], b);
    } else {
      assert a + b == b;
    }
  }

  /** A string splits into one more piece than it has separators. */
  lemma {:induction false} SplitLength(s: string)
    ensures |Split(s)| == SeparatorCount(s) + 1
    decreases |s|
  {
    if s != [] {
      SplitLength(s[1..]);
    }
  }

  /** `segment.startsWith(':')`: a bare ":" is a wildcard too. */
  predicate IsWildcard(segment: string) {
    |segment| > 0 && segment[0] == WildcardMarker
  }

  predicate SegmentMatches(pathSegment: string, routeSegment: string) {
    IsWildcard(routeSegment) || pathSegment == routeSegment
  }

  /** When `routeMatch(path, route)` holds: as many segments on each side,
      and every pattern segment a wildcard or exactly the request segment
      (case-sensitive, nothing decoded). */
  predicate PathMatches(path: string, route: string) {
    var pathParts, routeParts := Split(path), Split(route);
    |pathParts| == |routeParts| &&
    forall k :: 0 <= k < |pathParts| ==> SegmentMatches(pathParts[k], routeParts[k])
  }

  /** `routeMatch`: compares the segment counts, then walks the segments and
      returns false at the first literal segment that differs. */
  method RouteMatch(path: string, route: string) returns (matched: bool)
    ensures matched == PathMatches(path, route)
  {
    var pathParts := Split(path);
    var routeParts := Split(route);
    if |pathParts| != |routeParts| {
      return false;
    }
    var i := 0;
    while i < |pathParts|
      invariant 0 <= i <= |pathParts|
      invariant forall k :: 0 <= k < i ==> SegmentMatches(pathParts[k], routeParts[k])
    {
      if IsWildcard(routeParts[i]) {
        i := i + 1;
        continue;
      }
      if pathParts[i] != routeParts[i] {
        return false;
      }
      i := i + 1;
    }
    return true;
  }

  /** Every path matches itself used as a pattern. */
  lemma PathMatchesItself(path: string)
    ensures PathMatches(path, path)
  {
  }

  /** A match needs as many separators in the path as in the pattern: a
      pattern has a fixed number of segments. */
  lemma MatchNeedsEqualDepth(path: string, route: string)
    ensures PathMatches(path, route) ==> SeparatorCount(path) == SeparatorCount(route)
  {
    SplitLength(path);
    SplitLength(route);
  }

  /** A path that matches a pattern stops matching it once a segment is
      appended, an empty one (a trailing slash) included. */
  lemma ExtraSegmentNeverMatches(path: string, extra: string, route: string)
    requires PathMatches(path, route)
    ensures !PathMatches(path + [Separator] + extra, route)
  {
    MatchNeedsEqualDepth(path, route);
    MatchNeedsEqualDepth(path + [Separator] + extra, route);
    SeparatorCountAppend(path, [Separator]);
    SeparatorCountAppend(path + [Separator], extra);
  }

  /** A pattern without wildcard segments matches exactly one path: itself. */
  lemma LiteralRouteMatchesOnlyItself(path: string, route: string)
    requires forall k :: 0 <= k < |Split(route)| ==> !IsWildcard(Split(route)[k])
    ensures PathMatches(path, route) <==> path == route
  {
    if PathMatches(path, route) {
      assert Split(path) == Split(route);
      JoinSplit(path);
      JoinSplit(route);
    }
  }

  /** The value under a wildcard is not constrained: replacing that segment of
      a matching path by any separator-free value keeps the match. */
  lemma WildcardAcceptsAnyValue(path: string, route: string, k: nat, value: string)
    requires PathMatches(path, route)
    requires k < |Split(route)| && IsWildcard(Split(route)[k])
    requires Separator !in value
    ensures PathMatches(Join(Split(path)[k := value]), route)
  {
    var parts := Split(path)[k := value];
    SplitJoin(parts);
  }

  /** How paths of the form `/first/second` split. */
  lemma {:induction false} SplitTwoSegments(first: string, second: string)
    requires Separator !in first && Separator !in second
    ensures Split([Separator] + first + [Separator] + second) == ["", first, second]
  {
    assert Join([first, second]) == first + [Separator] + second;
    assert Join(["", first, second]) == [Separator] + first + [Separator] + second;
    SplitJoin(["", first, second]);
  }

  /** The pattern `/users/:id` accepts any one id segment. */
  lemma UsersRouteMatchesAnyId(id: string)
    requires Separator !in id
    ensures PathMatches("/users/" + id, "/users/:id")
  {
    SplitTwoSegments("users", id);
    assert "/users/" + id == [Separator] + "users" + [Separator] + id;
    SplitTwoSegments("users", ":id");
    assert "/users/:id" == [Separator] + "users" + [Separator] + ":id";
  }

  /** `/users/:id` rejects a further segment, and a trailing slash. */
  lemma UsersRouteRejectsDeeperPaths()
    ensures !PathMatches("/users/42/extra", "/users/:id")
    ensures !PathMatches("/users/42/", "/users/:id")
  {
    SplitLength("/users/42/extra");
    SplitLength("/users/42/");
    SplitLength("/users/:id");
  }

  /** A two-segment path matches `/users/:id` exactly when its first segment
      is `users`, character for character (so `/Users/42` does not match). */
  lemma UsersRouteNeedsExactLiteral(first: string, id: string)
    requires Separator !in first && Separator !in id
    ensures PathMatches([Separator] + first + [Separator] + id, "/users/:id") <==> first == "users"
  {
    SplitTwoSegments(first, id);
    SplitTwoSegments("users", ":id");
    assert "/users/:id" == [Separator] + "users" + [Separator] + ":id";
    var pathParts, routeParts := Split([Separator] + first + [Separator] + id), Split("/users/:id");
    assert routeParts == ["", "users", ":id"];
    assert pathParts == ["", first, id];
    assert !IsWildcard(routeParts[1]) && IsWildcard(routeParts[2]);
    if first == "users" {
      assert forall k :: 0 <= k < 3 ==> SegmentMatches(pathParts[k], routeParts[k]);
    } else {
      assert !SegmentMatches(pathParts[1], routeParts[1]);
    }
  }
}
